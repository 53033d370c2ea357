/**
  The command line the backend shows for a run (`_cmd_str` off Windows): each argument quoted
  as `shlex.quote` does, joined by single spaces. Reading the line back as a POSIX shell splits
  it into words gives the arguments again.
 */
module Shell {
  import opened Wrappers

  /** The characters `shlex.quote` leaves unquoted: ASCII letters, digits and `_@%+=:,./-`. */
  predicate IsSafeChar(c: char)
  {
    ('a' <= c <= 'z') || ('A' <= c <= 'Z') || ('0' <= c <= '9')
    || c == '_' || c == '@' || c == '%' || c == '+' || c == '=' || c == ':' || c == ','
    || c == '.' || c == '/' || c == '-'
  }

  predicate AllSafe(s: string)
    decreases |s|
  {
    s == [] || (IsSafeChar(s[0]) && AllSafe(s[1..]))
  }

  /** `s.replace("'", "'\"'\"'")`: each single quote closes the quoted text, is written inside
      double quotes, and reopens it. */
  function EscapeQuotes(s: string): (r: string)
    ensures |r| >= |s|
    decreases |s|
  {
    if s == [] then []
    else (if s[0] == '\'' then "'\"'\"'" else [s[0]]) + EscapeQuotes(s[1..])
  }

  /** `shlex.quote(s)`: the word itself, or the word in single quotes; never empty. */
  function Quote(s: string): (q: string)
    ensures q == s || (|q| >= 2 && q[0] == '\'' && q[|q| - 1] == '\'')
    ensures q != []
  {
    if s == [] then "''"
    else if AllSafe(s) then s
    else "'" + EscapeQuotes(s) + "'"
  }

  /** `" ".join(words)`: the line opens with the first word and closes with the last. */
  function Join(words: seq<string>): (line: string)
    ensures words != [] ==> words[0] <= line
    decreases |words|
  {
    if words == [] then ""
    else if |words| == 1 then words[0]
    else words[0] + " " + Join(words[1..])
  }

  function QuoteAll(argv: seq<string>): (q: seq<string>)
    ensures |q| == |argv|
    decreases |argv|
  {
    if argv == [] then [] else [Quote(argv[0])] + QuoteAll(argv[1..])
  }

  /** `_cmd_str(cmd)`: the shown command line splits back, as a POSIX shell reads it, into
      the arguments it was made from. */
  function CommandLine(argv: seq<string>): (line: string)
    ensures ShellWords(line) == Some(argv)
  {
    JoinRead(argv, []);
    assert [] + argv == argv;
    Join(QuoteAll(argv))
  }

  /** A word is left as it is exactly when it is non-empty and all its characters are safe. */
  lemma QuoteUnchanged(s: string)
    ensures Quote(s) == s <==> s != [] && AllSafe(s)
  {
    if s != [] && !AllSafe(s) {
      assert |Quote(s)| >= |s| + 2;
    }
  }

  // ----- reading the line back -----

  /** Where the reader is: outside quotes, inside single quotes, or inside double quotes. */
  datatype Mode = Out | Single | Double

  /** A POSIX shell splitting a line into words: the words completed so far, and the word under
      way, which has begun (`inWord`) once a character or a quote of it has been read. */
  datatype Reader = Reader(mode: Mode, cur: string, inWord: bool, acc: seq<string>)

  const Fresh: Reader := Reader(Out, "", false, [])

  /** The characters that stay literal inside double quotes. */
  predicate PlainInDouble(c: char)
  {
    c != '"' && c != '$' && c != '`' && c != '\\'
  }

  /** The words read once the line has ended outside quotes. */
  function Words(r: Reader): seq<string>
  {
    r.acc + (if r.inWord then [r.cur] else [])
  }

  /** Reads one character. The reader knows spaces, single and double quotes and the characters
      `shlex.quote` leaves bare; it gives up on anything else outside quotes. */
  function Feed(r: Reader, c: char): Option<Reader>
  {
    match r.mode
    case Out =>
      if c == ' ' then Some(Reader(Out, "", false, Words(r)))
      else if c == '\'' then Some(r.(mode := Single, inWord := true))
      else if c == '"' then Some(r.(mode := Double, inWord := true))
      else if IsSafeChar(c) then Some(r.(cur := r.cur + [c], inWord := true))
      else None
    case Single =>
      if c == '\'' then Some(r.(mode := Out)) else Some(r.(cur := r.cur + [c]))
    case Double =>
      if c == '"' then Some(r.(mode := Out))
      else if PlainInDouble(c) then Some(r.(cur := r.cur + [c]))
      else None
  }

  /** Reads a text character by character. */
  function Lex(s: string, r: Reader): Option<Reader>
    decreases |s|
  {
    if s == [] then Some(r)
    else
      match Feed(r, s[0])
      case None => None
      case Some(r') => Lex(s[1..], r')
  }

  function Then(o: Option<Reader>, s: string): Option<Reader>
  {
    match o
    case None => None
    case Some(r) => Lex(s, r)
  }

  /** The words of a command line; an unclosed quote or an unknown character gives none. */
  function ShellWords(line: string): Option<seq<string>>
  {
    match Lex(line, Fresh)
    case Some(r) => if r.mode == Out then Some(Words(r)) else None
    case None => None
  }

  /** A text is read in two pieces. */
  lemma {:induction false} LexAppend(a: string, b: string, r: Reader)
    ensures Lex(a + b, r) == Then(Lex(a, r), b)
    decreases |a|
  {
    if a == [] {
      assert a + b == b;
    } else {
      assert (a + b)[0] == a[0] && (a + b)[1..] == a[1..] + b;
      match Feed(r, a[0]) {
        case None =>
        case Some(r') => LexAppend(a[1..], b, r');
      }
    }
  }

  /** Safe characters outside quotes extend the current word. */
  lemma {:induction false} LexSafe(s: string, r: Reader)
    requires r.mode == Out && s != [] && AllSafe(s)
    ensures Lex(s, r) == Some(r.(cur := r.cur + s, inWord := true))
    decreases |s|
  {
    var r' := r.(cur := r.cur + [s[0]], inWord := true);
    assert Feed(r, s[0]) == Some(r');
    if |s| == 1 {
      assert s == [s[0]];
    } else {
      LexSafe(s[1..], r');
      assert r.cur + [s[0]] + s[1..] == r.cur + s;
    }
  }

  /** A single quote, written inside single quotes as `'"'"'`, is read as itself. */
  lemma LexQuotedQuote(r: Reader)
    requires r.mode == Single && r.inWord
    ensures Lex("'\"'\"'", r) == Some(r.(cur := r.cur + "'"))
  {
    var q := "'\"'\"'";
    var r1 := r.(mode := Out);
    var r2 := r1.(mode := Double);
    var r3 := r2.(cur := r.cur + "'");
    var r4 := r3.(mode := Out);
    var r5 := r4.(mode := Single);
    assert q[0] == '\'' && Feed(r, q[0]) == Some(r1);
    assert q[1..][0] == '"' && Feed(r1, q[1..][0]) == Some(r2);
    assert q[1..][1..][0] == '\'' && Feed(r2, q[1..][1..][0]) == Some(r3);
    assert q[1..][1..][1..][0] == '"' && Feed(r3, q[1..][1..][1..][0]) == Some(r4);
    assert q[1..][1..][1..][1..][0] == '\'' && Feed(r4, q[1..][1..][1..][1..][0]) == Some(r5);
    assert q[1..][1..][1..][1..][1..] == [];
    assert r5 == r.(cur := r.cur + "'");
  }

  /** The escaped text of a word, read inside single quotes, adds the word to the current one. */
  lemma {:induction false} LexEscaped(s: string, r: Reader)
    requires r.mode == Single && r.inWord
    ensures Lex(EscapeQuotes(s), r) == Some(r.(cur := r.cur + s))
    decreases |s|
  {
    if s == [] {
      assert r.cur + s == r.cur;
    } else {
      var piece := if s[0] == '\'' then "'\"'\"'" else [s[0]];
      var r' := r.(cur := r.cur + [s[0]]);
      LexAppend(piece, EscapeQuotes(s[1..]), r);
      if s[0] == '\'' {
        LexQuotedQuote(r);
      } else {
        assert Feed(r, s[0]) == Some(r');
        assert piece[1..] == [];
      }
      assert Lex(piece, r) == Some(r');
      LexEscaped(s[1..], r');
      assert r.cur + [s[0]] + s[1..] == r.cur + s;
    }
  }

  /** A quoted word, read outside quotes, adds the word to the current one. */
  lemma QuoteRead(w: string, r: Reader)
    requires r.mode == Out
    ensures Lex(Quote(w), r) == Some(r.(cur := r.cur + w, inWord := true))
  {
    if w == [] {
      var q := "''";
      assert q[0] == '\'' && q[1..][0] == '\'' && q[1..][1..] == [];
      assert r.cur + w == r.cur;
    } else if AllSafe(w) {
      LexSafe(w, r);
    } else {
      var rs := r.(mode := Single, inWord := true);
      var re := rs.(cur := r.cur + w);
      assert Quote(w) == "'" + (EscapeQuotes(w) + "'");
      LexAppend("'", EscapeQuotes(w) + "'", r);
      assert Feed(r, '\'') == Some(rs);
      assert Lex("'", r) == Some(rs);
      LexAppend(EscapeQuotes(w), "'", rs);
      LexEscaped(w, rs);
      assert Feed(re, '\'') == Some(re.(mode := Out));
      assert Lex("'", re) == Some(re.(mode := Out));
    }
  }

  /** A quoted word read at the start of a word. */
  lemma WordRead(w: string, acc: seq<string>)
    ensures Lex(Quote(w), Reader(Out, "", false, acc)) == Some(Reader(Out, w, true, acc))
  {
    QuoteRead(w, Reader(Out, "", false, acc));
    assert [] + w == w;
  }

  /** A quoted word and the space after it complete the word. */
  lemma WordSpaceRead(w: string, rest: string, acc: seq<string>)
    ensures Lex(Quote(w) + (" " + rest), Reader(Out, "", false, acc)) == Lex(rest, Reader(Out, "", false, acc + [w]))
  {
    LexAppend(Quote(w), " " + rest, Reader(Out, "", false, acc));
    WordRead(w, acc);
    assert Feed(Reader(Out, w, true, acc), ' ') == Some(Reader(Out, "", false, acc + [w]));
    assert (" " + rest)[0] == ' ' && (" " + rest)[1..] == rest;
  }

  /** Reading `line` from outside quotes after the words `acc` ends outside quotes with the
      words `words`. */
  predicate ReadsAs(line: string, acc: seq<string>, words: seq<string>)
  {
    var o := Lex(line, Reader(Out, "", false, acc));
    o.Some? && o.value.mode == Out && Words(o.value) == words
  }

  /** The first of several joined quoted words is completed at the space after it. */
  lemma JoinStep(argv: seq<string>, acc: seq<string>)
    requires |argv| >= 2
    ensures Lex(Join(QuoteAll(argv)), Reader(Out, "", false, acc))
         == Lex(Join(QuoteAll(argv[1..])), Reader(Out, "", false, acc + [argv[0]]))
  {
    JoinQuoted(argv);
    WordSpaceRead(argv[0], Join(QuoteAll(argv[1..])), acc);
  }

  /** A word joined in front of further words. */
  lemma JoinCons(w: string, ws: seq<string>)
    requires ws != []
    ensures Join([w] + ws) == w + (" " + Join(ws))
  {
    var q := [w] + ws;
    assert q[0] == w && q[1..] == ws;
  }

  lemma JoinQuoted(argv: seq<string>)
    requires |argv| >= 2
    ensures Join(QuoteAll(argv)) == Quote(argv[0]) + (" " + Join(QuoteAll(argv[1..])))
  {
    var rest := QuoteAll(argv[1..]);
    assert QuoteAll(argv) == [Quote(argv[0])] + rest;
    JoinCons(Quote(argv[0]), rest);
  }

  /** Reading the joined quoted words from outside quotes, after the words `acc`, completes
      exactly those words. */
  lemma {:induction false} JoinRead(argv: seq<string>, acc: seq<string>)
    ensures ReadsAs(Join(QuoteAll(argv)), acc, acc + argv)
    decreases |argv|
  {
    if argv == [] {
      assert acc + argv == acc;
    } else if |argv| == 1 {
      assert Join(QuoteAll(argv)) == Quote(argv[0]) by {
        assert QuoteAll(argv) == [Quote(argv[0])];
      }
      WordRead(argv[0], acc);
      assert acc + [argv[0]] == acc + argv;
    } else {
      var next := Reader(Out, "", false, acc + [argv[0]]);
      assert Lex(Join(QuoteAll(argv)), Reader(Out, "", false, acc))
          == Lex(Join(QuoteAll(argv[1..])), next) by {
        JoinStep(argv, acc);
      }
      JoinRead(argv[1..], acc + [argv[0]]);
      assert acc + [argv[0]] + argv[1..] == acc + argv;
    }
  }
}
