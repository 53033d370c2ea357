/**
  The string operations of CPython that the backend relies on: `str.isspace`, `str.strip`,
  `str.lower`, `in`, `str.splitlines`, `str(int)` and `int(str)`. Characters outside ASCII are
  handled only where noted; case folding is ASCII-only.
 */
module Text {
  import opened Wrappers

  /** `str.isspace()` on a single character: the ASCII whitespace, the separators U+001C..U+001F,
      NEL, the no-break space, and the wider Unicode spaces. The regular-expression class `\s`
      uses the same set. */
  predicate IsSpace(c: char)
  {
    || c == ' ' || ('\t' <= c <= '\r') || ('\U{1C}' <= c <= '\U{1F}') || c == '\U{85}' || c == '\U{A0}'
    || ('\U{1680}' <= c && IsWideSpace(c))
  }

  /** The whitespace above Latin-1: the Ogham space mark, the spaces U+2000..U+200A, the line
      and paragraph separators, and the narrow, mathematical and ideographic spaces. */
  predicate IsWideSpace(c: char)
  {
    || c == '\U{1680}' || ('\U{2000}' <= c <= '\U{200A}') || c == '\U{2028}' || c == '\U{2029}'
    || c == '\U{202F}' || c == '\U{205F}' || c == '\U{3000}'
  }

  predicate IsDigit(c: char)
  {
    '0' <= c <= '9'
  }

  predicate AllDigits(s: string)
  {
    forall i :: 0 <= i < |s| ==> IsDigit(s[i])
  }

  predicate AllSpace(s: string)
  {
    forall i :: 0 <= i < |s| ==> IsSpace(s[i])
  }

  /** ASCII `str.lower()` of one character. */
  function Lower(c: char): char
  {
    if 'A' <= c <= 'Z' then (c as int + 32) as char else c
  }

  function LowerStr(s: string): (r: string)
    ensures |r| == |s|
    ensures forall i :: 0 <= i < |s| ==> r[i] == Lower(s[i])
  {
    seq(|s|, i requires 0 <= i < |s| => Lower(s[i]))
  }

  /** `sub in s` for strings. */
  predicate IsInfix(sub: string, s: string)
    ensures IsInfix(sub, s) ==> |sub| <= |s|
    decreases |s|
  {
    sub <= s || (|s| > 0 && IsInfix(sub, s[1..]))
  }

  /** `sub in s` when `sub` occurs at position `i`. */
  lemma {:induction false} InfixAt(sub: string, s: string, i: nat)
    requires i + |sub| <= |s| && s[i..i + |sub|] == sub
    ensures IsInfix(sub, s)
    decreases i
  {
    if i == 0 {
      assert sub <= s;
    } else {
      assert s[1..][i - 1..i - 1 + |sub|] == sub;
      InfixAt(sub, s[1..], i - 1);
    }
  }

  /** Where `sub` first occurs in `s`, which `sub in s` says it does: so `in` holds only for a
      text that occurs at some position. */
  function InfixPosition(sub: string, s: string): (i: nat)
    requires IsInfix(sub, s)
    ensures i + |sub| <= |s| && s[i..i + |sub|] == sub
    decreases |s|
  {
    if sub <= s then
      assert s[0..|sub|] == sub;
      0
    else
      var i := InfixPosition(sub, s[1..]);
      assert s[i + 1..i + 1 + |sub|] == s[1..][i..i + |sub|];
      i + 1
  }

  /** A text that is no infix of `s` is at no position of it. */
  lemma NotInfixAt(sub: string, s: string, i: nat)
    requires !IsInfix(sub, s) && i + |sub| <= |s|
    ensures s[i..i + |sub|] != sub
  {
    if s[i..i + |sub|] == sub {
      InfixAt(sub, s, i);
    }
  }

  function StripLeft(s: string): (r: string)
    ensures |r| <= |s| && r == s[|s| - |r|..]
    ensures r == [] || !IsSpace(r[0])
    ensures forall i :: 0 <= i < |s| - |r| ==> IsSpace(s[i])
    decreases |s|
  {
    if |s| > 0 && IsSpace(s[0]) then
      var r := StripLeft(s[1..]);
      assert forall i :: 1 <= i < |s| - |r| ==> s[i] == s[1..][i - 1];
      r
    else s
  }

  function StripRight(s: string): (r: string)
    ensures |r| <= |s| && r == s[..|r|]
    ensures r == [] || !IsSpace(r[|r| - 1])
    ensures forall i :: |r| <= i < |s| ==> IsSpace(s[i])
    decreases |s|
  {
    if |s| > 0 && IsSpace(s[|s| - 1]) then StripRight(s[..|s| - 1]) else s
  }

  /** `str.strip()`: the longest infix that neither starts nor ends with whitespace. */
  function Strip(s: string): (r: string)
    ensures r == [] || (!IsSpace(r[0]) && !IsSpace(r[|r| - 1]))
    ensures |r| <= |s|
  {
    StripRight(StripLeft(s))
  }

  lemma StripUnchanged(s: string)
    requires s == [] || (!IsSpace(s[0]) && !IsSpace(s[|s| - 1]))
    ensures Strip(s) == s
  {
  }

  /** Whitespace before a text that does not start with whitespace is all `StripLeft` removes. */
  lemma {:induction false} StripLeftPadded(pre: string, u: string)
    requires AllSpace(pre) && (u == [] || !IsSpace(u[0]))
    ensures StripLeft(pre + u) == u
    decreases |pre|
  {
    if pre == [] {
      assert pre + u == u;
    } else {
      assert (pre + u)[1..] == pre[1..] + u;
      StripLeftPadded(pre[1..], u);
    }
  }

  /** Whitespace after a text that does not end with whitespace is all `StripRight` removes. */
  lemma {:induction false} StripRightPadded(u: string, post: string)
    requires AllSpace(post) && (u == [] || !IsSpace(u[|u| - 1]))
    ensures StripRight(u + post) == u
    decreases |post|
  {
    if post == [] {
      assert u + post == u;
    } else {
      var s := u + post;
      assert s[..|s| - 1] == u + post[..|post| - 1];
      StripRightPadded(u, post[..|post| - 1]);
    }
  }

  /** Stripping removes exactly the whitespace padding around a text that has none of its own
      at either end. */
  lemma StripPadded(pre: string, t: string, post: string)
    requires AllSpace(pre) && AllSpace(post)
    requires |t| > 0 && !IsSpace(t[0]) && !IsSpace(t[|t| - 1])
    ensures Strip(pre + t + post) == t
  {
    assert pre + t + post == pre + (t + post);
    StripLeftPadded(pre, t + post);
    StripRightPadded(t, post);
  }

  /** Stripping keeps a prefix whose first and last characters are not whitespace. */
  lemma StripKeepsPrefix(p: string, s: string)
    requires |p| > 0 && p <= s && !IsSpace(p[0]) && !IsSpace(p[|p| - 1])
    ensures p <= Strip(s)
  {
    assert StripLeft(s) == s;
  }

  // ----- digit and whitespace runs -----

  /** End of the longest run of digits that starts at `i`. */
  function DigitRun(s: string, i: nat): (j: nat)
    requires i <= |s|
    ensures i <= j <= |s|
    ensures AllDigits(s[i..j])
    ensures j == |s| || !IsDigit(s[j])
    decreases |s| - i
  {
    if i < |s| && IsDigit(s[i]) then
      var j := DigitRun(s, i + 1);
      assert s[i..j] == [s[i]] + s[i + 1..j];
      j
    else i
  }

  /** A run of digits that cannot be extended is the longest one. */
  lemma {:induction false} DigitRunEnds(s: string, i: nat, j: nat)
    requires i <= j <= |s| && AllDigits(s[i..j]) && (j == |s| || !IsDigit(s[j]))
    ensures DigitRun(s, i) == j
    decreases j - i
  {
    if i < j {
      assert s[i] == s[i..j][0];
      assert s[i + 1..j] == s[i..j][1..];
      DigitRunEnds(s, i + 1, j);
    }
  }

  /** End of the longest run of whitespace that starts at `i`. */
  function SpaceRun(s: string, i: nat): (j: nat)
    requires i <= |s|
    ensures i <= j <= |s|
    ensures AllSpace(s[i..j])
    ensures j == |s| || !IsSpace(s[j])
    decreases |s| - i
  {
    if i < |s| && IsSpace(s[i]) then
      var j := SpaceRun(s, i + 1);
      assert s[i..j] == [s[i]] + s[i + 1..j];
      j
    else i
  }

  /** A run of whitespace that cannot be extended is the longest one. */
  lemma {:induction false} SpaceRunEnds(s: string, i: nat, j: nat)
    requires i <= j <= |s| && AllSpace(s[i..j]) && (j == |s| || !IsSpace(s[j]))
    ensures SpaceRun(s, i) == j
    decreases j - i
  {
    if i < j {
      assert s[i] == s[i..j][0];
      assert s[i + 1..j] == s[i..j][1..];
      SpaceRunEnds(s, i + 1, j);
    }
  }

  // ----- numbers -----

  function DigitValue(c: char): nat
    requires IsDigit(c)
  {
    c as int - '0' as int
  }

  /** The value of a string of decimal digits, most significant first. */
  function DigitsValue(d: string): nat
    requires AllDigits(d)
    decreases |d|
  {
    if d == [] then 0 else DigitsValue(d[..|d| - 1]) * 10 + DigitValue(d[|d| - 1])
  }

  function Pow10(n: nat): (r: nat)
    ensures r >= 1
  {
    if n == 0 then 1 else 10 * Pow10(n - 1)
  }

  /** The value of `intPart.fracPart` written in decimal, as `float()` reads it (without rounding). */
  function DecimalValue(intPart: string, fracPart: string): (r: real)
    requires AllDigits(intPart) && AllDigits(fracPart)
    ensures r >= 0.0
  {
    DigitsValue(intPart) as real + DigitsValue(fracPart) as real / Pow10(|fracPart|) as real
  }

  function DigitChar(n: nat): (c: char)
    requires n < 10
    ensures IsDigit(c) && DigitValue(c) == n
  {
    ('0' as int + n) as char
  }

  /** `str(n)` for a non-negative integer: canonical decimal digits that read back as `n`. */
  function NatToString(n: nat): (s: string)
    ensures |s| > 0 && AllDigits(s) && DigitsValue(s) == n
    ensures s[0] == '0' <==> n == 0
    ensures n == 0 ==> s == "0"
    decreases n
  {
    if n < 10 then [DigitChar(n)]
    else
      var p := NatToString(n / 10);
      var s := p + [DigitChar(n % 10)];
      assert s[..|s| - 1] == p;
      s
  }

  /** `str(i)` for any integer. */
  function IntToString(i: int): (s: string)
  {
    if i < 0 then "-" + NatToString(-i) else NatToString(i)
  }

  /** The digit body `int()` accepts: digits, where single underscores may separate two digits. */
  predicate IsGroupedDigits(t: string)
  {
    && |t| > 0
    && IsDigit(t[0])
    && IsDigit(t[|t| - 1])
    && (forall i :: 0 <= i < |t| ==> IsDigit(t[i]) || t[i] == '_')
    && (forall i :: 0 < i < |t| && t[i] == '_' ==> t[i - 1] != '_')
  }

  /** The digits of a grouped digit body, underscores removed. */
  function Ungroup(t: string): (d: string)
    requires forall i :: 0 <= i < |t| ==> IsDigit(t[i]) || t[i] == '_'
    ensures AllDigits(d)
    ensures AllDigits(t) ==> d == t
    decreases |t|
  {
    if t == [] then []
    else
      var rest := Ungroup(t[..|t| - 1]);
      if t[|t| - 1] == '_' then rest else rest + [t[|t| - 1]]
  }

  /** Ungrouping works piece by piece. */
  lemma {:induction false} UngroupAppend(a: string, b: string)
    requires forall i :: 0 <= i < |a| ==> IsDigit(a[i]) || a[i] == '_'
    requires forall i :: 0 <= i < |b| ==> IsDigit(b[i]) || b[i] == '_'
    ensures Ungroup(a + b) == Ungroup(a) + Ungroup(b)
    decreases |b|
  {
    if b == [] {
      assert a + b == a;
    } else {
      var c := a + b;
      var b' := b[..|b| - 1];
      var x := b[|b| - 1];
      var tail := if x == '_' then [] else [x];
      assert c[..|c| - 1] == a + b' && c[|c| - 1] == x;
      assert forall i :: 0 <= i < |c| ==> IsDigit(c[i]) || c[i] == '_';
      assert Ungroup(c) == Ungroup(a + b') + tail;
      assert Ungroup(b) == Ungroup(b') + tail;
      UngroupAppend(a, b');
      assert Ungroup(c) == Ungroup(a) + Ungroup(b') + tail;
    }
  }

  /** An underscore between two groups is dropped and the groups are kept in order. */
  lemma UngroupSeparator(a: string, b: string)
    requires forall i :: 0 <= i < |a| ==> IsDigit(a[i]) || a[i] == '_'
    requires forall i :: 0 <= i < |b| ==> IsDigit(b[i]) || b[i] == '_'
    ensures Ungroup(a + "_" + b) == Ungroup(a) + Ungroup(b)
  {
    UngroupAppend(a, "_");
    assert Ungroup("_") == [] by {
      assert "_"[..0] == [];
    }
    UngroupAppend(a + "_", b);
  }

  /** `int(s)` for a str: optional surrounding whitespace and sign, then a grouped digit body.
      Anything else raises in Python and is `None` here. */
  function ParseInt(s: string): (r: Option<int>)
    ensures Strip(s) == [] ==> r.None?
  {
    var t := Strip(s);
    var signed := |t| > 0 && (t[0] == '-' || t[0] == '+');
    var body := if signed then t[1..] else t;
    if IsGroupedDigits(body) then
      var n: int := DigitsValue(Ungroup(body));
      Some(if signed && t[0] == '-' then -n else n)
    else None
  }

  /** A number printed by `str` is read back by `int`. */
  lemma {:induction false} ParseIntOfIntToString(i: int)
    ensures ParseInt(IntToString(i)) == Some(i)
  {
    var s := IntToString(i);
    var d := NatToString(if i < 0 then -i else i);
    assert d[|d| - 1] != ' ';
    StripUnchanged(s);
    assert IsGroupedDigits(d);
    if i < 0 {
      assert s[1..] == d;
    }
  }

  // ----- lines -----

  /** The characters `str.splitlines()` ends a line at. */
  predicate IsLineBreak(c: char)
  {
    c == '\n' || c == '\r' || c == '\U{0B}' || c == '\U{0C}' || ('\U{1C}' <= c <= '\U{1E}')
    || c == '\U{85}' || c == '\U{2028}' || c == '\U{2029}'
  }

  function LineEnd(s: string, i: nat): (j: nat)
    requires i <= |s|
    ensures i <= j <= |s|
    ensures forall k :: i <= k < j ==> !IsLineBreak(s[k])
    ensures j == |s| || IsLineBreak(s[j])
    decreases |s| - i
  {
    if i < |s| && !IsLineBreak(s[i]) then LineEnd(s, i + 1) else i
  }

  /** `str.splitlines()`: "\r\n" ends one line, a final line break adds no empty line. */
  function SplitLines(s: string): (lines: seq<string>)
    ensures forall n, k :: 0 <= n < |lines| && 0 <= k < |lines[n]| ==> !IsLineBreak(lines[n][k])
    ensures s == [] <==> lines == []
    decreases |s|
  {
    if s == [] then []
    else
      var j := LineEnd(s, 0);
      if j == |s| then [s]
      else
        var next := if s[j] == '\r' && j + 1 < |s| && s[j + 1] == '\n' then j + 2 else j + 1;
        [s[..j]] + SplitLines(s[next..])
  }

  /** A text without line breaks. */
  predicate NoBreak(a: string)
  {
    forall k :: 0 <= k < |a| ==> !IsLineBreak(a[k])
  }

  /** The line that starts at `i` ends at the first break at or after `i`. */
  lemma LineEndAt(s: string, i: nat, j: nat)
    requires i <= j <= |s|
    requires forall k :: i <= k < j ==> !IsLineBreak(s[k])
    requires j == |s| || IsLineBreak(s[j])
    ensures LineEnd(s, i) == j
  {
  }

  /** A non-empty text without line breaks is one line. */
  lemma SplitLinesOne(a: string)
    requires a != [] && NoBreak(a)
    ensures SplitLines(a) == [a]
  {
    LineEndAt(a, 0, |a|);
  }

  /** A line ended by a single line break: the rest is split on its own. */
  lemma SplitLinesCons(a: string, b: char, r: string)
    requires NoBreak(a) && IsLineBreak(b)
    requires !(b == '\r' && r != [] && r[0] == '\n')
    ensures SplitLines(a + [b] + r) == [a] + SplitLines(r)
  {
    var s := a + [b] + r;
    assert forall k :: 0 <= k < |a| ==> s[k] == a[k];
    assert s[|a|] == b;
    LineEndAt(s, 0, |a|);
    assert s[..|a|] == a;
    assert s[|a| + 1..] == r;
  }

  /** A line ended by "\r\n": the pair is one break and the rest is split on its own. */
  lemma SplitLinesCrLf(a: string, r: string)
    requires NoBreak(a)
    ensures SplitLines(a + "\r\n" + r) == [a] + SplitLines(r)
  {
    var s := a + "\r\n" + r;
    assert forall k :: 0 <= k < |a| ==> s[k] == a[k];
    assert s[|a|] == '\r' && s[|a| + 1] == '\n';
    LineEndAt(s, 0, |a|);
    assert s[..|a|] == a;
    assert s[|a| + 2..] == r;
  }
}
