/**
  Network interface statistics on Linux: the error counters of `ethtool -S`, the link fields of
  `ethtool`, and the difference between the counters now and at the start of a run.
  The `ethtool` processes themselves are outside the model: their exit code and output text are
  parameters.
 */
module Counters {
  import opened Wrappers
  import opened Text

  /** The driver counters the backend keeps (`LINUX_COUNTER_KEYS`). */
  const LinuxCounterKeys: seq<string> := [
    "rx_crc_errors", "rx_fcs_errors", "rx_errors", "tx_errors",
    "rx_dropped", "tx_dropped", "rx_missed_errors", "rx_length_errors",
    "rx_over_errors", "rx_frame_errors", "rx_fifo_errors"
  ]

  /** The reply of `linux_counters` and `get_counters`: `error` is present only on failure. */
  datatype CounterReading = CounterReading(ok: bool, error: Option<string>, counters: map<string, int>)

  /** The first position of `c` in `s`. */
  function IndexOf(s: string, c: char): (r: Option<nat>)
    ensures r.Some? ==> r.value < |s| && s[r.value] == c
    ensures r.Some? ==> forall i :: 0 <= i < r.value ==> s[i] != c
    ensures r.None? ==> forall i :: 0 <= i < |s| ==> s[i] != c
    decreases |s|
  {
    if s == [] then None
    else if s[0] == c then Some(0)
    else
      match IndexOf(s[1..], c)
      case None => None
      case Some(i) => Some(i + 1)
  }

  /**
    One line of `ethtool -S` output: split at the first ':', both sides stripped; kept when the
    name is one of the counters and the value reads as an `int`.
   */
  function ParseCounterLine(line: string): (r: Option<(string, int)>)
    ensures r.Some? ==> r.value.0 in LinuxCounterKeys
    ensures r.Some? ==> IndexOf(line, ':').Some?
  {
    match IndexOf(line, ':')
    case None => None
    case Some(c) =>
      var k := Strip(line[..c]);
      var v := Strip(line[c + 1..]);
      if k in LinuxCounterKeys then
        match ParseInt(v)
        case Some(n) => Some((k, n))
        case None => None
      else None
  }

  /** The parsed lines, in order. */
  function ParseLines(lines: seq<string>): (entries: seq<Option<(string, int)>>)
    ensures |entries| == |lines|
    ensures forall i :: 0 <= i < |lines| ==> entries[i] == ParseCounterLine(lines[i])
  {
    seq(|lines|, i requires 0 <= i < |lines| => ParseCounterLine(lines[i]))
  }

  /** The map a sequence of parsed entries fills: a later entry overwrites an earlier one. */
  function Collect(entries: seq<Option<(string, int)>>): map<string, int>
    decreases |entries|
  {
    if entries == [] then map[]
    else
      var m := Collect(entries[..|entries| - 1]);
      match entries[|entries| - 1]
      case Some(kv) => m[kv.0 := kv.1]
      case None => m
  }

  /** The counters the lines of `ethtool -S` output yield. */
  function CountersOf(lines: seq<string>): map<string, int>
  {
    Collect(ParseLines(lines))
  }

  /** One more line read. */
  lemma CountersOfStep(lines: seq<string>, i: nat)
    requires i < |lines|
    ensures ParseCounterLine(lines[i]).Some? ==>
      CountersOf(lines[..i + 1]) == CountersOf(lines[..i])[ParseCounterLine(lines[i]).value.0 := ParseCounterLine(lines[i]).value.1]
    ensures ParseCounterLine(lines[i]).None? ==> CountersOf(lines[..i + 1]) == CountersOf(lines[..i])
  {
    assert ParseLines(lines[..i + 1]) == ParseLines(lines[..i]) + [ParseCounterLine(lines[i])];
    CollectSnoc(ParseLines(lines[..i]), ParseCounterLine(lines[i]));
  }

  /** One more entry: it sets its key, or changes nothing. */
  lemma CollectSnoc(init: seq<Option<(string, int)>>, x: Option<(string, int)>)
    ensures x.Some? ==> Collect(init + [x]) == Collect(init)[x.value.0 := x.value.1]
    ensures x.None? ==> Collect(init + [x]) == Collect(init)
  {
    assert (init + [x])[..|init|] == init;
  }

  /** `linux_counters` once `ethtool -S` has exited with `code` and printed `out`. */
  method LinuxCounters(code: int, out: string) returns (r: CounterReading)
    ensures code != 0 ==> r == CounterReading(false, Some(out), map[])
    ensures code == 0 ==> r == CounterReading(true, None, CountersOf(SplitLines(out)))
  {
    if code != 0 {
      return CounterReading(false, Some(out), map[]);
    }
    var counters: map<string, int> := map[];
    var lines := SplitLines(out);
    var i := 0;
    while i < |lines|
      invariant 0 <= i <= |lines|
      invariant counters == CountersOf(lines[..i])
    {
      CountersOfStep(lines, i);
      match ParseCounterLine(lines[i]) {
        case Some(kv) => counters := counters[kv.0 := kv.1];
        case None =>
      }
      i := i + 1;
    }
    assert lines[..i] == lines;
    r := CounterReading(true, None, counters);
  }

  /** Whether entry `i` sets counter `k`. */
  predicate Sets(entries: seq<Option<(string, int)>>, i: int, k: string)
    requires 0 <= i < |entries|
  {
    entries[i].Some? && entries[i].value.0 == k
  }

  /** A key is present exactly when some entry sets it, and its value is the one the last such
      entry gives. */
  lemma {:induction false} CollectLastWins(entries: seq<Option<(string, int)>>, k: string)
    ensures k in Collect(entries) <==> exists i :: 0 <= i < |entries| && Sets(entries, i, k)
    ensures k in Collect(entries) ==>
      exists i :: 0 <= i < |entries| && entries[i] == Some((k, Collect(entries)[k]))
               && forall j :: i < j < |entries| ==> !Sets(entries, j, k)
    decreases |entries|
  {
    if entries != [] {
      var n := |entries| - 1;
      var init := entries[..n];
      CollectLastWins(init, k);
      assert forall i :: 0 <= i < n ==> init[i] == entries[i];
      assert forall i :: 0 <= i < n ==> (Sets(init, i, k) <==> Sets(entries, i, k));
      if !Sets(entries, n, k) && k in Collect(entries) {
        var i :| 0 <= i < n && init[i] == Some((k, Collect(init)[k]))
                 && forall j :: i < j < n ==> !Sets(init, j, k);
        assert Sets(entries, i, k);
      }
    }
  }

  /** Every key collected comes from some entry. */
  lemma {:induction false} CollectKeysFromEntries(entries: seq<Option<(string, int)>>)
    ensures forall k :: k in Collect(entries) ==>
      exists i :: 0 <= i < |entries| && entries[i].Some? && entries[i].value.0 == k
    decreases |entries|
  {
    if entries != [] {
      var n := |entries| - 1;
      CollectKeysFromEntries(entries[..n]);
      assert forall i :: 0 <= i < n ==> entries[..n][i] == entries[i];
    }
  }

  /** Only whitelisted counters are ever kept. */
  lemma CountersWhitelisted(lines: seq<string>)
    ensures forall k :: k in CountersOf(lines) ==> k in LinuxCounterKeys
  {
    CollectKeysFromEntries(ParseLines(lines));
  }

  /** The first ':' of a line whose text before it has none. */
  lemma FirstColon(pre: string, post: string)
    requires forall i :: 0 <= i < |pre| ==> pre[i] != ':'
    ensures IndexOf(pre + ":" + post, ':') == Some(|pre|)
  {
    var line := pre + ":" + post;
    assert line[|pre|] == ':';
    assert forall i :: 0 <= i < |pre| ==> line[i] == pre[i];
  }

  /** A counter line as `ethtool -S` prints it, indented, reads back as its name and value. */
  lemma ParseCounterLineRoundTrip(indent: string, key: string, n: int)
    requires AllSpace(indent) && key in LinuxCounterKeys
    ensures ParseCounterLine(indent + key + ": " + IntToString(n)) == Some((key, n))
  {
    var d := IntToString(n);
    var line := indent + key + ": " + d;
    var pre := indent + key;
    KeysHaveNoColonOrSpace(key);
    assert forall i :: 0 <= i < |pre| ==> pre[i] != ':' by {
      forall i | 0 <= i < |pre| ensures pre[i] != ':' {
        if i >= |indent| {
          assert pre[i] == key[i - |indent|];
        }
      }
    }
    assert line == pre + ":" + (" " + d);
    FirstColon(pre, " " + d);
    var c := |pre|;
    assert Strip(line[..c]) == key by {
      assert line[..c] == indent + key + "";
      StripPadded(indent, key, "");
    }
    assert line[c + 1..] == " " + d;
    SpacedIntReadsBack(n);
  }

  /** The value after the colon, with its leading space, reads back as the number. */
  lemma SpacedIntReadsBack(n: int)
    ensures ParseInt(Strip(" " + IntToString(n))) == Some(n)
  {
    var d := IntToString(n);
    assert Strip(" " + d) == d by {
      assert d[0] == '-' || IsDigit(d[0]);
      assert d[|d| - 1] != ' ';
      assert " " + d == " " + d + "";
      StripPadded(" ", d, "");
    }
    ParseIntOfIntToString(n);
  }

  lemma KeysHaveNoColonOrSpace(key: string)
    requires key in LinuxCounterKeys
    ensures |key| > 0 && !IsSpace(key[0]) && !IsSpace(key[|key| - 1])
    ensures forall i :: 0 <= i < |key| ==> key[i] != ':'
  {
  }

  // ----- the baseline delta -----

  /** The change of each current counter since the baseline: the delta has the current
      counters' keys, the baseline plus the delta gives the current value of every counter the
      baseline has, and a counter it lacks has delta 0. */
  function Delta(now: map<string, int>, baseline: map<string, int>): (d: map<string, int>)
    ensures d.Keys == now.Keys
    ensures forall k :: k in now && k in baseline ==> baseline[k] + d[k] == now[k]
    ensures forall k :: k in now && k !in baseline ==> d[k] == 0
  {
    map k | k in now :: now[k] - (if k in baseline then baseline[k] else now[k])
  }

  /** The `delta` loop of `api_stats`, over the counters of a reading. */
  method ComputeDelta(reading: CounterReading, baseline: map<string, int>) returns (delta: map<string, int>)
    ensures !reading.ok ==> delta == map[]
    ensures reading.ok ==> delta == Delta(reading.counters, baseline)
  {
    delta := map[];
    if !reading.ok {
      return;
    }
    var now := reading.counters;
    var todo := now.Keys;
    while todo != {}
      invariant todo <= now.Keys
      invariant forall k :: k in delta <==> k in now && k !in todo
      invariant forall k :: k in delta ==> delta[k] == Delta(now, baseline)[k]
      decreases |todo|
    {
      var k :| k in todo;
      var base := if k in baseline then baseline[k] else now[k];
      delta := delta[k := now[k] - base];
      todo := todo - {k};
    }
  }

  /** Measured against itself, nothing has changed. */
  lemma DeltaOfSelf(now: map<string, int>)
    ensures forall k :: k in now ==> Delta(now, now)[k] == 0
  {
  }

  /** Counters that only grow give no negative delta. */
  lemma DeltaNonNegative(now: map<string, int>, baseline: map<string, int>)
    requires forall k :: k in now && k in baseline ==> baseline[k] <= now[k]
    ensures forall k :: k in Delta(now, baseline) ==> Delta(now, baseline)[k] >= 0
  {
  }

  // ----- link fields of `ethtool` -----

  /** `^` in multi-line mode: the start of the text or just after a '\n'. */
  predicate IsLineStart(s: string, p: nat)
  {
    p <= |s| && (p == 0 || s[p - 1] == '\n')
  }

  predicate IsBlank(c: char)
  {
    c == ' ' || c == '\t'
  }

  predicate AllBlank(s: string)
  {
    forall i :: 0 <= i < |s| ==> IsBlank(s[i])
  }

  predicate NoNewline(s: string)
  {
    forall i :: 0 <= i < |s| ==> s[i] != '\n'
  }

  /** End of the run of spaces and tabs starting at `i`. */
  function BlankRun(s: string, i: nat): (j: nat)
    requires i <= |s|
    ensures i <= j <= |s|
    ensures AllBlank(s[i..j])
    ensures j == |s| || !IsBlank(s[j])
    decreases |s| - i
  {
    if i < |s| && IsBlank(s[i]) then
      var j := BlankRun(s, i + 1);
      assert s[i..j] == [s[i]] + s[i + 1..j];
      j
    else i
  }

  /** A run of spaces and tabs that cannot be extended is the whole run. */
  lemma {:induction false} BlankRunEnds(s: string, i: nat, j: nat)
    requires i <= j <= |s| && AllBlank(s[i..j]) && (j == |s| || !IsBlank(s[j]))
    ensures BlankRun(s, i) == j
    decreases j - i
  {
    if i < j {
      assert s[i] == s[i..j][0];
      assert s[i + 1..j] == s[i..j][1..];
      BlankRunEnds(s, i + 1, j);
    }
  }

  /** End of the line that holds position `i`: the next '\n', which `.` does not match. */
  function NewlineEnd(s: string, i: nat): (j: nat)
    requires i <= |s|
    ensures i <= j <= |s|
    ensures NoNewline(s[i..j])
    ensures j == |s| || s[j] == '\n'
    decreases |s| - i
  {
    if i < |s| && s[i] != '\n' then
      var j := NewlineEnd(s, i + 1);
      assert s[i..j] == [s[i]] + s[i + 1..j];
      j
    else i
  }

  /** A stretch without line breaks up to a line break or the end is the rest of the line. */
  lemma {:induction false} NewlineEndEnds(s: string, i: nat, j: nat)
    requires i <= j <= |s| && NoNewline(s[i..j]) && (j == |s| || s[j] == '\n')
    ensures NewlineEnd(s, i) == j
    decreases j - i
  {
    if i < j {
      assert s[i] == s[i..j][0];
      assert s[i + 1..j] == s[i..j][1..];
      NewlineEndEnds(s, i + 1, j);
    }
  }

  /** Where `key:` ends when the line starting at `p` opens with it; `indented` lets spaces and
      tabs come first. */
  function KeyAt(s: string, key: string, p: nat, indented: bool): (r: Option<nat>)
    requires p <= |s|
    ensures r.Some? ==> r.value <= |s|
  {
    if !IsLineStart(s, p) then None
    else
      var b := if indented then BlankRun(s, p) else p;
      if key + ":" <= s[b..] then Some(b + |key| + 1) else None
  }

  /** The first line at or after `p` that opens with `key:`. */
  function FindKeyLine(s: string, key: string, p: nat, indented: bool): (r: Option<nat>)
    requires p <= |s|
    ensures r.Some? ==> p <= r.value <= |s| && KeyAt(s, key, r.value, indented).Some?
    ensures r.Some? ==> forall q :: p <= q < r.value ==> KeyAt(s, key, q, indented).None?
    ensures r.None? ==> forall q :: p <= q <= |s| ==> KeyAt(s, key, q, indented).None?
    decreases |s| - p
  {
    if KeyAt(s, key, p, indented).Some? then Some(p)
    else if p == |s| then None
    else FindKeyLine(s, key, p + 1, indented)
  }

  /** The search `^key:\s*(.*)$` in multi-line mode, the group stripped, or "" without a match.
      `\s*` may run over line ends; `(.*)` then takes the rest of that line. */
  function GrabWith(out: string, key: string, indented: bool): string
  {
    match FindKeyLine(out, key, 0, indented)
    case None => ""
    case Some(p) =>
      var w := SpaceRun(out, KeyAt(out, key, p, indented).value);
      Strip(out[w..NewlineEnd(out, w)])
  }

  /** `grab(key)` as written: the key must stand at the very start of a line. */
  function GrabAsWritten(out: string, key: string): string
  {
    GrabWith(out, key, false)
  }

  /** `grab(key)` as evidently intended, `^[ \t]*key:`, for `ethtool`'s tab-indented fields. */
  function Grab(out: string, key: string): string
  {
    GrabWith(out, key, true)
  }

  /**
    A field is read back from the first line that opens with its key: that line starts at `p`,
    the key at `b` (after spaces and tabs when `indented`, at `p` otherwise), whitespace follows
    its colon up to `w`, and the value runs from `w` to the end `e` of the line, starting and
    ending with a non-whitespace character. No line before `p` opens with the key.
   */
  lemma GrabField(out: string, key: string, indented: bool, p: nat, b: nat, w: nat, e: nat)
    requires IsLineStart(out, p) && p <= b < |out| && AllBlank(out[p..b]) && (!indented ==> b == p)
    requires forall q :: 0 <= q < p ==> KeyAt(out, key, q, indented).None?
    requires |key| > 0 && !IsBlank(key[0]) && key + ":" <= out[b..]
    requires b + |key| + 1 <= w < e <= |out|
    requires AllSpace(out[b + |key| + 1..w])
    requires !IsSpace(out[w]) && !IsSpace(out[e - 1])
    requires NoNewline(out[w..e]) && (e == |out| || out[e] == '\n')
    ensures GrabWith(out, key, indented) == out[w..e]
  {
    var k := b + |key| + 1;
    assert FindKeyLine(out, key, 0, indented) == Some(p) && KeyAt(out, key, p, indented) == Some(k) by {
      KeyOnLine(out, key, indented, p, b);
    }
    assert SpaceRun(out, k) == w && NewlineEnd(out, w) == e && Strip(out[w..e]) == out[w..e] by {
      ValueOnLine(out, k, w, e);
    }
    GrabOfLine(out, key, indented, p, k, w, e);
  }

  /** A key after the leading blanks of a line, with no earlier line opening with it, is found
      on that line. */
  lemma KeyOnLine(out: string, key: string, indented: bool, p: nat, b: nat)
    requires IsLineStart(out, p) && p <= b < |out| && AllBlank(out[p..b]) && (!indented ==> b == p)
    requires forall q :: 0 <= q < p ==> KeyAt(out, key, q, indented).None?
    requires |key| > 0 && !IsBlank(key[0]) && key + ":" <= out[b..]
    ensures FindKeyLine(out, key, 0, indented) == Some(p)
    ensures KeyAt(out, key, p, indented) == Some(b + |key| + 1)
  {
    if indented {
      assert out[b] == key[0];
      BlankRunEnds(out, p, b);
    }
    FindKeyLineAt(out, key, 0, p, indented);
  }

  /** The search finds the first line that opens with the key. */
  lemma {:induction false} FindKeyLineAt(s: string, key: string, p0: nat, p: nat, indented: bool)
    requires p0 <= p <= |s| && KeyAt(s, key, p, indented).Some?
    requires forall q :: p0 <= q < p ==> KeyAt(s, key, q, indented).None?
    ensures FindKeyLine(s, key, p0, indented) == Some(p)
    decreases p - p0
  {
    if p0 < p {
      FindKeyLineAt(s, key, p0 + 1, p, indented);
    }
  }

  /** After `k`, whitespace up to `w` and then a value up to the end `e` of the line that starts
      and ends with a non-whitespace character: the value is read whole. */
  lemma ValueOnLine(out: string, k: nat, w: nat, e: nat)
    requires k <= w < e <= |out| && AllSpace(out[k..w])
    requires !IsSpace(out[w]) && !IsSpace(out[e - 1])
    requires NoNewline(out[w..e]) && (e == |out| || out[e] == '\n')
    ensures SpaceRun(out, k) == w && NewlineEnd(out, w) == e && Strip(out[w..e]) == out[w..e]
  {
    SpaceRunEnds(out, k, w);
    NewlineEndEnds(out, w, e);
    StripUnchanged(out[w..e]);
  }

  /** What `GrabWith` reads once the key is known to end at `k` on the line found at `p`, the
      whitespace after it at `w` and the line at `e`, and stripping leaves the value as it is. */
  lemma GrabOfLine(out: string, key: string, indented: bool, p: nat, k: nat, w: nat, e: nat)
    requires p <= |out| && FindKeyLine(out, key, 0, indented) == Some(p)
    requires KeyAt(out, key, p, indented) == Some(k)
    requires k <= |out| && SpaceRun(out, k) == w
    requires NewlineEnd(out, w) == e && Strip(out[w..e]) == out[w..e]
    ensures GrabWith(out, key, indented) == out[w..e]
  {
  }

  /** Without a line that opens with `key:`, the pattern as written finds nothing. */
  lemma GrabAsWrittenNoLine(out: string, key: string)
    requires forall p :: 0 <= p <= |out| && IsLineStart(out, p) ==> !(key + ":" <= out[p..])
    ensures GrabAsWritten(out, key) == ""
  {
    assert FindKeyLine(out, key, 0, false).None?;
  }

  /** `ethtool` prints each field after a tab, as in "\tSpeed: 1000Mb/s": the pattern as
      written misses such a line, the indented pattern reads its value. */
  lemma TabIndentedField(key: string, value: string)
    requires |key| > 0 && !IsBlank(key[0])
    requires forall i :: 0 <= i < |key| ==> key[i] != '\n'
    requires |value| > 0 && !IsSpace(value[0]) && !IsSpace(value[|value| - 1])
    requires forall i :: 0 <= i < |value| ==> value[i] != '\n'
    ensures GrabAsWritten("\t" + key + ": " + value, key) == ""
    ensures Grab("\t" + key + ": " + value, key) == value
  {
    var out := "\t" + key + ": " + value;
    var w := |key| + 3;
    assert forall i :: w <= i < |out| ==> out[i] == value[i - w];
    forall q | 0 <= q < |out| ensures out[q] != '\n' {
      if 1 <= q < |key| + 1 {
        assert out[q] == key[q - 1];
      }
    }
    forall q | 0 <= q <= |out| && IsLineStart(out, q) ensures !(key + ":" <= out[q..]) {
      if q == 0 {
        assert out[0] == '\t';
      }
    }
    GrabAsWrittenNoLine(out, key);
    assert out[1..] == key + ":" + " " + value;
    assert out[..1] == "\t" && out[|key| + 2..w] == " ";
    assert out[w..|out|] == value;
    GrabField(out, key, true, 0, 1, w, |out|);
    assert out[w..] == value;
  }

  /**
    The same below a heading line, as `ethtool` prints it ("Settings for eth0:" and then
    "\tSpeed: 1000Mb/s"): the pattern as written finds no field, the indented pattern reads the
    value, provided the heading does not itself contain `key:`.
   */
  lemma HeadedTabIndentedField(header: string, key: string, value: string)
    requires NoNewline(header) && !IsInfix(key + ":", header)
    requires |key| > 0 && !IsBlank(key[0])
    requires forall i :: 0 <= i < |key| ==> key[i] != '\n'
    requires |value| > 0 && !IsSpace(value[0]) && !IsSpace(value[|value| - 1])
    requires forall i :: 0 <= i < |value| ==> value[i] != '\n'
    ensures GrabAsWritten(header + "\n\t" + key + ": " + value, key) == ""
    ensures Grab(header + "\n\t" + key + ": " + value, key) == value
  {
    HeadedAsWrittenMisses(header, key, value);
    HeadedIndentedReads(header, key, value);
  }

  lemma HeadedAsWrittenMisses(header: string, key: string, value: string)
    requires NoNewline(header) && !IsInfix(key + ":", header)
    requires |key| > 0 && !IsBlank(key[0])
    requires forall i :: 0 <= i < |key| ==> key[i] != '\n'
    requires |value| > 0 && !IsSpace(value[0]) && !IsSpace(value[|value| - 1])
    requires forall i :: 0 <= i < |value| ==> value[i] != '\n'
    ensures GrabAsWritten(header + "\n\t" + key + ": " + value, key) == ""
  {
    var out := header + "\n\t" + key + ": " + value;
    var h := |header|;
    HeadedLayout(header, key, value);
    HeadingHasNoKey(out, header, key, false);
    forall q | 0 <= q <= |out| && IsLineStart(out, q) ensures !(key + ":" <= out[q..]) {
      if q == 0 {
        assert KeyAt(out, key, 0, false).None?;
      } else if q == h + 1 {
        assert out[q] == '\t';
      }
    }
    GrabAsWrittenNoLine(out, key);
  }

  lemma HeadedIndentedReads(header: string, key: string, value: string)
    requires NoNewline(header) && !IsInfix(key + ":", header)
    requires |key| > 0 && !IsBlank(key[0])
    requires forall i :: 0 <= i < |key| ==> key[i] != '\n'
    requires |value| > 0 && !IsSpace(value[0]) && !IsSpace(value[|value| - 1])
    requires forall i :: 0 <= i < |value| ==> value[i] != '\n'
    ensures Grab(header + "\n\t" + key + ": " + value, key) == value
  {
    var out := header + "\n\t" + key + ": " + value;
    var h := |header|;
    FieldLineLayout(header + "\n\t", key, value);
    HeadedLayout(header, key, value);
    assert out[h + 1..h + 2] == "\t";
    IndentedFieldAfterHeading(out, header, key, value, h + |key| + 4);
  }

  /** The same on any text laid out as a heading line, then a tab and `key: value`. */
  lemma IndentedFieldAfterHeading(out: string, header: string, key: string, value: string, w: nat)
    requires NoNewline(header) && !IsInfix(key + ":", header)
    requires |key| > 0 && !IsBlank(key[0]) && forall i :: 0 <= i < |key| ==> key[i] != '\n'
    requires |value| > 0 && !IsSpace(value[0]) && !IsSpace(value[|value| - 1])
    requires forall i :: 0 <= i < |value| ==> value[i] != '\n'
    requires w == |header| + |key| + 4 && w <= |out|
    requires out[..|header|] == header && out[|header|] == '\n' && out[|header| + 1..|header| + 2] == "\t"
    requires forall q :: 0 < q <= |header| ==> !IsLineStart(out, q)
    requires key + ":" <= out[|header| + 2..] && out[w - 1..w] == " " && out[w..|out|] == value
    ensures Grab(out, key) == value
  {
    var h := |header|;
    HeadingHasNoKey(out, header, key, true);
    assert out[w] == value[0] && out[|out| - 1] == value[|value| - 1];
    GrabField(out, key, true, h + 1, h + 2, w, |out|);
  }

  /** Where the parts of `pre + key + ": " + value` sit. */
  lemma FieldLineLayout(pre: string, key: string, value: string)
    ensures var out := pre + key + ": " + value;
      var k := |pre| + |key|;
      && out[..|pre|] == pre && key + ":" <= out[|pre|..] && out[k + 1..k + 2] == " "
      && out[k + 2..] == value && out[k + 2..|out|] == value
  {
    var a := pre + key;
    var b := a + ": ";
    var out := b + value;
    var k := |pre| + |key|;
    assert out[..|b|] == b && out[|b|..] == value;
    assert b[..|a|] == a && b[|a|] == ':' && b[|a| + 1] == ' ';
    assert a[..|pre|] == pre && a[|pre|..] == key;
    assert out[|pre|..][..|key| + 1] == key + ":";
  }

  /** Where the characters of a headed field line sit. */
  lemma HeadedLayout(header: string, key: string, value: string)
    requires NoNewline(header)
    requires forall i :: 0 <= i < |key| ==> key[i] != '\n'
    requires forall i :: 0 <= i < |value| ==> value[i] != '\n'
    ensures var out := header + "\n\t" + key + ": " + value;
      && out[..|header|] == header && out[|header|] == '\n' && out[|header| + 1] == '\t'
      && (forall q :: 0 < q <= |header| || |header| + 1 < q <= |out| ==> !IsLineStart(out, q))
  {
    var out := header + "\n\t" + key + ": " + value;
    var h := |header|;
    forall q | h + 1 <= q < |out| ensures out[q] != '\n' {
      if h + 2 <= q < h + 2 + |key| {
        assert out[q] == key[q - h - 2];
      } else if h + |key| + 4 <= q {
        assert out[q] == value[q - h - |key| - 4];
      }
    }
    assert forall q :: 0 <= q < h ==> out[q] == header[q];
  }

  /** No line start in the heading opens with `key:`. */
  lemma HeadingHasNoKey(out: string, header: string, key: string, indented: bool)
    requires NoNewline(header) && !IsInfix(key + ":", header)
    requires |key| > 0 && forall i :: 0 <= i < |key| ==> key[i] != '\n'
    requires |header| + 1 < |out| && out[..|header|] == header && out[|header|] == '\n'
    requires forall q :: 0 < q <= |header| ==> !IsLineStart(out, q)
    ensures forall q :: 0 <= q <= |header| ==> KeyAt(out, key, q, indented).None?
  {
    forall q | 0 <= q <= |header| ensures KeyAt(out, key, q, indented).None? {
      if q == 0 {
        HeadingStartHasNoKey(out, header, key, indented);
      }
    }
  }

  lemma HeadingStartHasNoKey(out: string, header: string, key: string, indented: bool)
    requires NoNewline(header) && !IsInfix(key + ":", header)
    requires |key| > 0 && forall i :: 0 <= i < |key| ==> key[i] != '\n'
    requires |header| + 1 < |out| && out[..|header|] == header && out[|header|] == '\n'
    ensures KeyAt(out, key, 0, indented).None?
  {
    var h := |header|;
    var k := key + ":";
    BlankRunStopsAtNewline(out, 0, h);
    var b := if indented then BlankRun(out, 0) else 0;
    assert !(k <= out[b..]) by {
      if b + |k| <= h {
        NotInfixAt(k, header, b);
        assert out[b..b + |k|] == header[b..b + |k|];
        assert out[b..][..|k|] == out[b..b + |k|];
      } else {
        assert k[h - b] != '\n';
        assert out[b..][h - b] == '\n';
      }
    }
  }

  /** A run of blanks stops at a line break. */
  lemma {:induction false} BlankRunStopsAtNewline(s: string, i: nat, h: nat)
    requires i <= h < |s| && s[h] == '\n'
    ensures BlankRun(s, i) <= h
    decreases h - i
  {
    if i < h && IsBlank(s[i]) {
      BlankRunStopsAtNewline(s, i + 1, h);
    }
  }

  /** The link fields `linux_link_info` reports. */
  datatype LinkInfo = LinkFailed(error: string) | Link(speed: string, duplex: string, link: string, auto: string)

  /** `linux_link_info` once `ethtool` has exited with `code` and printed `out`, with the
      corrected field pattern. */
  function LinuxLinkInfo(code: int, out: string): (r: LinkInfo)
    ensures code != 0 <==> r == LinkFailed(out)
    ensures r.Link? ==> (r.speed == Grab(out, "Speed") && r.duplex == Grab(out, "Duplex")
                         && r.link == Grab(out, "Link detected") && r.auto == Grab(out, "Auto-negotiation"))
  {
    if code != 0 then LinkFailed(out)
    else Link(Grab(out, "Speed"), Grab(out, "Duplex"), Grab(out, "Link detected"), Grab(out, "Auto-negotiation"))
  }

  /** `get_link_info` on Linux: no `ethtool` call without an interface name. */
  function GetLinkInfo(iface: string, code: int, out: string): (r: LinkInfo)
    ensures iface == "" ==> r == LinkFailed("no iface")
    ensures iface != "" ==> r == LinuxLinkInfo(code, out)
  {
    if iface == "" then LinkFailed("no iface") else LinuxLinkInfo(code, out)
  }

  /** `get_counters` on Linux: no `ethtool -S` call without an interface name. */
  method GetCounters(iface: string, code: int, out: string) returns (r: CounterReading)
    ensures iface == "" ==> r == CounterReading(false, Some("no iface"), map[])
    ensures iface != "" && code != 0 ==> r == CounterReading(false, Some(out), map[])
    ensures iface != "" && code == 0 ==> r == CounterReading(true, None, CountersOf(SplitLines(out)))
  {
    if iface == "" {
      return CounterReading(false, Some("no iface"), map[]);
    }
    r := LinuxCounters(code, out);
  }
}
