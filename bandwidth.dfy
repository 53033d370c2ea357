/**
  Throughput figures in iperf3's text output and the backend's unit conversion.

  The backend searches a line with the pattern `(\d+(?:\.\d+)?)\s*(K|M|G)bits/sec`, ignoring
  case, and takes the FIRST match. `MatchesAt` says declaratively what a match of that pattern
  is; `MatchAt` is the greedy matcher, proved to find a match exactly when one exists and then
  to find the only one; `Search` is the leftmost-match scan.
 */
module Bandwidth {
  import opened Wrappers
  import opened Text

  /** The display units the backend converts to. */
  datatype Unit = Kbits | Mbits | Gbits

  /** Bits per second in one unit: the factors are exact powers of ten. */
  function Factor(u: Unit): (f: real)
    ensures f >= 1000.0
  {
    match u
    case Kbits => 1000.0
    case Mbits => 1000000.0
    case Gbits => 1000000000.0
  }

  /**
    The unit a request names: `(target or "Mbits").strip()`, kept when it is one of the three
    canonical names, otherwise looked up among the aliases `Kbps`, `Mbps`, `Gbps`, and `Mbits`
    for anything else. The comparison is case-sensitive.
   */
  function NormalizeUnit(target: string): (u: Unit)
    ensures u == Kbits <==> Strip(target) == "Kbits" || Strip(target) == "Kbps"
    ensures u == Gbits <==> Strip(target) == "Gbits" || Strip(target) == "Gbps"
  {
    var t := if target == "" then "Mbits" else Strip(target);
    if t == "Kbits" || t == "Mbits" || t == "Gbits" then
      (if t == "Kbits" then Kbits else if t == "Mbits" then Mbits else Gbits)
    else if t == "Kbps" then Kbits
    else if t == "Gbps" then Gbits
    else Mbits
  }

  /** The prefix letters the pattern accepts, in either case. */
  predicate IsPrefixChar(c: char)
  {
    Lower(c) == 'k' || Lower(c) == 'm' || Lower(c) == 'g'
  }

  function PrefixUnit(c: char): Unit
    requires IsPrefixChar(c)
  {
    if Lower(c) == 'k' then Kbits else if Lower(c) == 'm' then Mbits else Gbits
  }

  /**
    Where one match of the pattern lies in a text: it starts at `at`, the integer digits end at
    `intEnd`, the optional fraction (the point and its digits) ends at `fracEnd`, the whitespace
    ends at `spaceEnd`; the prefix letter and the eight letters of "bits/sec" follow.
   */
  datatype Span = Span(at: nat, intEnd: nat, fracEnd: nat, spaceEnd: nat)

  /** `m.end()`. */
  function End(sp: Span): nat
  {
    sp.spaceEnd + 9
  }

  /** The pattern matches `s` at `sp.at`, with its parts where `sp` puts them: a match starts
      with a digit and ends with the "c" of "bits/sec". */
  predicate MatchesAt(s: string, sp: Span)
    ensures MatchesAt(s, sp) ==>
      sp.at < End(sp) <= |s| && IsDigit(s[sp.at]) && (s[End(sp) - 1] == 'c' || s[End(sp) - 1] == 'C')
  {
    && sp.at < sp.intEnd <= sp.fracEnd <= sp.spaceEnd && End(sp) <= |s|
    && AllDigits(s[sp.at..sp.intEnd])
    && (sp.fracEnd == sp.intEnd
        || (s[sp.intEnd] == '.' && sp.intEnd + 1 < sp.fracEnd && AllDigits(s[sp.intEnd + 1..sp.fracEnd])))
    && AllSpace(s[sp.fracEnd..sp.spaceEnd])
    && UnitAt(s, sp.spaceEnd)
  }

  function IntDigits(s: string, sp: Span): (d: string)
    requires MatchesAt(s, sp)
    ensures AllDigits(d)
  {
    s[sp.at..sp.intEnd]
  }

  function FracDigits(s: string, sp: Span): (d: string)
    requires MatchesAt(s, sp)
    ensures AllDigits(d)
  {
    if sp.fracEnd == sp.intEnd then "" else s[sp.intEnd + 1..sp.fracEnd]
  }

  /** The number the first group captures, as `float()` reads it. */
  function Number(s: string, sp: Span): real
    requires MatchesAt(s, sp)
  {
    DecimalValue(IntDigits(s, sp), FracDigits(s, sp))
  }

  /** The captured figure in bits per second: the number scaled by its prefix letter. */
  function BitsPerSecond(s: string, sp: Span): (r: real)
    requires MatchesAt(s, sp)
    ensures r >= 0.0
  {
    Number(s, sp) * Factor(PrefixUnit(s[sp.spaceEnd]))
  }

  /** Where the optional fraction ends when the integer digits end at `j`. */
  function FracEnd(s: string, j: nat): (k: nat)
    requires j <= |s|
    ensures j <= k <= |s|
    ensures k == j || (s[j] == '.' && j + 1 < k && AllDigits(s[j + 1..k]))
    ensures k == j ==> !(j + 1 < |s| && s[j] == '.' && IsDigit(s[j + 1]))
    ensures k != j ==> k == |s| || !IsDigit(s[k])
  {
    if j + 1 < |s| && s[j] == '.' && IsDigit(s[j + 1]) then DigitRun(s, j + 1) else j
  }

  /** The prefix letter at `w` and the eight letters of "bits/sec" after it, in any case. */
  predicate UnitAt(s: string, w: nat)
  {
    && w + 9 <= |s| && IsPrefixChar(s[w])
    && (s[w + 1] == 'b' || s[w + 1] == 'B') && (s[w + 2] == 'i' || s[w + 2] == 'I') && (s[w + 3] == 't' || s[w + 3] == 'T')
    && (s[w + 4] == 's' || s[w + 4] == 'S') && s[w + 5] == '/' && (s[w + 6] == 's' || s[w + 6] == 'S')
    && (s[w + 7] == 'e' || s[w + 7] == 'E') && (s[w + 8] == 'c' || s[w + 8] == 'C')
  }

  /** The greedy attempt to match at `i`; whatever it returns is a match there. */
  function MatchAt(s: string, i: nat): (r: Option<Span>)
    requires i <= |s|
    ensures r.Some? ==> r.value.at == i && MatchesAt(s, r.value)
  {
    var j := DigitRun(s, i);
    if j == i then None
    else
      var k := FracEnd(s, j);
      var w := SpaceRun(s, k);
      if UnitAt(s, w) then Some(Span(i, j, k, w)) else None
  }

  lemma PrefixNotDigitOrSpace(c: char)
    requires IsPrefixChar(c)
    ensures !IsDigit(c) && !IsSpace(c) && c != '.'
  {
  }

  /** The pattern has at most one match at a position, and the greedy matcher finds it. */
  lemma MatchAtComplete(s: string, sp: Span)
    requires MatchesAt(s, sp)
    ensures MatchAt(s, sp.at) == Some(sp)
  {
    assert !IsDigit(s[sp.spaceEnd]) && !IsSpace(s[sp.spaceEnd]) && s[sp.spaceEnd] != '.' by {
      PrefixNotDigitOrSpace(s[sp.spaceEnd]);
    }
    // what follows the fraction is whitespace or the prefix letter
    assert !IsDigit(s[sp.fracEnd]) && s[sp.fracEnd] != '.' by {
      if sp.fracEnd < sp.spaceEnd {
        assert s[sp.fracEnd] == s[sp.fracEnd..sp.spaceEnd][0];
      }
    }
    assert DigitRun(s, sp.at) == sp.intEnd by {
      DigitRunEnds(s, sp.at, sp.intEnd);
    }
    assert FracEnd(s, sp.intEnd) == sp.fracEnd by {
      if sp.fracEnd != sp.intEnd {
        assert s[sp.intEnd] == '.' && IsDigit(s[sp.intEnd + 1]) by {
          assert s[sp.intEnd + 1] == s[sp.intEnd + 1..sp.fracEnd][0];
        }
        assert DigitRun(s, sp.intEnd + 1) == sp.fracEnd by {
          DigitRunEnds(s, sp.intEnd + 1, sp.fracEnd);
        }
      } else {
        assert s[sp.intEnd] != '.';
      }
    }
    assert SpaceRun(s, sp.fracEnd) == sp.spaceEnd by {
      SpaceRunEnds(s, sp.fracEnd, sp.spaceEnd);
    }
    MatchAtOfRuns(s, sp);
  }

  /** The matcher returns the span its runs end at. */
  lemma MatchAtOfRuns(s: string, sp: Span)
    requires sp.at < sp.intEnd <= |s| && DigitRun(s, sp.at) == sp.intEnd
    requires FracEnd(s, sp.intEnd) == sp.fracEnd && SpaceRun(s, sp.fracEnd) == sp.spaceEnd
    requires UnitAt(s, sp.spaceEnd)
    ensures MatchAt(s, sp.at) == Some(sp)
  {
  }

  /** The matcher's attempts at the positions from `i` to the end of `s`, the end included;
      each success is a match at its own position. */
  function Attempts(s: string, i: nat): (a: seq<Option<Span>>)
    requires i <= |s| + 1
    ensures |a| == |s| + 1 - i
    ensures forall q :: 0 <= q < |a| && a[q].Some? ==> a[q].value.at == i + q && MatchesAt(s, a[q].value)
    decreases |s| + 1 - i
  {
    if i == |s| + 1 then [] else [MatchAt(s, i)] + Attempts(s, i + 1)
  }

  /** A match at `i` is the first attempt from `i`. */
  lemma AttemptHere(s: string, sp: Span)
    requires MatchesAt(s, sp)
    ensures 0 < |Attempts(s, sp.at)| && Attempts(s, sp.at)[0] == Some(sp)
  {
    MatchAtComplete(s, sp);
  }

  /** A match from `i` on is among the attempts' successes, at its own position. */
  lemma {:induction false} AttemptFinds(s: string, i: nat, sp: Span)
    requires MatchesAt(s, sp) && i <= sp.at
    ensures sp.at - i < |Attempts(s, i)| && Attempts(s, i)[sp.at - i] == Some(sp)
    decreases sp.at - i
  {
    if sp.at == i {
      AttemptHere(s, sp);
    } else {
      AttemptFinds(s, i + 1, sp);
      AttemptsShift(s, i, sp.at - i);
    }
  }

  /** The attempts from `i` after the first are the attempts from `i + 1`. */
  lemma AttemptsShift(s: string, i: nat, k: nat)
    requires i <= |s| && 0 < k < |s| + 1 - i
    ensures Attempts(s, i)[k] == Attempts(s, i + 1)[k - 1]
  {
  }

  /** The first position at or after `i` whose attempt succeeds, or `|a|` if none does. */
  function FirstHit(a: seq<Option<Span>>, i: nat): (j: nat)
    requires i <= |a|
    ensures i <= j <= |a|
    ensures j < |a| ==> a[j].Some?
    ensures forall q :: i <= q < j ==> a[q].None?
    decreases |a| - i
  {
    if i == |a| || a[i].Some? then i else FirstHit(a, i + 1)
  }

  /** `BW_RE.search(s)`: the matcher's attempts from the left, up to the first that succeeds. */
  function Search(s: string): (r: Option<Span>)
    ensures r.Some? ==> MatchesAt(s, r.value)
  {
    var a := Attempts(s, 0);
    var j := FirstHit(a, 0);
    if j < |a| then a[j] else None
  }

  /** What `Search` returns is a match, and no match starts further left. */
  lemma SearchSound(s: string)
    requires Search(s).Some?
    ensures MatchesAt(s, Search(s).value)
    ensures forall sp :: MatchesAt(s, sp) ==> Search(s).value.at <= sp.at
  {
    var a := Attempts(s, 0);
    var j := FirstHit(a, 0);
    assert Search(s) == a[j];
    forall sp | MatchesAt(s, sp) ensures Search(s).value.at <= sp.at {
      AttemptFinds(s, 0, sp);
    }
  }

  /** The first success is at the position that succeeds and no success precedes. */
  lemma FirstHitIs(a: seq<Option<Span>>, p: nat)
    requires p < |a| && a[p].Some?
    requires forall q :: 0 <= q < |a| && a[q].Some? ==> p <= q
    ensures FirstHit(a, 0) == p
  {
  }

  /** A leftmost match is what `Search` returns. */
  lemma SearchComplete(s: string, sp: Span)
    requires MatchesAt(s, sp)
    requires forall sp' :: MatchesAt(s, sp') ==> sp.at <= sp'.at
    ensures Search(s) == Some(sp)
  {
    var a := Attempts(s, 0);
    AttemptFinds(s, 0, sp);
    forall q | 0 <= q < |a| && a[q].Some? ensures sp.at <= q {
      assert MatchesAt(s, a[q].value);
    }
    FirstHitIs(a, sp.at);
  }

  /** With no match anywhere, `Search` finds nothing. */
  lemma SearchNone(s: string)
    requires forall sp :: !MatchesAt(s, sp)
    ensures Search(s).None?
  {
  }

  /** `m.group(0)`. */
  function MatchedText(s: string, sp: Span): string
    requires MatchesAt(s, sp)
  {
    s[sp.at..End(sp)]
  }

  /**
    `convert_bandwidth`: the first throughput figure in the stripped text, in bits per second,
    divided by the factor of the requested unit; 0.0 when the text holds no figure.
   */
  function ConvertBandwidth(valueStr: string, targetUnit: string): (r: real)
    ensures Search(Strip(valueStr)).None? ==> r == 0.0
    ensures Search(Strip(valueStr)).Some? ==>
      r * Factor(NormalizeUnit(targetUnit)) == BitsPerSecond(Strip(valueStr), Search(Strip(valueStr)).value)
    ensures r >= 0.0
  {
    var s := Strip(valueStr);
    match Search(s)
    case None => 0.0
    case Some(sp) => BitsPerSecond(s, sp) / Factor(NormalizeUnit(targetUnit))
  }

  /** `bps_to_selected_unit`: a rate in bits per second expressed in the requested unit. */
  function BpsToSelectedUnit(bitsPerSec: real, targetUnit: string): (r: real)
    ensures r * Factor(NormalizeUnit(targetUnit)) == bitsPerSec
    ensures (bitsPerSec >= 0.0) == (r >= 0.0)
  {
    DivideByFactor(bitsPerSec, NormalizeUnit(targetUnit))
  }

  /** `x` divided by the factor of `u`: multiplying back gives `x`, and the sign is kept. */
  function DivideByFactor(x: real, u: Unit): (q: real)
    ensures q * Factor(u) == x
    ensures (x >= 0.0) == (q >= 0.0)
  {
    x / Factor(u)
  }

  /** Converting a line is scaling its figure's bit rate, the same division the stream uses. */
  lemma ConvertIsBpsToSelectedUnit(valueStr: string, targetUnit: string)
    requires Search(Strip(valueStr)).Some?
    ensures ConvertBandwidth(valueStr, targetUnit)
         == BpsToSelectedUnit(BitsPerSecond(Strip(valueStr), Search(Strip(valueStr)).value), targetUnit)
  {
  }

  /** The same match, seen in the matched text alone. */
  function Shifted(sp: Span): Span
    requires sp.at <= sp.intEnd <= sp.fracEnd <= sp.spaceEnd
  {
    Span(0, sp.intEnd - sp.at, sp.fracEnd - sp.at, sp.spaceEnd - sp.at)
  }

  /** A match is still a match, with the same prefix letter, in the text it matched. */
  lemma ShiftedMatches(s: string, sp: Span)
    requires MatchesAt(s, sp)
    ensures MatchesAt(MatchedText(s, sp), Shifted(sp))
    ensures MatchedText(s, sp)[Shifted(sp).spaceEnd] == s[sp.spaceEnd]
  {
    var t := MatchedText(s, sp);
    var sh := Shifted(sp);
    ShiftedDigits(s, sp);
    assert AllDigits(t[sh.at..sh.intEnd]) by {
      assert t[sh.at..sh.intEnd] == t[..sh.intEnd];
    }
    if sp.fracEnd != sp.intEnd {
      assert t[sh.intEnd] == s[sp.intEnd];
    }
    ShiftedTail(s, sp);
  }

  /** The spaces and the unit of a match, read in the text it matched. */
  lemma ShiftedTail(s: string, sp: Span)
    requires MatchesAt(s, sp)
    ensures AllSpace(MatchedText(s, sp)[Shifted(sp).fracEnd..Shifted(sp).spaceEnd])
    ensures UnitAt(MatchedText(s, sp), Shifted(sp).spaceEnd)
    ensures MatchedText(s, sp)[Shifted(sp).spaceEnd] == s[sp.spaceEnd]
  {
    var t := MatchedText(s, sp);
    var sh := Shifted(sp);
    SliceOfSlice(s, sp.at, End(sp), sh.fracEnd, sh.spaceEnd);
    assert forall k :: sh.spaceEnd <= k < |t| ==> t[k] == s[sp.at + k];
  }

  /** The digits of a match, read in the text it matched at the shifted span, are the same. */
  lemma ShiftedDigits(s: string, sp: Span)
    requires MatchesAt(s, sp)
    ensures MatchedText(s, sp)[..Shifted(sp).intEnd] == s[sp.at..sp.intEnd]
    ensures sp.fracEnd != sp.intEnd ==>
      MatchedText(s, sp)[Shifted(sp).intEnd + 1..Shifted(sp).fracEnd] == s[sp.intEnd + 1..sp.fracEnd]
  {
    var sh := Shifted(sp);
    SliceOfSlice(s, sp.at, End(sp), 0, sh.intEnd);
    if sp.fracEnd != sp.intEnd {
      SliceOfSlice(s, sp.at, End(sp), sh.intEnd + 1, sh.fracEnd);
    }
  }

  /** The figure of a match depends only on its digits and its prefix letter. */
  lemma SameFigure(s: string, sp: Span, t: string, sh: Span)
    requires MatchesAt(s, sp) && MatchesAt(t, sh)
    requires IntDigits(t, sh) == IntDigits(s, sp) && FracDigits(t, sh) == FracDigits(s, sp)
    requires t[sh.spaceEnd] == s[sp.spaceEnd]
    ensures BitsPerSecond(t, sh) == BitsPerSecond(s, sp)
  {
    assert Number(t, sh) == Number(s, sp);
  }

  /** A match is still a match, with the same figure, in the text it matched. */
  lemma MatchedTextMatches(s: string, sp: Span)
    requires MatchesAt(s, sp)
    ensures MatchesAt(MatchedText(s, sp), Shifted(sp))
    ensures BitsPerSecond(MatchedText(s, sp), Shifted(sp)) == BitsPerSecond(s, sp)
  {
    ShiftedMatches(s, sp);
    ShiftedDigits(s, sp);
    SameFigure(s, sp, MatchedText(s, sp), Shifted(sp));
  }

  lemma SliceOfSlice(s: string, i: nat, j: nat, a: nat, b: nat)
    requires i <= j <= |s| && a <= b <= j - i
    ensures s[i..j][a..b] == s[i + a..i + b]
  {
    assert forall k :: 0 <= k < b - a ==> s[i..j][a..b][k] == s[i + a + k];
  }

  /** Re-searching the matched text finds the same figure, so `convert_bandwidth(m.group(0), u)`
      equals converting the whole line. */
  lemma ConvertMatchedText(s: string, targetUnit: string)
    requires Search(s).Some?
    ensures MatchesAt(s, Search(s).value)
    ensures ConvertBandwidth(MatchedText(s, Search(s).value), targetUnit)
         == BitsPerSecond(s, Search(s).value) / Factor(NormalizeUnit(targetUnit))
  {
    var sp := Search(s).value;
    MatchedTextMatches(s, sp);
    MatchedTextStripped(s, sp);
    ConvertLeadingFigure(MatchedText(s, sp), Shifted(sp), targetUnit);
  }

  /** A matched text starts with a digit and ends with "c", so stripping keeps it whole. */
  lemma MatchedTextStripped(s: string, sp: Span)
    requires MatchesAt(s, sp)
    ensures Strip(MatchedText(s, sp)) == MatchedText(s, sp)
  {
    var t := MatchedText(s, sp);
    assert t[0] == s[sp.at];
    assert t[|t| - 1] == s[sp.spaceEnd + 8];
    assert IsDigit(t[0]) && !IsSpace(t[0]) && !IsSpace(t[|t| - 1]);
    StripUnchanged(t);
  }

  /** The unit aliases name the same unit as the canonical names. */
  lemma AliasesAgree(alias: string, name: string)
    requires (alias == "Kbps" && name == "Kbits") || (alias == "Mbps" && name == "Mbits")
          || (alias == "Gbps" && name == "Gbits")
    ensures NormalizeUnit(alias) == NormalizeUnit(name)
  {
    StripUnchanged(alias);
    StripUnchanged(name);
  }

  /** A line that starts with a figure and has no surrounding whitespace converts that figure. */
  lemma ConvertLeadingFigure(s: string, sp: Span, targetUnit: string)
    requires sp.at == 0 && MatchesAt(s, sp) && Strip(s) == s
    ensures ConvertBandwidth(s, targetUnit) == BitsPerSecond(s, sp) / Factor(NormalizeUnit(targetUnit))
  {
    SearchComplete(s, sp);
  }

  /** "941 Mbits/sec" holds one figure, 941 megabits per second. */
  lemma Match941(s: string)
    requires s == "941 Mbits/sec"
    ensures MatchesAt(s, Span(0, 3, 3, 4))
    ensures BitsPerSecond(s, Span(0, 3, 3, 4)) == 941000000.0
  {
    var sp := Span(0, 3, 3, 4);
    assert s[0..3] == "941" && s[3..4] == " ";
    assert MatchesAt(s, sp);
    assert "941"[..2] == "94" && "94"[..1] == "9";
  }

  /** The worked example: "941 Mbits/sec" is 941000000 bits per second in whatever unit. */
  lemma Example941(s: string, targetUnit: string)
    requires s == "941 Mbits/sec"
    ensures ConvertBandwidth(s, targetUnit) == 941000000.0 / Factor(NormalizeUnit(targetUnit))
  {
    Match941(s);
    StripUnchanged(s);
    ConvertLeadingFigure(s, Span(0, 3, 3, 4), targetUnit);
  }

  /** "5 Kbits/sec 7 Gbits/sec" matches at its start, with the figure 5 kilobits per second. */
  lemma Match5(s: string)
    requires s == "5 Kbits/sec 7 Gbits/sec"
    ensures MatchesAt(s, Span(0, 1, 1, 2)) && BitsPerSecond(s, Span(0, 1, 1, 2)) == 5000.0
  {
    var sp := Span(0, 1, 1, 2);
    assert s[0..1] == "5" && s[1..2] == " ";
    assert MatchesAt(s, sp);
  }

  /** With two figures on a line the first one counts: the search stops at "5 Kbits/sec". */
  lemma FirstFigureCounts(s: string)
    requires s == "5 Kbits/sec 7 Gbits/sec"
    ensures Search(s) == Some(Span(0, 1, 1, 2))
    ensures MatchesAt(s, Span(0, 1, 1, 2)) && BitsPerSecond(s, Span(0, 1, 1, 2)) == 5000.0
  {
    Match5(s);
    SearchComplete(s, Span(0, 1, 1, 2));
  }
}
