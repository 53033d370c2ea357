/**
  The event stream the browser reads (`stream_iperf`): each item taken from the run's output
  queue becomes zero or more server-sent-event frames. The queue reads are given as a sequence:
  a line of text, the end-of-run marker `None`, or a read that timed out.
 */
module EventStream {
  import opened Wrappers
  import opened Text
  import opened Bandwidth

  /** One read of the output queue. */
  datatype QueueItem = Line(text: string) | EndOfRun | Timeout

  /** One event frame: a comment, the reconnection delay, or a `data:` frame carrying a text or
      a number (how Python renders the number is not modelled). */
  datatype Frame = Comment(text: string) | Retry(ms: nat) | Data(payload: string) | Value(v: real)

  /** The three frames every stream opens with. */
  const Preamble: seq<Frame> := [Comment("stream"), Retry(1000), Data("stream_connected")]

  /** The frame that ends a stream. */
  const EndMarker: Frame := Data("-1")

  /** The keep-alive frame sent when no output arrived within the timeout. */
  const Ping: Frame := Data("ping")

  /** The figure last shown and whether the stream has ended. */
  datatype State = State(lastVal: real, stopped: bool)

  const Start: State := State(0.0, false)

  // ----- the kinds of line -----

  /** Lines of the backend itself, passed through. */
  predicate IsTagged(s: string)
    ensures IsTagged(s) ==> |s| >= 4 && (s[0] == 'C' || s[0] == 'L' || s[0] == 'W')
  {
    "CMD:" <= s || "LOGFILE:" <= s || "WORKER:" <= s
  }

  /** The texts by which iperf3 reports a failure, looked for in the lower-cased line. */
  predicate IsFailure(low: string)
    ensures IsFailure(low) ==> |low| >= 6
  {
    "iperf3:" <= low || IsInfix("unable to connect", low) || IsInfix("connection refused", low)
    || IsInfix("timed out", low) || IsInfix("failed", low) || IsInfix("no route", low)
  }

  /** The texts by which iperf3 reports that the server is running another test. */
  predicate IsBusy(low: string)
    ensures IsBusy(low) ==> |low| >= 14
  {
    IsInfix("server is busy", low) || IsInfix("unable to send control message", low)
  }

  /** Where the digits of a bare number start: after an optional minus sign. */
  function SignEnd(s: string): nat
  {
    if |s| > 0 && s[0] == '-' then 1 else 0
  }

  /** The whole line is `-?\d+(?:\.\d+)?`. */
  predicate IsBareNumber(s: string)
    ensures IsBareNumber(s) ==> s != [] && IsDigit(s[|s| - 1]) && (s[0] == '-' || IsDigit(s[0]))
  {
    var b := SignEnd(s);
    b <= |s| && DigitRun(s, b) > b
    && (DigitRun(s, b) == |s|
        || (s[DigitRun(s, b)] == '.' && DigitRun(s, b) + 1 < |s|
            && IsDigit(s[DigitRun(s, b) + 1]) && DigitRun(s, DigitRun(s, b) + 1) == |s|))
  }

  /** `float(s)` of a bare number. */
  function BareNumberValue(s: string): (v: real)
    requires IsBareNumber(s)
    ensures s[0] != '-' ==> v >= 0.0
  {
    var b := SignEnd(s);
    var j := DigitRun(s, b);
    var magnitude := DecimalValue(s[b..j], if j == |s| then "" else s[j + 1..]);
    if b == 1 then -magnitude else magnitude
  }

  /** What a stripped line is, by the first of the backend's checks it passes. */
  datatype Kind =
    | Blank
    | Tagged
    | WorkerError
    | Failure
    | Busy
    | Number(v: real)
    | Rate(bps: real, summary: bool)
    | Text

  /** The checks in the backend's order; a throughput line carries the first figure's bit rate
      and counts as a summary when it has `[SUM]` and is not the sender's. */
  function Classify(s: string): (k: Kind)
    ensures k == Blank <==> s == []
    ensures k == Tagged <==> s != [] && IsTagged(s)
    ensures k.Number? ==> IsBareNumber(s) && k.v == BareNumberValue(s)
    ensures k.Rate? ==> Search(s).Some? && k.bps == BitsPerSecond(s, Search(s).value)
    ensures k.Rate? ==> k.summary == (IsInfix("[SUM]", s) && !IsInfix("sender", LowerStr(s)))
    ensures k == Tagged || k == WorkerError || k == Text ==> s != "-1"
  {
    if s == [] then Blank
    else
      var low := LowerStr(s);
      if IsTagged(s) then Tagged
      else if "error:" <= low then
        assert low[0] == 'e';
        WorkerError
      else if IsFailure(low) then Failure
      else if IsBusy(low) then Busy
      else if IsBareNumber(s) then Number(BareNumberValue(s))
      else
        match Search(s)
        case Some(sp) =>
          Rate(BitsPerSecond(s, sp), IsInfix("[SUM]", s) && !IsInfix("sender", low))
        case None =>
          assert s == "-1" ==> DigitRun(s, 1) == 2;
          Text
  }

  /** A queue read with its line stripped and classified. */
  datatype Event = Keepalive | Ended | Input(s: string, kind: Kind)

  /** The event of one read; a line that is not the marker "-1" never yields a `data: -1`. */
  function Read(item: QueueItem): (e: Event)
    ensures e.Input? && (e.kind == Tagged || e.kind == WorkerError || e.kind == Text) ==> e.s != "-1"
  {
    match item
    case Timeout => Keepalive
    case EndOfRun => Ended
    case Line(t) => Input(Strip(t), Classify(Strip(t)))
  }

  function Reads(items: seq<QueueItem>): (events: seq<Event>)
    ensures |events| == |items|
    ensures forall i :: 0 <= i < |items| ==> events[i] == Read(items[i])
  {
    seq(|items|, i requires 0 <= i < |items| => Read(items[i]))
  }

  /** The frames one event produces and the state after it; `streams` is the run's stream
      count. */
  function Step(st: State, e: Event, unit: string, streams: int): (r: (seq<Frame>, State))
    ensures r.1.stopped <==> st.stopped || e == Ended || (e.Input? && (e.kind == WorkerError || e.kind == Failure))
    ensures r.1.lastVal != st.lastVal ==> e.Input? && (e.kind.Number? || e.kind.Rate?)
    ensures |r.0| <= 2 && (r.0 == [] <==> e.Input? && e.kind == Blank)
  {
    match e
    case Keepalive => ([Ping], st)
    case Ended => ([EndMarker], st.(stopped := true))
    case Input(s, kind) =>
      match kind
      case Blank => ([], st)
      case Tagged => ([Data(s)], st)
      case WorkerError => ([Data(s), EndMarker], st.(stopped := true))
      case Failure => ([Data("ERROR: " + s), EndMarker], st.(stopped := true))
      case Busy => ([Data("server is busy")], st)
      case Number(v) => ([Value(v)], st.(lastVal := v))
      case Rate(bps, summary) =>
        var v := BpsToSelectedUnit(bps, unit);
        if summary || streams == 1 then ([Value(v)], st.(lastVal := v))
        else ([Value(st.lastVal)], st)
      case Text => ([Data(s)], st)
  }

  /** The frames and final state of a stream of events; nothing is read after the end. */
  datatype Transcript = Transcript(frames: seq<Frame>, state: State)

  function Run(st: State, events: seq<Event>, unit: string, streams: int): (r: Transcript)
    ensures st.stopped ==> r == Transcript([], st)
    ensures |r.frames| <= 2 * |events|
    decreases |events|
  {
    if events == [] || st.stopped then Transcript([], st)
    else
      var (f, st') := Step(st, events[0], unit, streams);
      var rest := Run(st', events[1..], unit, streams);
      Transcript(f + rest.frames, rest.state)
  }

  /** The stream of a run's queue reads, in `unit` with `streams` streams. */
  function Stream(items: seq<QueueItem>, unit: string, streams: int): (r: Transcript)
    ensures items == [] ==> r == Transcript([], Start)
    ensures |r.frames| <= 2 * |items|
  {
    Run(Start, Reads(items), unit, streams)
  }

  /** The frames yielded for one queue read, and the figure last shown and the stop flag after
      it. */
  method Emit(e: Event, lastVal0: real, stopped0: bool, unit: string, streams: int)
    returns (out: seq<Frame>, lastVal: real, stopped: bool)
    ensures (out, State(lastVal, stopped)) == Step(State(lastVal0, stopped0), e, unit, streams)
  {
    out := [];
    lastVal, stopped := lastVal0, stopped0;
    match e {
      case Keepalive =>
        out := [Ping];
      case Ended =>
        out := [EndMarker];
        stopped := true;
      case Input(s, kind) =>
        match kind {
          case Blank =>
          case Tagged =>
            out := [Data(s)];
          case WorkerError =>
            out := [Data(s), EndMarker];
            stopped := true;
          case Failure =>
            out := [Data("ERROR: " + s), EndMarker];
            stopped := true;
          case Busy =>
            out := [Data("server is busy")];
          case Number(v) =>
            lastVal := v;
            out := [Value(v)];
          case Rate(bps, summary) =>
            var v := BpsToSelectedUnit(bps, unit);
            if summary || streams == 1 {
              lastVal := v;
            }
            out := [Value(lastVal)];
          case Text =>
            out := [Data(s)];
        }
    }
  }

  /**
    `generate`: the preamble, then the frames of each queue read until the end marker.
    The loop stops when the reads given run out, where the backend would keep waiting.
   */
  method Generate(items: seq<QueueItem>, unit: string, streams: int)
    returns (frames: seq<Frame>, lastVal: real, stopped: bool)
    ensures frames == Preamble + Stream(items, unit, streams).frames
    ensures State(lastVal, stopped) == Stream(items, unit, streams).state
  {
    ghost var events := Reads(items);
    frames := Preamble;
    lastVal := 0.0;
    stopped := false;
    var i := 0;
    while i < |items| && !stopped
      invariant 0 <= i <= |items|
      invariant frames == Preamble + Run(Start, events[..i], unit, streams).frames
      invariant State(lastVal, stopped) == Run(Start, events[..i], unit, streams).state
    {
      RunOne(Start, events, i, unit, streams);
      var e := Read(items[i]);
      ghost var prefix := Run(Start, events[..i], unit, streams);
      assert e == events[i];
      assert State(lastVal, stopped) == prefix.state;
      var out;
      out, lastVal, stopped := Emit(e, lastVal, stopped, unit, streams);
      assert (out, State(lastVal, stopped)) == Step(prefix.state, events[i], unit, streams);
      ConcatAssoc(Preamble, prefix.frames, out);
      frames := frames + out;
      i := i + 1;
    }
    RunRest(Start, events, i, unit, streams);
  }

  lemma ConcatAssoc(a: seq<Frame>, b: seq<Frame>, c: seq<Frame>)
    ensures (a + b) + c == a + (b + c)
  {
  }

  /** Reading one more event extends the frames by that event's. */
  lemma RunOne(st: State, events: seq<Event>, i: nat, unit: string, streams: int)
    requires i < |events| && !Run(st, events[..i], unit, streams).state.stopped
    ensures var r := Run(st, events[..i], unit, streams);
      Run(st, events[..i + 1], unit, streams)
        == Transcript(r.frames + Step(r.state, events[i], unit, streams).0, Step(r.state, events[i], unit, streams).1)
  {
    assert events[..i + 1] == events[..i] + [events[i]];
    RunAppend(st, events[..i], [events[i]], unit, streams);
    var r := Run(st, events[..i], unit, streams);
    assert Run(r.state, [events[i]], unit, streams)
        == Transcript(Step(r.state, events[i], unit, streams).0 + [], Step(r.state, events[i], unit, streams).1);
  }

  /** Once the events read so far end the stream, or none are left, the rest adds nothing. */
  lemma RunRest(st: State, events: seq<Event>, i: nat, unit: string, streams: int)
    requires i <= |events|
    requires i == |events| || Run(st, events[..i], unit, streams).state.stopped
    ensures Run(st, events, unit, streams) == Run(st, events[..i], unit, streams)
  {
    assert events == events[..i] + events[i..];
    RunAppend(st, events[..i], events[i..], unit, streams);
    var r := Run(st, events[..i], unit, streams);
    assert r.frames + [] == r.frames;
  }

  // ----- properties of one read -----

  /** A line of the backend's own is forwarded as it is and never ends the stream, even when it
      also reads like an error. */
  lemma TaggedForwarded(st: State, t: string, unit: string, streams: int)
    requires IsTagged(Strip(t))
    ensures Step(st, Read(Line(t)), unit, streams) == ([Data(Strip(t))], st)
  {
    assert Classify(Strip(t)) == Tagged;
    assert Read(Line(t)) == Input(Strip(t), Tagged);
  }

  /** A line starting with "iperf3:" ends the stream as an error, even when it says that the
      server is busy: the failure check comes first. */
  lemma IperfPrefixIsFailure(st: State, t: string, unit: string, streams: int)
    requires "iperf3:" <= LowerStr(Strip(t)) && !IsTagged(Strip(t))
    ensures Step(st, Read(Line(t)), unit, streams) == ([Data("ERROR: " + Strip(t)), EndMarker], st.(stopped := true))
  {
    var low := LowerStr(Strip(t));
    assert !("error:" <= low) by {
      assert low[0] == 'i';
    }
  }

  /** The figure a throughput line shows is `convert_bandwidth` of the matched text in the
      run's unit, as the backend computes it. */
  lemma RateIsConvertedMatch(s: string, unit: string)
    requires Classify(s).Rate?
    ensures MatchesAt(s, Search(s).value)
    ensures BpsToSelectedUnit(Classify(s).bps, unit) == ConvertBandwidth(MatchedText(s, Search(s).value), unit)
  {
    ConvertMatchedText(s, unit);
  }

  /** A bare number that does not also read as a failure or a busy message is classified as
      that number, and is then shown and becomes the figure last shown. */
  lemma BareNumberShown(s: string)
    requires IsBareNumber(s) && !IsFailure(LowerStr(s)) && !IsBusy(LowerStr(s))
    ensures Classify(s) == Number(BareNumberValue(s))
  {
    assert s[0] == '-' || IsDigit(s[0]);
    assert LowerStr(s)[0] == s[0];
  }

  /** A read that timed out sends a keep-alive and changes nothing. */
  lemma TimeoutPings(st: State, unit: string, streams: int)
    ensures Step(st, Read(Timeout), unit, streams) == ([Ping], st)
  {
  }

  /** The end of the run sends the end marker and stops the stream. */
  lemma EndOfRunEnds(st: State, unit: string, streams: int)
    ensures Step(st, Read(EndOfRun), unit, streams) == ([EndMarker], st.(stopped := true))
  {
  }

  /** A line that is blank once stripped sends nothing and changes nothing. */
  lemma BlankLineSkipped(st: State, t: string, unit: string, streams: int)
    requires Strip(t) == []
    ensures Step(st, Read(Line(t)), unit, streams) == ([], st)
  {
  }

  /** A line the worker reports as an error is forwarded as it is, then the stream ends. The
      failure texts are not looked at: "error: connection failed" gets no "ERROR: " prefix. */
  lemma ErrorPrefixEnds(st: State, t: string, unit: string, streams: int)
    requires !IsTagged(Strip(t)) && "error:" <= LowerStr(Strip(t))
    ensures Step(st, Read(Line(t)), unit, streams) == ([Data(Strip(t)), EndMarker], st.(stopped := true))
  {
    assert |Strip(t)| == |LowerStr(Strip(t))| >= 6;
  }

  /** A line with one of iperf3's failure texts, that is neither the backend's own nor a
      worker error, is sent as "ERROR: " and the line, then the stream ends. */
  lemma FailureTextEnds(st: State, t: string, unit: string, streams: int)
    requires !IsTagged(Strip(t)) && !("error:" <= LowerStr(Strip(t))) && IsFailure(LowerStr(Strip(t)))
    ensures Step(st, Read(Line(t)), unit, streams) == ([Data("ERROR: " + Strip(t)), EndMarker], st.(stopped := true))
  {
    assert Classify(Strip(t)) == Failure;
    assert Read(Line(t)) == Input(Strip(t), Failure);
  }

  /** A busy message that is no failure sends exactly "server is busy" and the stream goes
      on. */
  lemma BusyContinues(st: State, t: string, unit: string, streams: int)
    requires !IsTagged(Strip(t)) && !("error:" <= LowerStr(Strip(t)))
    requires !IsFailure(LowerStr(Strip(t))) && IsBusy(LowerStr(Strip(t)))
    ensures Step(st, Read(Line(t)), unit, streams) == ([Data("server is busy")], st)
  {
    assert Classify(Strip(t)) == Busy;
    assert Read(Line(t)) == Input(Strip(t), Busy);
  }

  /** A throughput line shows its figure in the run's unit and keeps it when it is the `[SUM]`
      line of the receiver or the run has one stream; otherwise the figure last shown is sent
      again and nothing changes. */
  lemma RateLineShown(st: State, t: string, unit: string, streams: int)
    requires Classify(Strip(t)).Rate?
    ensures var s := Strip(t);
      var v := ConvertBandwidth(MatchedText(s, Search(s).value), unit);
      var summary := IsInfix("[SUM]", s) && !IsInfix("sender", LowerStr(s));
      Step(st, Read(Line(t)), unit, streams)
        == (if summary || streams == 1 then ([Value(v)], st.(lastVal := v)) else ([Value(st.lastVal)], st))
  {
    var s := Strip(t);
    var k := Classify(s);
    RateIsConvertedMatch(s, unit);
    assert Read(Line(t)) == Input(s, k);
    StepOfRate(st, s, k, unit, streams);
  }

  /** A non-blank line that no earlier rule takes and that holds a throughput figure is a rate
      line, so `RateLineShown` gives its step. */
  lemma RateLineClassified(t: string)
    requires Strip(t) != [] && !IsTagged(Strip(t)) && !("error:" <= LowerStr(Strip(t)))
    requires !IsFailure(LowerStr(Strip(t))) && !IsBusy(LowerStr(Strip(t)))
    requires !IsBareNumber(Strip(t)) && Search(Strip(t)).Some?
    ensures Classify(Strip(t)).Rate?
  {
    var s := Strip(t);
    var sp := Search(s).value;
    assert Classify(s) == Rate(BitsPerSecond(s, sp), IsInfix("[SUM]", s) && !IsInfix("sender", LowerStr(s)));
  }

  /** The step of a throughput line, whatever its text. */
  lemma StepOfRate(st: State, s: string, k: Kind, unit: string, streams: int)
    requires k.Rate?
    ensures var v := BpsToSelectedUnit(k.bps, unit);
      Step(st, Input(s, k), unit, streams)
        == (if k.summary || streams == 1 then ([Value(v)], st.(lastVal := v)) else ([Value(st.lastVal)], st))
  {
  }

  /** Any other non-blank line is forwarded as it is and the stream goes on. */
  lemma OtherTextForwarded(st: State, t: string, unit: string, streams: int)
    requires Strip(t) != [] && !IsTagged(Strip(t)) && !("error:" <= LowerStr(Strip(t)))
    requires !IsFailure(LowerStr(Strip(t))) && !IsBusy(LowerStr(Strip(t)))
    requires !IsBareNumber(Strip(t)) && Search(Strip(t)).None?
    ensures Step(st, Read(Line(t)), unit, streams) == ([Data(Strip(t))], st)
  {
    assert Classify(Strip(t)) == Text;
    assert Read(Line(t)) == Input(Strip(t), Text);
  }

  /** "error: connection failed" is also a failure text, yet it is forwarded unchanged: the
      worker-error check comes first. */
  lemma ErrorBeforeFailure(st: State, unit: string, streams: int)
    ensures IsFailure(LowerStr("error: connection failed"))
    ensures Step(st, Read(Line("error: connection failed")), unit, streams)
         == ([Data("error: connection failed"), EndMarker], st.(stopped := true))
  {
    var t := "error: connection failed";
    ErrorLineFacts(t);
    ErrorPrefixEnds(st, t, unit, streams);
  }

  lemma ErrorLineFacts(t: string)
    requires t == "error: connection failed"
    ensures Strip(t) == t && LowerStr(t) == t
    ensures !IsTagged(t) && "error:" <= LowerStr(t) && IsFailure(LowerStr(t))
  {
    assert t[0] == 'e' && t[|t| - 1] == 'd';
    StripUnchanged(t);
    ErrorLineLower(t);
    assert t[18..24] == "failed";
    InfixAt("failed", t, 18);
  }

  lemma ErrorLineLower(t: string)
    requires t == "error: connection failed"
    ensures LowerStr(t) == t
  {
    assert forall i :: 0 <= i < |t| ==> !('A' <= t[i] <= 'Z');
  }

  /** A read that is not a stream-ending one: its `data: -1` frames are only the marker the
      classification says ends the stream. */
  predicate WellRead(e: Event)
  {
    e.Input? && (e.kind == Tagged || e.kind == WorkerError || e.kind == Text) ==> e.s != "-1"
  }

  /** Only a step that stops ends with the end marker, and it sends the marker nowhere else. */
  lemma StepEndMarker(st: State, e: Event, unit: string, streams: int)
    requires WellRead(e)
    ensures var (f, st') := Step(st, e, unit, streams);
      && st'.stopped == (st.stopped || (|f| > 0 && f[|f| - 1] == EndMarker))
      && (forall i :: 0 <= i < |f| - 1 ==> f[i] != EndMarker)
  {
  }

  // ----- properties of a whole stream -----

  /** The number of the last `Value` frame, or `dflt` if there is none. */
  function LastValue(frames: seq<Frame>, dflt: real): real
    decreases |frames|
  {
    if frames == [] then dflt
    else if frames[|frames| - 1].Value? then frames[|frames| - 1].v
    else LastValue(frames[..|frames| - 1], dflt)
  }

  lemma {:induction false} LastValueAppend(a: seq<Frame>, b: seq<Frame>, dflt: real)
    ensures LastValue(a + b, dflt) == LastValue(b, LastValue(a, dflt))
    decreases |b|
  {
    if b == [] {
      assert a + b == a;
    } else {
      assert (a + b)[..|a + b| - 1] == a + b[..|b| - 1];
      LastValueAppend(a, b[..|b| - 1], dflt);
    }
  }

  /** What a step leaves as the figure last shown is the last number it sends, or the old one
      if it sends none. */
  lemma StepLastValue(st: State, e: Event, unit: string, streams: int)
    ensures Step(st, e, unit, streams).1.lastVal == LastValue(Step(st, e, unit, streams).0, st.lastVal)
  {
    var r := Step(st, e, unit, streams);
    match e
    case Keepalive =>
    case Ended =>
      assert r.0[..0] == [];
    case Input(s, kind) =>
      if kind.WorkerError? || kind.Failure? {
        assert r.0 == [r.0[0], EndMarker] && !r.0[0].Value? && r.1.lastVal == st.lastVal;
        assert r.0[..1] == [r.0[0]] && [r.0[0]][..0] == [];
        assert LastValue(r.0, st.lastVal) == LastValue([r.0[0]], st.lastVal) == LastValue([], st.lastVal);
      } else if kind.Tagged? || kind.Text? || kind.Busy? {
        assert r.0[..0] == [];
      }
  }

  /** Reading after the end changes nothing. */
  lemma StoppedReadsNothing(st: State, events: seq<Event>, unit: string, streams: int)
    requires st.stopped
    ensures Run(st, events, unit, streams) == Transcript([], st)
  {
  }

  /** A stream is read in pieces: the frames of the events `a + b` are those of `a` followed by
      those of `b` from where `a` left off. */
  lemma {:induction false} RunAppend(st: State, a: seq<Event>, b: seq<Event>, unit: string, streams: int)
    ensures Run(st, a + b, unit, streams)
         == Transcript(Run(st, a, unit, streams).frames + Run(Run(st, a, unit, streams).state, b, unit, streams).frames,
                       Run(Run(st, a, unit, streams).state, b, unit, streams).state)
    decreases |a|
  {
    if a == [] {
      assert a + b == b;
    } else if !st.stopped {
      assert (a + b)[0] == a[0];
      assert (a + b)[1..] == a[1..] + b;
      var (f, st') := Step(st, a[0], unit, streams);
      RunAppend(st', a[1..], b, unit, streams);
      assert f + Run(st', a[1..], unit, streams).frames + Run(Run(st', a[1..], unit, streams).state, b, unit, streams).frames
          == f + (Run(st', a[1..], unit, streams).frames + Run(Run(st', a[1..], unit, streams).state, b, unit, streams).frames);
    }
  }

  /** The figure the stream ends with is the number it showed last (the starting one before
      any). */
  lemma {:induction false} RunLastValue(st: State, events: seq<Event>, unit: string, streams: int)
    ensures Run(st, events, unit, streams).state.lastVal == LastValue(Run(st, events, unit, streams).frames, st.lastVal)
    decreases |events|
  {
    if events != [] && !st.stopped {
      var (f, st') := Step(st, events[0], unit, streams);
      StepLastValue(st, events[0], unit, streams);
      RunLastValue(st', events[1..], unit, streams);
      LastValueAppend(f, Run(st', events[1..], unit, streams).frames, st.lastVal);
    }
  }

  /** The end marker is at most the last frame, and is there exactly when `stopped`. */
  predicate EndsProperly(frames: seq<Frame>, stopped: bool)
  {
    && (forall i :: 0 <= i < |frames| - 1 ==> frames[i] != EndMarker)
    && (stopped <==> |frames| > 0 && frames[|frames| - 1] == EndMarker)
  }

  lemma EndsProperlyConcat(f: seq<Frame>, rest: seq<Frame>, stopped: bool)
    requires EndsProperly(f, false) && EndsProperly(rest, stopped)
    ensures EndsProperly(f + rest, stopped)
  {
    var all := f + rest;
    forall i | 0 <= i < |all| - 1 ensures all[i] != EndMarker {
      if i < |f| {
        assert all[i] == f[i];
      } else {
        assert all[i] == rest[i - |f|];
      }
    }
    if rest == [] {
      assert all == f;
    } else {
      assert all[|all| - 1] == rest[|rest| - 1];
    }
  }

  /** The end marker is sent at most once, as the very last frame, exactly when the stream
      has ended. */
  lemma {:induction false} EndMarkerOnlyAtEnd(st: State, events: seq<Event>, unit: string, streams: int)
    requires !st.stopped
    requires forall i :: 0 <= i < |events| ==> WellRead(events[i])
    ensures EndsProperly(Run(st, events, unit, streams).frames, Run(st, events, unit, streams).state.stopped)
    decreases |events|
  {
    if events != [] {
      var (f, st') := Step(st, events[0], unit, streams);
      StepEndMarker(st, events[0], unit, streams);
      var rest := Run(st', events[1..], unit, streams);
      if !st'.stopped {
        EndMarkerOnlyAtEnd(st', events[1..], unit, streams);
        EndsProperlyConcat(f, rest.frames, rest.state.stopped);
      } else {
        assert f + rest.frames == f;
      }
    }
  }

  /** The end of the run stops the stream, whatever was read before it. */
  lemma {:induction false} EndedStops(st: State, events: seq<Event>, unit: string, streams: int)
    ensures Run(st, events + [Ended], unit, streams).state.stopped
    decreases |events|
  {
    if !st.stopped {
      var st' := Step(st, (events + [Ended])[0], unit, streams).1;
      if events == [] {
        assert st'.stopped;
      } else {
        assert (events + [Ended])[1..] == events[1..] + [Ended];
        EndedStops(st', events[1..], unit, streams);
      }
    }
  }

  /** Every read of the queue is well classified. */
  lemma ReadsWellRead(items: seq<QueueItem>)
    ensures forall i :: 0 <= i < |items| ==> WellRead(Reads(items)[i])
  {
    forall i | 0 <= i < |items| ensures WellRead(Reads(items)[i]) {
      assert Reads(items)[i] == Read(items[i]);
    }
  }

  /** A per-stream or sender throughput line. */
  predicate IsPerStreamRate(e: Event)
  {
    e.Input? && e.kind.Rate? && !e.kind.summary
  }

  /** On a multi-stream run, per-stream and sender lines never move the figure: each repeats
      the figure last shown. */
  lemma {:induction false} PerStreamLinesHoldFigure(st: State, events: seq<Event>, unit: string, streams: int)
    requires streams != 1
    requires forall i :: 0 <= i < |events| ==> IsPerStreamRate(events[i])
    ensures Run(st, events, unit, streams).state == st
    ensures forall i :: 0 <= i < |Run(st, events, unit, streams).frames| ==>
              Run(st, events, unit, streams).frames[i] == Value(st.lastVal)
    decreases |events|
  {
    if events != [] && !st.stopped {
      assert IsPerStreamRate(events[0]);
      var rest := Run(st, events[1..], unit, streams);
      PerStreamLinesHoldFigure(st, events[1..], unit, streams);
      assert Run(st, events, unit, streams).frames == [Value(st.lastVal)] + rest.frames;
    }
  }

  /** A run from the start over well-read events, after the preamble: the end marker is last
      exactly when the run ended and nowhere else, and the figure last shown is its final
      state. */
  lemma RunShape(events: seq<Event>, unit: string, streams: int)
    requires forall i :: 0 <= i < |events| ==> WellRead(events[i])
    ensures (Preamble + Run(Start, events, unit, streams).frames)[..3] == Preamble
    ensures EndsProperly(Preamble + Run(Start, events, unit, streams).frames, Run(Start, events, unit, streams).state.stopped)
    ensures Run(Start, events, unit, streams).state.lastVal == LastValue(Run(Start, events, unit, streams).frames, 0.0)
  {
    var t := Run(Start, events, unit, streams);
    EndMarkerOnlyAtEnd(Start, events, unit, streams);
    RunLastValue(Start, events, unit, streams);
    assert EndsProperly(Preamble, false) by {
      assert Preamble[2] != EndMarker;
    }
    EndsProperlyConcat(Preamble, t.frames, t.state.stopped);
  }

  /** The whole stream of a run: the preamble, then frames with the end marker last exactly
      when the run ended and nowhere else, and the figure last shown as its final state. */
  lemma StreamShape(items: seq<QueueItem>, unit: string, streams: int)
    ensures (Preamble + Stream(items, unit, streams).frames)[..3] == Preamble
    ensures EndsProperly(Preamble + Stream(items, unit, streams).frames, Stream(items, unit, streams).state.stopped)
    ensures Stream(items, unit, streams).state.lastVal == LastValue(Stream(items, unit, streams).frames, 0.0)
  {
    ReadsWellRead(items);
    RunShape(Reads(items), unit, streams);
  }
}
