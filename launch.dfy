/**
  Starting a run (`run_iperf`): the JSON request body is read with its defaults, checked by
  three rules and turned into the `iperf3` argument list; the backend's run state is reset and
  the run's output queue opened with two lines. Also the parts of the worker thread and of
  `api_stats` that touch that state. The `iperf3` and `ethtool` processes, the thread, the log
  file and the clock are outside the model: what they yield is given as parameters.
 */
module Launch {
  import opened Wrappers
  import opened Text
  import Shell
  import Counters
  import EventStream

  // ----- the request body -----

  /** A value of the request body: absent or `null`, a string, or an integer. */
  datatype Field = Missing | Str(s: string) | Num(n: int)

  /** Python truthiness: `None`, "" and 0 are false. */
  predicate Truthy(f: Field)
  {
    match f
    case Missing => false
    case Str(s) => s != []
    case Num(n) => n != 0
  }

  /** `f or d`. */
  function Or(f: Field, d: Field): Field
  {
    if Truthy(f) then f else d
  }

  /** `str(f)`. */
  function Show(f: Field): string
  {
    match f
    case Missing => "None"
    case Str(s) => s
    case Num(n) => IntToString(n)
  }

  /** `f.lower()`: only a string has it, anything else raises. */
  function Lowered(f: Field): Option<string>
  {
    if f.Str? then Some(LowerStr(f.s)) else None
  }

  /** `int(f)`: a string is parsed, an integer kept, `None` raises. */
  function ToInt(f: Field): Option<int>
  {
    match f
    case Missing => None
    case Str(s) => ParseInt(s)
    case Num(n) => Some(n)
  }

  /** `f or d` for a member that is only ever a string. */
  function OrText(f: Option<string>, d: string): string
  {
    if f.Some? && f.value != [] then f.value else d
  }

  /** The members of the request body `run_iperf` reads. */
  datatype Request = Request(
    target: Field, port: Field, streams: Field, protocol: Field, mode: Field, bandwidth: Field,
    duration: Field, interval: Field, connectTimeoutMs: Field,
    units: Option<string>, iface: Option<string>)

  /** The saved settings a request falls back on: `iperf_port` (5201 when the settings have
      none) and `default_iface` ("" when they have none). */
  datatype Settings = Settings(iperfPort: Field, defaultIface: string)

  /** A request with its defaults applied, as read before any check. */
  datatype Parsed = Parsed(
    protocol: string, mode: string, target: Field, port: string, streams: int,
    bandwidth: string, unit: string, iface: string,
    duration: string, interval: string, connectTimeoutMs: string)

  /** Reading the request: `None` when Python raises on the way (a protocol or mode that is
      not a string, a streams value `int` rejects). */
  function ParseRequest(req: Request, settings: Settings): (r: Option<Parsed>)
    ensures r.Some? <==> (Or(req.protocol, Str("tcp")).Str? && Or(req.mode, Str("upload")).Str?
                          && ToInt(Or(req.streams, Num(1))).Some?)
  {
    var protocol := Lowered(Or(req.protocol, Str("tcp")));
    var mode := Lowered(Or(req.mode, Str("upload")));
    var streams := ToInt(Or(req.streams, Num(1)));
    if protocol.None? || mode.None? || streams.None? then None
    else
      Some(Parsed(
        protocol.value, mode.value, Or(req.target, Str("")),
        Show(Or(req.port, settings.iperfPort)), streams.value,
        Show(Or(req.bandwidth, Str("0"))), OrText(req.units, "Mbits"),
        OrText(req.iface, settings.defaultIface),
        Show(Or(req.duration, Str("10"))), Show(Or(req.interval, Str("1"))),
        Show(Or(req.connectTimeoutMs, Str("3000")))))
  }

  // ----- the iperf3 command -----

  /** What the command of an accepted request says: a UDP run carries its bandwidth, a
      download runs in reverse. */
  datatype Options = Options(
    target: string, port: string, streams: int, interval: string, duration: string,
    connectTimeoutMs: string, udpBandwidth: Option<string>, reverse: bool)

  /** The fixed part of the `iperf3` argument list, `exe` being the program found on the
      system. */
  function Head(exe: string, o: Options): (h: seq<string>)
    ensures |h| == 15
  {
    [exe, "-c", o.target, "-p", o.port, "-P", IntToString(o.streams), "-i", o.interval,
     "-t", o.duration, "--json-stream", "--forceflush", "--connect-timeout", o.connectTimeoutMs]
  }

  /** The optional part: `-u -b bandwidth` for UDP, then `-R` for a download. */
  function Tail(o: Options): (t: seq<string>)
    ensures DecodeTail(t) == Some((o.udpBandwidth, o.reverse))
  {
    (if o.udpBandwidth.Some? then ["-u", "-b", o.udpBandwidth.value] else [])
    + (if o.reverse then ["-R"] else [])
  }

  /** The `iperf3` argument list; every such list is read back as the options it was built
      from. */
  function Argv(exe: string, o: Options): (argv: seq<string>)
    ensures DecodeArgv(exe, argv) == Some(o)
  {
    var argv := Head(exe, o) + Tail(o);
    assert argv[..15] == Head(exe, o) && argv[15..] == Tail(o);
    DecodeHeadOfHead(exe, o);
    argv
  }

  /** The options the fixed part states, read position by position (no UDP, no reverse). */
  function DecodeHead(exe: string, h: seq<string>): Option<Options>
    requires |h| == 15
  {
    if h[0] != exe || h[1] != "-c" || h[3] != "-p" || h[5] != "-P" || h[7] != "-i"
       || h[9] != "-t" || h[11] != "--json-stream" || h[12] != "--forceflush"
       || h[13] != "--connect-timeout" || ParseInt(h[6]).None?
    then None
    else Some(Options(h[2], h[4], ParseInt(h[6]).value, h[8], h[10], h[14], None, false))
  }

  /** The UDP bandwidth and the reverse flag the optional part states. */
  function DecodeTail(t: seq<string>): Option<(Option<string>, bool)>
  {
    if t == [] then Some((None, false))
    else if t == ["-R"] then Some((None, true))
    else if |t| == 3 && t[0] == "-u" && t[1] == "-b" then Some((Some(t[2]), false))
    else if |t| == 4 && t[0] == "-u" && t[1] == "-b" && t[3] == "-R" then Some((Some(t[2]), true))
    else None
  }

  /** The options an argument list states. */
  function DecodeArgv(exe: string, argv: seq<string>): Option<Options>
  {
    if |argv| < 15 then None
    else
      match (DecodeHead(exe, argv[..15]), DecodeTail(argv[15..]))
      case (Some(o), Some((udp, reverse))) => Some(o.(udpBandwidth := udp, reverse := reverse))
      case _ => None
  }

  /** The fixed part is read back as the options it states. */
  lemma DecodeHeadOfHead(exe: string, o: Options)
    ensures DecodeHead(exe, Head(exe, o)) == Some(o.(udpBandwidth := None, reverse := false))
  {
    var h := Head(exe, o);
    assert h[0] == exe && h[1] == "-c" && h[2] == o.target && h[3] == "-p" && h[4] == o.port;
    assert h[5] == "-P" && h[6] == IntToString(o.streams) && h[7] == "-i" && h[8] == o.interval;
    assert h[9] == "-t" && h[10] == o.duration && h[11] == "--json-stream";
    assert h[12] == "--forceflush" && h[13] == "--connect-timeout" && h[14] == o.connectTimeoutMs;
    ParseIntOfIntToString(o.streams);
  }

  /** The fixed part as `run_iperf` assembles it. */
  lemma HeadInPieces(exe: string, o: Options)
    ensures Head(exe, o)
         == [exe, "-c", o.target, "-p", o.port, "-P", IntToString(o.streams)]
            + ["-i", o.interval, "-t", o.duration] + ["--json-stream"] + ["--forceflush"]
            + ["--connect-timeout", o.connectTimeoutMs]
  {
  }

  /** The argument list as `run_iperf` assembles it, piece by piece. */
  method BuildArgv(exe: string, o: Options) returns (cmd: seq<string>)
    ensures cmd == Argv(exe, o)
  {
    cmd := [exe, "-c", o.target, "-p", o.port, "-P", IntToString(o.streams)];
    cmd := cmd + ["-i", o.interval, "-t", o.duration];
    cmd := cmd + ["--json-stream"];
    cmd := cmd + ["--forceflush"];
    cmd := cmd + ["--connect-timeout", o.connectTimeoutMs];
    HeadInPieces(exe, o);
    if o.udpBandwidth.Some? {
      cmd := cmd + ["-u", "-b", o.udpBandwidth.value];
    }
    if o.reverse {
      cmd := cmd + ["-R"];
    }
  }

  /** Two different option sets never give the same command. */
  lemma ArgvInjective(exe: string, o1: Options, o2: Options)
    requires Argv(exe, o1) == Argv(exe, o2)
    ensures o1 == o2
  {
  }

  // ----- the checks -----

  const TargetRequired := "Target is required."
  const BadProtocol := "Invalid protocol. Must be \"tcp\" or \"udp\"."
  const BadStreams := "Streams must be a positive integer."

  /** How `run_iperf` ends: refused with status 400, accepted with the options of its command,
      or raised (status 500). */
  datatype Verdict = Rejected(error: string) | Accepted(options: Options) | Raised

  /** The three checks in order, then the command; a target that is a number passes the check
      but makes quoting the command raise. */
  function Check(p: Parsed): (v: Verdict)
    ensures v.Rejected? ==> v.error == TargetRequired || v.error == BadProtocol || v.error == BadStreams
    ensures v.Accepted? ==> v.options.target != [] && v.options.streams >= 1
  {
    if !Truthy(p.target) then Rejected(TargetRequired)
    else if p.protocol != "tcp" && p.protocol != "udp" then Rejected(BadProtocol)
    else if p.streams <= 0 then Rejected(BadStreams)
    else if !p.target.Str? then Raised
    else
      Accepted(Options(p.target.s, p.port, p.streams, p.interval, p.duration, p.connectTimeoutMs,
                       if p.protocol == "udp" then Some(p.bandwidth) else None,
                       p.mode == "download"))
  }

  /** The whole of `run_iperf` up to starting the process: status 400 only for the three
      refusals, and an accepted command always has a target and at least one stream. */
  function Decide(req: Request, settings: Settings): (v: Verdict)
    ensures v.Rejected? ==> v.error == TargetRequired || v.error == BadProtocol || v.error == BadStreams
    ensures v.Accepted? ==> v.options.target != [] && v.options.streams >= 1
    ensures v.Accepted? ==> Or(req.target, Str("")).Str? && v.options.target == Or(req.target, Str("")).s
  {
    match ParseRequest(req, settings)
    case None => Raised
    case Some(p) => Check(p)
  }

  /** Each refusal has exactly its own cause, checked in the order target, protocol, streams;
      an accepted request has a target, a known protocol and at least one stream, and its
      command carries `-u -b` exactly for UDP and `-R` exactly for a download. */
  lemma CheckRules(p: Parsed)
    ensures Check(p) == Rejected(TargetRequired) <==> !Truthy(p.target)
    ensures Check(p) == Rejected(BadProtocol)
        <==> Truthy(p.target) && p.protocol != "tcp" && p.protocol != "udp"
    ensures Check(p) == Rejected(BadStreams)
        <==> Truthy(p.target) && (p.protocol == "tcp" || p.protocol == "udp") && p.streams <= 0
    ensures Check(p).Accepted? <==>
      p.target.Str? && p.target.s != [] && (p.protocol == "tcp" || p.protocol == "udp") && p.streams >= 1
    ensures Check(p).Accepted? ==>
      && Check(p).options.target == p.target.s
      && Check(p).options.streams == p.streams
      && (Check(p).options.udpBandwidth.Some? <==> p.protocol == "udp")
      && (Check(p).options.udpBandwidth.Some? ==> Check(p).options.udpBandwidth.value == p.bandwidth)
      && (Check(p).options.reverse <==> p.mode == "download")
      && Check(p).options.port == p.port && Check(p).options.interval == p.interval
      && Check(p).options.duration == p.duration && Check(p).options.connectTimeoutMs == p.connectTimeoutMs
  {
  }

  /** A request naming only its target runs a TCP upload with the saved port, one stream,
      one-second reports for ten seconds and a three-second connect timeout. */
  lemma TargetOnlyDefaults(t: string, settings: Settings, exe: string)
    requires t != []
    ensures Decide(Request(Str(t), Missing, Missing, Missing, Missing, Missing, Missing, Missing,
                           Missing, None, None), settings)
         == Accepted(Options(t, Show(settings.iperfPort), 1, "1", "10", "3000", None, false))
    ensures Argv(exe, Options(t, Show(settings.iperfPort), 1, "1", "10", "3000", None, false))
         == [exe, "-c", t, "-p", Show(settings.iperfPort), "-P", "1", "-i", "1", "-t", "10",
             "--json-stream", "--forceflush", "--connect-timeout", "3000"]
  {
    assert LowerStr("tcp") == "tcp";
    assert LowerStr("upload") == "upload";
  }

  /** Streams given as the number 0, as "" or not at all count as one stream (0 and "" are
      false in Python); any value that converts to 0 or less, such as the text "0", is refused. */
  lemma ZeroStreamsIsOne(req: Request, settings: Settings)
    requires req.streams == Num(0) || req.streams == Str("") || req.streams == Missing
    requires ParseRequest(req, settings).Some?
    ensures ParseRequest(req, settings).value.streams == 1
    ensures Check(ParseRequest(req, settings).value) != Rejected(BadStreams)
  {
  }

  /** A UDP download of a given bandwidth ends its command with `-u -b bandwidth -R`. */
  lemma UdpDownloadSuffix(req: Request, settings: Settings, exe: string)
    requires Decide(req, settings).Accepted?
    requires Lowered(Or(req.protocol, Str("tcp"))) == Some("udp")
    requires Lowered(Or(req.mode, Str("upload"))) == Some("download")
    ensures Argv(exe, Decide(req, settings).options)[15..]
         == ["-u", "-b", Show(Or(req.bandwidth, Str("0"))), "-R"]
  {
  }

  // ----- the run state -----

  /** The reply of `run_iperf`: the refusal message (status 400), the command line and log file
      of a started run (status 200), or an exception (status 500). */
  datatype Reply = BadRequest(error: string) | Started(cmd: string, logFile: string) | ServerError

  /** The lines a new run's queue opens with. */
  function StartLines(cmdLine: string, logFile: string): seq<EventStream.QueueItem>
  {
    [EventStream.Line("CMD: " + cmdLine), EventStream.Line("LOGFILE: " + logFile)]
  }

  /** The reply for a verdict. */
  function ReplyOf(v: Verdict, exe: string, logFile: string): Reply
  {
    match v
    case Rejected(e) => BadRequest(e)
    case Raised => ServerError
    case Accepted(o) => Started(Shell.CommandLine(Argv(exe, o)), logFile)
  }

  /** The first lines of a run reach the browser as they are (stripped), ahead of any output,
      and do not end the stream. */
  lemma StartLinesForwarded(cmdLine: string, logFile: string, unit: string, streams: int)
    ensures EventStream.Stream(StartLines(cmdLine, logFile), unit, streams)
         == EventStream.Transcript(
              [EventStream.Data(Strip("CMD: " + cmdLine)), EventStream.Data(Strip("LOGFILE: " + logFile))],
              EventStream.Start)
  {
    var c := "CMD: " + cmdLine;
    var l := "LOGFILE: " + logFile;
    StripKeepsPrefix("CMD:", c);
    StripKeepsPrefix("LOGFILE:", l);
    var st := EventStream.Start;
    var e0 := EventStream.Read(EventStream.Line(c));
    var e1 := EventStream.Read(EventStream.Line(l));
    EventStream.TaggedForwarded(st, c, unit, streams);
    EventStream.TaggedForwarded(st, l, unit, streams);
    assert EventStream.Reads(StartLines(cmdLine, logFile)) == [e0, e1];
    assert [e0, e1][1..] == [e1] && [e1][1..] == [];
    assert EventStream.Run(st, [e1], unit, streams) == EventStream.Transcript([EventStream.Data(Strip(l))], st);
  }

  /** A queue closed by the end marker, whatever came before, ends the stream with the end
      frame `-1` as its last frame. */
  lemma FinishedRunEndsStream(lines: seq<EventStream.QueueItem>, unit: string, streams: int)
    ensures EventStream.Stream(lines + [EventStream.EndOfRun], unit, streams).state.stopped
    ensures var f := EventStream.Stream(lines + [EventStream.EndOfRun], unit, streams).frames;
      |f| > 0 && f[|f| - 1] == EventStream.EndMarker
  {
    var items := lines + [EventStream.EndOfRun];
    var events := EventStream.Reads(items);
    assert events == EventStream.Reads(lines) + [EventStream.Ended];
    EventStream.EndedStops(EventStream.Start, EventStream.Reads(lines), unit, streams);
    EventStream.ReadsWellRead(items);
    EventStream.EndMarkerOnlyAtEnd(EventStream.Start, events, unit, streams);
  }

  /** The statistics `api_stats` reports (the start time is not modelled). */
  datatype Stats = Stats(
    iface: string, running: bool, unit: string, streams: int,
    link: Counters.LinkInfo, counters: Counters.CounterReading, delta: map<string, int>)

  /**
    The backend's run state: the globals `_running`, `_selected_unit`, `_streams`, `_iface` and
    `_baseline_counters`, and what has been put into the current run's output queue.
   */
  class Runner {
    var running: bool
    var selectedUnit: string
    var streams: int
    var iface: string
    var queue: seq<EventStream.QueueItem>
    var baseline: map<string, int>

    constructor ()
      ensures !running && selectedUnit == "Mbits" && streams == 1 && iface == ""
      ensures queue == [] && baseline == map[]
    {
      running := false;
      selectedUnit := "Mbits";
      streams := 1;
      iface := "";
      queue := [];
      baseline := map[];
    }

    /**
      `run_iperf` with the request body `req`, the saved settings, the `iperf3` program `exe`
      and the new log file. The stream count, unit and interface are stored before the checks,
      so a refused request changes them too; only an accepted one resets the run.
     */
    method RunIperf(req: Request, settings: Settings, exe: string, logFile: string)
      returns (reply: Reply)
      modifies this
      ensures reply == ReplyOf(Decide(req, settings), exe, logFile)
      ensures ParseRequest(req, settings).None? ==>
        && streams == old(streams) && selectedUnit == old(selectedUnit) && iface == old(iface)
      ensures ParseRequest(req, settings).Some? ==>
        && streams == ParseRequest(req, settings).value.streams
        && selectedUnit == ParseRequest(req, settings).value.unit
        && iface == ParseRequest(req, settings).value.iface
      ensures !Decide(req, settings).Accepted? ==>
        running == old(running) && queue == old(queue) && baseline == old(baseline)
      ensures Decide(req, settings).Accepted? ==>
        && running && baseline == map[]
        && queue == StartLines(Shell.CommandLine(Argv(exe, Decide(req, settings).options)), logFile)
    {
      var p := ReadBody(req, settings);
      if p.None? {
        return ServerError;
      }
      reply := CheckAndStart(p.value, exe, logFile);
    }

    /** Reading the request body: the stream count, unit and interface are stored as soon as
        they are read, before any check; a body Python raises on leaves them as they were. */
    method ReadBody(req: Request, settings: Settings) returns (p: Option<Parsed>)
      modifies this
      ensures p == ParseRequest(req, settings)
      ensures p.None? ==> streams == old(streams) && selectedUnit == old(selectedUnit) && iface == old(iface)
      ensures p.Some? ==> streams == p.value.streams && selectedUnit == p.value.unit && iface == p.value.iface
      ensures running == old(running) && queue == old(queue) && baseline == old(baseline)
    {
      var protocol := Lowered(Or(req.protocol, Str("tcp")));
      if protocol.None? {
        return None;
      }
      var mode := Lowered(Or(req.mode, Str("upload")));
      if mode.None? {
        return None;
      }
      var target := Or(req.target, Str(""));
      var port := Show(Or(req.port, settings.iperfPort));
      var n := ToInt(Or(req.streams, Num(1)));
      if n.None? {
        return None;
      }
      streams := n.value;
      var bandwidth := Show(Or(req.bandwidth, Str("0")));
      selectedUnit := OrText(req.units, "Mbits");
      iface := OrText(req.iface, settings.defaultIface);
      var duration := Show(Or(req.duration, Str("10")));
      var interval := Show(Or(req.interval, Str("1")));
      var timeout := Show(Or(req.connectTimeoutMs, Str("3000")));
      p := Some(Parsed(protocol.value, mode.value, target, port, streams, bandwidth,
                       selectedUnit, iface, duration, interval, timeout));
    }

    /** The three checks in order, then the command and the reset of the run state. */
    method CheckAndStart(p: Parsed, exe: string, logFile: string) returns (reply: Reply)
      modifies this
      ensures reply == ReplyOf(Check(p), exe, logFile)
      ensures streams == old(streams) && selectedUnit == old(selectedUnit) && iface == old(iface)
      ensures !Check(p).Accepted? ==>
        running == old(running) && queue == old(queue) && baseline == old(baseline)
      ensures Check(p).Accepted? ==>
        && running && baseline == map[]
        && queue == StartLines(Shell.CommandLine(Argv(exe, Check(p).options)), logFile)
    {
      if !Truthy(p.target) {
        return BadRequest(TargetRequired);
      }
      if p.protocol != "tcp" && p.protocol != "udp" {
        return BadRequest(BadProtocol);
      }
      if p.streams <= 0 {
        return BadRequest(BadStreams);
      }
      if !p.target.Str? {
        return ServerError;
      }
      var o := Options(p.target.s, p.port, p.streams, p.interval, p.duration, p.connectTimeoutMs,
                       if p.protocol == "udp" then Some(p.bandwidth) else None,
                       p.mode == "download");
      assert Check(p) == Accepted(o);
      var cmd := BuildArgv(exe, o);
      var cmdLine := Shell.CommandLine(cmd);
      StartRun(cmdLine, logFile);
      reply := Started(cmdLine, logFile);
    }

    /** A new run: running, no baseline yet, and a fresh queue holding the command line and
        the log file's name. */
    method StartRun(cmdLine: string, logFile: string)
      modifies this
      ensures running && baseline == map[] && queue == StartLines(cmdLine, logFile)
      ensures streams == old(streams) && selectedUnit == old(selectedUnit) && iface == old(iface)
    {
      running := true;
      baseline := map[];
      queue := StartLines(cmdLine, logFile);
    }

    /** The worker's first line. */
    method WorkerStarted()
      modifies this
      ensures queue == old(queue) + [EventStream.Line("WORKER: started")]
      ensures running == old(running) && baseline == old(baseline)
      ensures selectedUnit == old(selectedUnit) && streams == old(streams) && iface == old(iface)
    {
      queue := queue + [EventStream.Line("WORKER: started")];
    }

    /** The worker reads the counters of the run's interface as the baseline; a failed read
        leaves none. */
    method CaptureBaseline(runIface: string, code: int, out: string)
      modifies this
      ensures baseline == (if runIface != "" && code == 0 then Counters.CountersOf(SplitLines(out)) else map[])
      ensures running == old(running) && queue == old(queue)
      ensures selectedUnit == old(selectedUnit) && streams == old(streams) && iface == old(iface)
    {
      var base := Counters.GetCounters(runIface, code, out);
      baseline := if base.ok then base.counters else map[];
    }

    /** The worker has started `iperf3` as process `pid`. */
    method ProcessStarted(pid: int)
      modifies this
      ensures queue == old(queue) + [EventStream.Line("WORKER: iperf pid=" + IntToString(pid))]
      ensures running == old(running) && baseline == old(baseline)
      ensures selectedUnit == old(selectedUnit) && streams == old(streams) && iface == old(iface)
    {
      queue := queue + [EventStream.Line("WORKER: iperf pid=" + IntToString(pid))];
    }

    /** `iperf3` has exited with `code`: a failure is reported, then the queue is closed and the
        run is over. */
    method FinishRun(code: int)
      modifies this
      ensures code != 0 ==>
        queue == old(queue) + [EventStream.Line("iperf3 exited with code " + IntToString(code)), EventStream.EndOfRun]
      ensures code == 0 ==> queue == old(queue) + [EventStream.EndOfRun]
      ensures !running && baseline == old(baseline)
      ensures selectedUnit == old(selectedUnit) && streams == old(streams) && iface == old(iface)
    {
      if code != 0 {
        queue := queue + [EventStream.Line("iperf3 exited with code " + IntToString(code))];
      }
      queue := queue + [EventStream.EndOfRun];
      running := false;
    }

    /** The worker failed with `message`: the error is reported, then the queue is closed and
        the run is over. */
    method AbortRun(message: string)
      modifies this
      ensures queue == old(queue) + [EventStream.Line("ERROR: " + message), EventStream.EndOfRun]
      ensures !running && baseline == old(baseline)
      ensures selectedUnit == old(selectedUnit) && streams == old(streams) && iface == old(iface)
    {
      queue := queue + [EventStream.Line("ERROR: " + message)];
      queue := queue + [EventStream.EndOfRun];
      running := false;
    }

    /**
      `api_stats` with the `iface` query argument `argIface` ("" when absent); `ethtool` on the
      chosen interface exits with `linkCode` printing `linkOut`, `ethtool -S` with `code`
      printing `out`. The delta is taken against the run's baseline.
     */
    method ApiStats(argIface: string, linkCode: int, linkOut: string, code: int, out: string)
      returns (r: Stats)
      ensures r.iface == (if argIface != "" then argIface else iface)
      ensures r.running == running && r.unit == selectedUnit && r.streams == streams
      ensures r.link == Counters.GetLinkInfo(r.iface, linkCode, linkOut)
      ensures r.iface == "" ==> r.counters == Counters.CounterReading(false, Some("no iface"), map[])
      ensures r.iface != "" && code == 0 ==>
        r.counters == Counters.CounterReading(true, None, Counters.CountersOf(SplitLines(out)))
      ensures r.iface != "" && code != 0 ==> r.counters == Counters.CounterReading(false, Some(out), map[])
      ensures r.counters.ok ==> r.delta == Counters.Delta(r.counters.counters, baseline)
      ensures !r.counters.ok ==> r.delta == map[]
    {
      var chosen := if argIface != "" then argIface else iface;
      var link := Counters.GetLinkInfo(chosen, linkCode, linkOut);
      var now := Counters.GetCounters(chosen, code, out);
      var delta := Counters.ComputeDelta(now, baseline);
      r := Stats(chosen, running, selectedUnit, streams, link, now, delta);
    }
  }
}
