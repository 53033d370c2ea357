# iperf3 web runner: the back end's rules, modelled and proved in Dafny

The back end (`APP/app.py`) starts `iperf3` for a browser client. It relays the tool's output as a
server-sent event stream and answers polls about the chosen network interface. This project
models the deterministic rules inside that back end and proves what they promise:

- **Bandwidth** — `BW_RE` and `convert_bandwidth` / `bps_to_selected_unit`. The regular
  expression `(\d+(?:\.\d+)?)\s*(K|M|G)bits/sec` (case-insensitive) is modelled exactly, except
  that digits and case are those of ASCII. A greedy matcher is proved to agree with a
  declarative description of a match, and the search is proved to return the leftmost match.
  Numbers are `real`; every factor is an exact power of ten.
- **JsonStream** — `extract_interval_bps`. The priority order `sum_received`, `sum`, `sum_sent`,
  then the total of the per-stream values, over a JSON value datatype.
- **Counters** — `linux_counters` (a loop filling a map from `ethtool -S` text), the `api_stats`
  delta loop, `linux_link_info` and its `grab`, and `get_link_info` / `get_counters`.
- **Shell** — `_cmd_str` off Windows: `shlex.quote` and `" ".join`. The shown command line is
  proved to split back, as a POSIX shell reads it, into exactly the argument list.
- **Launch** — `run_iperf`:
  - the defaults, the three 400 rejections and the one request that raises;
  - the argument list, with an inverse that decodes it;
  - the module globals, as a class `Runner` whose methods are `run_iperf`, the worker's queue
    writes and `api_stats`.
- **EventStream** — the `generate` loop of `stream_iperf`. Each queue read is classified, and a
  step function gives the frames it yields and the new state (the last figure shown, and whether
  the stream has ended). A fold of that step is the specification of the imperative loop.
- **Text** and **Wrappers** — the Python string operations the code relies on (`strip`, `lower`,
  `splitlines`, `int()`, `str()` of an integer), and Option/Result.

Details of the code that the model keeps as written:

- **Which bandwidth match counts.** The back end uses `BW_RE.search`, which takes the first
  bandwidth figure of a line, not the last (`Bandwidth.FirstFigureCounts`).
- **What the counter delta is taken against.** `api_stats` subtracts the baseline captured when
  the run started, not the previous poll, and a counter missing from that baseline gets 0
  (`Counters.Delta`).
- **Zero streams.** Streams given as the number `0`, as `""` or not at all are false in Python, so
  `int(x or 1)` makes them 1; any value that converts to 0 or less, such as the text `"0"`, is
  rejected (`Launch.ZeroStreamsIsOne`, `Launch.CheckRules`).
- **Globals before validation.** `_streams`, `_selected_unit` and `_iface` are assigned before
  validation, so a rejected request still changes them (`Launch.Runner.RunIperf`).

One detail is modelled as evidently intended, not as written (see "## Findings"): `grab` in
`linux_link_info` searches `^Key:`, which misses `ethtool`'s tab-indented fields. The model's
`Counters.Grab` uses `^[ \t]*Key:`, and `Counters.LinuxLinkInfo`, `Counters.GetLinkInfo` and
`Launch.Runner.ApiStats` are built on it; `Counters.GrabAsWritten` keeps the pattern as written.

## Model

| member | source | states |
|---|---|---|
| Text.LowerStr | APP/app.py:514-515 | `lower()` keeps the length and lowers every character in place |
| Text.IsInfix | APP/app.py:742-749 | `sub in s` only when `s` is at least as long as `sub` |
| Text.InfixAt | APP/app.py:742-749 | a text occurring at some position of `s` is `in` `s` |
| Text.InfixPosition | APP/app.py:742-749 | `sub in s` holds only when `sub` occurs at some position of `s`: the position is given |
| Text.NotInfixAt | APP/app.py:340 | a text that is not `in` `s` occurs at no position of `s` |
| Text.StripLeft | APP/app.py:210 | the result is a suffix of the input, starts with no whitespace, and only whitespace was removed |
| Text.StripRight | APP/app.py:210 | the result is a prefix of the input, ends with no whitespace, and only whitespace was removed |
| Text.Strip | APP/app.py:725 | `strip()` is no longer than its input and neither starts nor ends with whitespace |
| Text.StripUnchanged | APP/app.py:725 | a text with no whitespace at either end is left as it is |
| Text.StripLeftPadded | APP/app.py:210 | leading whitespace before a non-space is removed exactly |
| Text.StripRightPadded | APP/app.py:210 | trailing whitespace after a non-space is removed exactly |
| Text.StripPadded | APP/app.py:359 | whitespace on both sides of a text is removed exactly |
| Text.StripKeepsPrefix | APP/app.py:725-731 | a prefix with no whitespace at its ends survives `strip()` |
| Text.DigitRun | APP/app.py:73 | `\d+` runs to the first non-digit |
| Text.DigitRunEnds | APP/app.py:73 | the digit run ends exactly where the digits stop |
| Text.SpaceRun | APP/app.py:73 | `\s*` runs to the first non-space |
| Text.SpaceRunEnds | APP/app.py:73 | the space run ends exactly where the spaces stop |
| Text.DecimalValue | APP/app.py:213 | `float()` of digits is never negative |
| Text.DigitChar | APP/app.py:540 | the digit written for `n < 10` has value `n` |
| Text.NatToString | APP/app.py:540 | `str(n)` is a non-empty digit string with value `n`, with no leading zero unless `n` is 0 |
| Text.Ungroup | APP/app.py:362 | `int()` keeps only digits, and leaves a plain digit string as it is; `UngroupSeparator` says which digits remain around a separator |
| Text.UngroupAppend | APP/app.py:362 | dropping the separators works piece by piece: the digits of `a + b` are those of `a`, then those of `b` |
| Text.UngroupSeparator | APP/app.py:362 | an `_` between two groups is dropped and both groups keep their digits, in order |
| Text.ParseInt | APP/app.py:362 | `int()` of a blank text fails |
| Text.ParseIntOfIntToString | APP/app.py:521 | `int(str(i)) == i` for every integer |
| Text.LineEnd | APP/app.py:356 | a line runs to the first line break |
| Text.SplitLines | APP/app.py:356 | `splitlines()` yields lines without line breaks, and none exactly for the empty text; `SplitLinesOne`, `SplitLinesCons` and `SplitLinesCrLf` tie the lines to the text |
| Text.LineEndAt | APP/app.py:356 | the line that starts at `i` ends at the first line break at or after `i` |
| Text.SplitLinesOne | APP/app.py:356 | a non-empty text without line breaks is exactly one line, itself |
| Text.SplitLinesCons | APP/app.py:356 | a break-free line ended by one break character (not a `\r` before `\n`) is the first line, and the rest is split on its own |
| Text.SplitLinesCrLf | APP/app.py:356 | `\r\n` ends a line as one break, and the rest is split on its own |
| Bandwidth.NormalizeUnit | APP/app.py:219-224 | after `strip()`, Kbits/Kbps give Kbits and Gbits/Gbps give Gbits; anything else gives Mbits |
| Bandwidth.IntDigits | APP/app.py:213 | group 1's integer part is digits |
| Bandwidth.FracDigits | APP/app.py:213 | group 1's fraction is digits |
| Bandwidth.MatchesAt | APP/app.py:73 | the declarative pattern: a match lies inside the text, starts with a digit and ends with the `c` (or `C`) of `bits/sec` |
| Bandwidth.BitsPerSecond | APP/app.py:213-217 | a matched figure times its prefix factor is never negative |
| Bandwidth.FracEnd | APP/app.py:73 | `(?:\.\d+)?` takes a dot only when digits follow, and then all of them |
| Bandwidth.MatchAt | APP/app.py:73 | a match found at a position satisfies the regular expression there |
| Bandwidth.PrefixNotDigitOrSpace | APP/app.py:73 | the K/M/G prefix cannot be part of the figure or the spaces |
| Bandwidth.MatchAtComplete | APP/app.py:73 | every match at a position is the one the matcher finds (the match is unique) |
| Bandwidth.Attempts | APP/app.py:210 | trying each position from `i` on yields only matches at that position |
| Bandwidth.AttemptHere | APP/app.py:210 | a match at a position is found by the attempt there |
| Bandwidth.AttemptFinds | APP/app.py:210 | a match at or after `i` appears in the attempts from `i` |
| Bandwidth.FirstHit | APP/app.py:210 | the first successful attempt, with none before it |
| Bandwidth.Search | APP/app.py:210 | `search` returns only real matches |
| Bandwidth.SearchSound | APP/app.py:210 | the match returned is a match, and no match starts earlier |
| Bandwidth.FirstHitIs | APP/app.py:210 | the earliest success is the first hit |
| Bandwidth.SearchComplete | APP/app.py:210 | the leftmost match is the one returned |
| Bandwidth.SearchNone | APP/app.py:210-211 | with no match anywhere, `search` returns none |
| Bandwidth.ConvertBandwidth | APP/app.py:209-225 | no match gives 0.0; otherwise result × target factor = figure × prefix factor; never negative |
| Bandwidth.BpsToSelectedUnit | APP/app.py:230-237 | result × target factor = the bit rate, with the same sign |
| Bandwidth.DivideByFactor | APP/app.py:237 | dividing by a unit's factor is undone by multiplying by it, and keeps the sign |
| Bandwidth.ConvertIsBpsToSelectedUnit | APP/app.py:209-237 | `convert_bandwidth` equals `bps_to_selected_unit` of the matched figure |
| Bandwidth.ShiftedMatches | APP/app.py:772 | the matched text on its own still matches, at position 0 |
| Bandwidth.ShiftedDigits | APP/app.py:772 | the cut-out match keeps the figure's digits |
| Bandwidth.ShiftedTail | APP/app.py:772 | the cut-out match keeps its spaces and its `bits/sec` unit, with the same prefix letter |
| Bandwidth.SameFigure | APP/app.py:213-217 | equal digits and prefix give equal bit rates |
| Bandwidth.MatchedTextMatches | APP/app.py:772 | `m.group(0)` on its own matches with the same bit rate |
| Bandwidth.ConvertMatchedText | APP/app.py:770-772 | converting `m.group(0)` gives the line's first figure in the selected unit |
| Bandwidth.MatchedTextStripped | APP/app.py:210 | the matched text has nothing to strip |
| Bandwidth.AliasesAgree | APP/app.py:219-220 | Kbps/Mbps/Gbps are the same units as Kbits/Mbits/Gbits |
| Bandwidth.ConvertLeadingFigure | APP/app.py:209-225 | a line that starts with a figure converts that figure |
| Bandwidth.Match941 | APP/app.py:73 | "941 Mbits/sec" matches at 0 with 941000000 bit/s |
| Bandwidth.Example941 | APP/app.py:209-225 | "941 Mbits/sec" converts to 941000000 divided by the target factor (941 Mbits, 0.941 Gbits, 941000 Kbits) |
| Bandwidth.Match5 | APP/app.py:73 | "5 Kbits/sec 7 Gbits/sec" matches at 0 with 5000 bit/s |
| Bandwidth.FirstFigureCounts | APP/app.py:210 | with two figures on a line, the first one is used |
| JsonStream.Get | APP/app.py:243 | `dict.get` of a missing key is `None` |
| JsonStream.Bps | APP/app.py:243-248 | `_bps` gives a value exactly for an object whose `bits_per_second` is a number (bools included) |
| JsonStream.StreamValues | APP/app.py:266-270 | the numeric per-stream values, no more than the streams |
| JsonStream.StreamsTotal | APP/app.py:264-272 | a total exists exactly for a list with at least one numeric stream, and is their sum |
| JsonStream.ExtractIntervalBps | APP/app.py:239-274 | a non-dict gives None; a numeric `sum_received` wins outright |
| JsonStream.FirstPresent | APP/app.py:250-272 | the first present candidate, none being present before it |
| JsonStream.ExtractIsFirstPresent | APP/app.py:239-274 | the result is the first present of sum_received, sum, sum_sent and the stream total, and None exactly when none is present |
| JsonStream.SetField | APP/app.py:243 | setting a key changes that key only |
| JsonStream.HigherPriorityDominates | APP/app.py:250-262 | once a field is present, changing any lower-priority field does not change the result |
| JsonStream.OtherSumFieldsIgnored | APP/app.py:253-257 | the `sender` flag and every other field of `sum` do not change the result |
| JsonStream.StreamValuesAppend | APP/app.py:266-270 | the stream values of two lists concatenate |
| JsonStream.SumAppend | APP/app.py:272 | the sum of concatenated values adds |
| JsonStream.StreamsAdd | APP/app.py:264-272 | the stream total of two lists is the sum of their totals |
| Counters.IndexOf | APP/app.py:359 | the first position of a character, or none when it is absent |
| Counters.ParseCounterLine | APP/app.py:357-362 | an accepted line has a colon and a whitelisted key |
| Counters.ParseLines | APP/app.py:356-364 | one parse per line, in order |
| Counters.CountersOfStep | APP/app.py:356-364 | each line adds its counter, replacing an earlier value, or changes nothing |
| Counters.CollectSnoc | APP/app.py:360-362 | one more parsed line sets its key to its value, overwriting, and an unparsed line changes nothing |
| Counters.LinuxCounters | APP/app.py:351-365 | the loop over the lines builds the counter map; a non-zero exit gives `ok=False`, the output as error and an empty map |
| Counters.CollectLastWins | APP/app.py:360-364 | a key is in the map exactly when some line sets it, and its value is the last line's |
| Counters.CollectKeysFromEntries | APP/app.py:360-364 | every key in the map comes from a parsed line |
| Counters.CountersWhitelisted | APP/app.py:76-80 | only keys of `LINUX_COUNTER_KEYS` are kept |
| Counters.FirstColon | APP/app.py:359 | `split(":", 1)` cuts at the first colon |
| Counters.ParseCounterLineRoundTrip | APP/app.py:357-364 | an indented `key: n` line with a whitelisted key reads as `(key, n)` |
| Counters.SpacedIntReadsBack | APP/app.py:362 | `int()` of a stripped `" n"` is `n` |
| Counters.KeysHaveNoColonOrSpace | APP/app.py:76-80 | the whitelisted keys have no colon and no whitespace at their ends |
| Counters.ComputeDelta | APP/app.py:475-483 | the loop builds the delta of an ok reading against the baseline; a failed reading gives an empty delta |
| Counters.Delta | APP/app.py:475-483 | the delta has exactly the current keys; baseline + delta = now for a key the baseline has; a key missing from the baseline gets 0 |
| Counters.DeltaOfSelf | APP/app.py:478-481 | counters against themselves give 0 everywhere |
| Counters.DeltaNonNegative | APP/app.py:475-483 | counters that did not go down give no negative delta |
| Counters.BlankRun | APP/app.py:340 | `[ \t]*` runs to the first non-blank |
| Counters.BlankRunEnds | APP/app.py:340 | the blank run ends exactly where the blanks stop |
| Counters.NewlineEnd | APP/app.py:340 | `(.*)$` runs to the next newline |
| Counters.NewlineEndEnds | APP/app.py:340 | the line ends exactly at the next newline |
| Counters.KeyAt | APP/app.py:340 | the key's end, when the key and a colon start a line at `p` |
| Counters.FindKeyLine | APP/app.py:340 | `re.search` with `MULTILINE` finds the first line that starts with the key |
| Counters.GrabField | APP/app.py:339-341 | when the key line starts at any line start `p`, after blanks for the corrected pattern, and no earlier line start opens with the key, the grabbed text is the value, stripped |
| Counters.KeyOnLine | APP/app.py:340 | a key at the start of a line (after its blanks, for the corrected pattern), with no earlier line opening with it, is found on that line, ending where the key and colon end |
| Counters.FindKeyLineAt | APP/app.py:340 | the search from `p0` finds the line start `p` when `p` opens with the key and no line start in between does |
| Counters.ValueOnLine | APP/app.py:340-341 | the value runs from after the spaces to the end of the line, with nothing to strip |
| Counters.GrabOfLine | APP/app.py:340-341 | on the line the search finds, the grabbed text is the rest after the key, the colon and the spaces, up to the end of the line |
| Counters.GrabAsWrittenNoLine | APP/app.py:340-341 | when no line start opens with `key:`, `grab` as written gives "" |
| Counters.TabIndentedField | APP/app.py:339-341 | on a tab-indented `key: value` line, the pattern as written gives "" and the corrected one gives `value` |
| Counters.HeadedTabIndentedField | APP/app.py:335-341 | on `ethtool`'s layout, a heading line without `key:` followed by a tab-indented `key: value` line, the pattern as written gives "" and the corrected one gives `value` |
| Counters.HeadedAsWrittenMisses | APP/app.py:340-341 | on that layout, no line start opens with `key:`, so the pattern as written gives "" |
| Counters.HeadedIndentedReads | APP/app.py:340-341 | on that layout, the corrected pattern reads the value |
| Counters.IndentedFieldAfterHeading | APP/app.py:340-341 | the corrected pattern reads the value from any text laid out as a heading, a newline, a tab and `key: value` |
| Counters.HeadingHasNoKey | APP/app.py:340 | no line start inside the heading opens with `key:`, with or without leading blanks |
| Counters.LinuxLinkInfo | APP/app.py:334-349 | a non-zero exit, and only that, gives the failure with the output; otherwise the four fields, each read with the corrected pattern `^[ \t]*Key:` (`Grab`), not the `^Key:` as written |
| Counters.GetLinkInfo | APP/app.py:409-412 | no interface gives the "no iface" failure; otherwise the Linux link reading, with the corrected `^[ \t]*Key:` pattern |
| Counters.GetCounters | APP/app.py:414-417 | no interface gives "no iface" with an empty map; otherwise the Linux counter reading |
| EventStream.BareNumberValue | APP/app.py:760-762 | `float()` of an unsigned bare number is not negative |
| EventStream.IsTagged | APP/app.py:731 | a tagged line opens with `CMD:`, `LOGFILE:` or `WORKER:`, so it starts with C, L or W |
| EventStream.IsFailure | APP/app.py:742-749 | a failure text holds `iperf3:` at its start or one of the five failure phrases, so it has at least six characters |
| EventStream.IsBusy | APP/app.py:755 | a busy text holds "server is busy" or "unable to send control message" |
| EventStream.IsBareNumber | APP/app.py:760 | a bare number `-?\d+(\.\d+)?` starts with a minus or a digit and ends with a digit |
| EventStream.Classify | APP/app.py:725-785 | empty exactly when blank; tagged exactly for `CMD:`/`LOGFILE:`/`WORKER:`; numbers and rates carry the parsed figure; no forwarded text is "-1" |
| EventStream.Read | APP/app.py:714-727 | a forwarded line is never the end marker "-1" |
| EventStream.Reads | APP/app.py:713-727 | one event per queue read, in order |
| EventStream.Step | APP/app.py:713-785 | one loop pass: the stream stops exactly at the end of the run, a worker error or an iperf3 failure; the figure changes only for a number or a rate line; at most two frames, and none exactly for a blank line |
| EventStream.Run | APP/app.py:712-785 | the fold of the steps: nothing is read after a stop, and at most two frames per read |
| EventStream.Stream | APP/app.py:703-785 | the stream of a run's queue reads: nothing for no reads, and at most two frames per read |
| EventStream.Emit | APP/app.py:714-785 | the loop body yields exactly the frames and state of one step |
| EventStream.Generate | APP/app.py:703-785 | the loop yields the three opening frames, then the frames of the fold over the reads, and ends in the fold's state |
| EventStream.RunOne | APP/app.py:712-785 | reading one more event appends its step's frames |
| EventStream.RunRest | APP/app.py:721-752 | after the stream stops, nothing more is read |
| EventStream.EndedStops | APP/app.py:721-723 | whatever was read before, the worker's final `None` leaves the stream stopped |
| EventStream.TaggedForwarded | APP/app.py:731-733 | a tagged line is forwarded as it is, and the stream goes on, before any error check |
| EventStream.TimeoutPings | APP/app.py:716-719 | a read that timed out sends a keep-alive ping and changes nothing |
| EventStream.EndOfRunEnds | APP/app.py:721-723 | the worker's `None` sends "-1" and stops the stream |
| EventStream.BlankLineSkipped | APP/app.py:725-727 | a line that is blank once stripped sends nothing and changes nothing |
| EventStream.ErrorPrefixEnds | APP/app.py:736-739 | an untagged line whose lower-cased text starts with `error:` is forwarded stripped, then "-1", and the stream stops |
| EventStream.FailureTextEnds | APP/app.py:742-752 | an untagged non-`error:` line with a failure text is sent as `ERROR: ` and the line, then "-1", and the stream stops |
| EventStream.BusyContinues | APP/app.py:755-757 | a busy line that is no failure sends exactly "server is busy" and the stream goes on unchanged |
| EventStream.RateLineShown | APP/app.py:770-782 | a rate line shows `convert_bandwidth` of its match and keeps it when it is the receiver's `[SUM]` line or the run has one stream; otherwise it re-sends the last figure and changes nothing |
| EventStream.RateLineClassified | APP/app.py:770-772 | a non-blank line that is not tagged, no `error:` line, no failure or busy text and no bare number, and that holds a bandwidth match, is a rate line |
| EventStream.StepOfRate | APP/app.py:773-782 | the step of any rate event, by its summary flag and the stream count |
| EventStream.OtherTextForwarded | APP/app.py:785 | a non-blank line that none of the rules takes is forwarded stripped and the stream goes on |
| EventStream.ErrorBeforeFailure | APP/app.py:736-752 | "error: connection failed" holds a failure text yet is forwarded unchanged before "-1": the `error:` check comes first |
| EventStream.ErrorLineFacts | APP/app.py:736-749 | "error: connection failed" is untouched by `strip()` and `lower()`, is untagged, starts with `error:` and holds "failed" |
| EventStream.IperfPrefixIsFailure | APP/app.py:742-752 | a line starting `iperf3:` yields `ERROR: line`, then "-1", and stops |
| EventStream.RateIsConvertedMatch | APP/app.py:770-772 | the figure shown for a rate line is `convert_bandwidth` of `m.group(0)` |
| EventStream.BareNumberShown | APP/app.py:759-767 | a bare number that is no failure or busy text is shown as its value |
| EventStream.StepEndMarker | APP/app.py:716-752 | a step stops the stream exactly when it ends with "-1", and "-1" comes only last |
| EventStream.LastValueAppend | APP/app.py:709-781 | the last figure shown after two pieces is found from the first's |
| EventStream.StepLastValue | APP/app.py:759-781 | `last_val` after a step is the last figure it showed |
| EventStream.StoppedReadsNothing | APP/app.py:723 | a stopped stream yields nothing more |
| EventStream.RunAppend | APP/app.py:712-785 | reading two pieces of the queue is reading the first, then the second from where it left off |
| EventStream.RunLastValue | APP/app.py:709-781 | `last_val` is always the last figure shown |
| EventStream.EndsProperlyConcat | APP/app.py:712-785 | an unfinished piece followed by a properly ending one ends properly |
| EventStream.EndMarkerOnlyAtEnd | APP/app.py:716-752 | "-1" appears only as the last frame, and exactly when the stream stopped |
| EventStream.ReadsWellRead | APP/app.py:713-727 | every queue read gives a well-formed event |
| EventStream.PerStreamLinesHoldFigure | APP/app.py:773-781 | with several streams, per-stream rate lines re-show the previous figure and change nothing |
| EventStream.RunShape | APP/app.py:703-785 | any stream opens with the three preamble frames, ends with "-1" exactly when stopped, and keeps `last_val` as the last figure |
| EventStream.StreamShape | APP/app.py:703-785 | the same for any sequence of queue reads |
| Shell.EscapeQuotes | APP/app.py:505 | escaping never shortens a word |
| Shell.Quote | APP/app.py:505 | `shlex.quote` gives the word itself or a text in single quotes, never empty |
| Shell.QuoteAll | APP/app.py:505 | one quoted word per argument |
| Shell.QuoteUnchanged | APP/app.py:505 | `shlex.quote` leaves a word as it is exactly when it is non-empty and all safe characters |
| Shell.LexAppend | APP/app.py:502-505 | reading a line in two pieces is reading the first, then the second |
| Shell.LexSafe | APP/app.py:505 | safe characters outside quotes extend the word |
| Shell.LexQuotedQuote | APP/app.py:505 | `'"'"'` inside single quotes reads as one quote |
| Shell.LexEscaped | APP/app.py:505 | an escaped word inside single quotes reads as the word |
| Shell.QuoteRead | APP/app.py:505 | every quoted word reads back as the word |
| Shell.WordRead | APP/app.py:505 | a quoted word at a word start reads as that word |
| Shell.WordSpaceRead | APP/app.py:505 | a quoted word followed by a space is one completed word |
| Shell.JoinStep | APP/app.py:505 | the first joined quoted word is completed at its space |
| Shell.JoinCons | APP/app.py:505 | `" ".join` puts one space between a word and the rest |
| Shell.JoinQuoted | APP/app.py:505 | the joined line is the first quoted word, a space, then the rest |
| Shell.JoinRead | APP/app.py:505 | the joined quoted words read back as exactly those words |
| Shell.Join | APP/app.py:505 | `" ".join` of a non-empty list opens with the first word |
| Shell.CommandLine | APP/app.py:502-505 | the shown command line splits, as a POSIX shell reads it, into exactly the argument list |
| Launch.ParseRequest | APP/app.py:513-531 | reading the request succeeds exactly when the protocol and mode are strings and streams converts with `int()` |
| Launch.Head | APP/app.py:540-544 | the fixed part of the command is fifteen words |
| Launch.Tail | APP/app.py:546-549 | the optional `-u -b bw` and `-R` decode back to the UDP bandwidth and the reverse flag |
| Launch.Argv | APP/app.py:540-549 | every argument list decodes back to the options it was built from |
| Launch.DecodeHeadOfHead | APP/app.py:540-544 | the fifteen fixed words decode back to their options |
| Launch.HeadInPieces | APP/app.py:540-544 | the fixed part is the pieces appended in order |
| Launch.BuildArgv | APP/app.py:540-549 | the appends build the argument list of the options |
| Launch.ArgvInjective | APP/app.py:540-549 | different options never give the same argument list |
| Launch.Check | APP/app.py:533-549 | a refusal is one of the three 400 errors; an accepted command has a non-empty target and at least one stream |
| Launch.Decide | APP/app.py:513-549 | the same for the whole request, and an accepted command's target is the request's target (or "") |
| Launch.CheckRules | APP/app.py:533-549 | each rejection happens exactly when its check fails first; a request is accepted exactly when the target is a non-empty string, the protocol is tcp/udp and streams ≥ 1; `-u -b` exactly for udp, `-R` exactly for download |
| Launch.TargetOnlyDefaults | APP/app.py:513-549 | a request with only a target runs `exe -c t -p port -P 1 -i 1 -t 10 --json-stream --forceflush --connect-timeout 3000` |
| Launch.ZeroStreamsIsOne | APP/app.py:521 | streams of 0, "" or missing become 1 and are never rejected |
| Launch.UdpDownloadSuffix | APP/app.py:546-549 | udp download ends in `-u -b bandwidth -R` (default bandwidth "0") |
| Launch.StartLinesForwarded | APP/app.py:575-576 | the `CMD:` and `LOGFILE:` lines reach the browser stripped, and the stream goes on |
| Launch.FinishedRunEndsStream | APP/app.py:682 | once the worker puts `None`, the stream ends with "-1" |
| Launch.Runner.constructor | APP/app.py:424-428 | the globals start not running, in Mbits, with 1 stream, no interface, an empty queue and baseline |
| Launch.Runner.RunIperf | APP/app.py:508-576 | the reply is the verdict's (400, 500 or started with the shown command); the globals change before validation; only an accepted run resets the queue to its `CMD:`/`LOGFILE:` lines and the baseline, and sets running |
| Launch.Runner.ReadBody | APP/app.py:513-531 | the request is read as `ParseRequest` says; the stream count, unit and interface are stored when it succeeds and the run state is untouched |
| Launch.Runner.CheckAndStart | APP/app.py:533-576 | the reply is the verdict's; only an accepted run resets the queue to its start lines and the baseline and sets running; the stored globals are untouched |
| Launch.Runner.StartRun | APP/app.py:562-576 | a new run is running, has no baseline and a queue holding exactly the `CMD:` and `LOGFILE:` lines |
| Launch.Runner.WorkerStarted | APP/app.py:584 | the worker's first line is queued and nothing else changes |
| Launch.Runner.CaptureBaseline | APP/app.py:586-593 | the baseline is the interface's counters when they can be read, else empty |
| Launch.Runner.ProcessStarted | APP/app.py:621 | the process id line is queued |
| Launch.Runner.FinishRun | APP/app.py:667-684 | a non-zero exit code is reported, then `None` is queued and the run is over |
| Launch.Runner.AbortRun | APP/app.py:673-684 | an exception is reported as `ERROR:`, then `None` is queued and the run is over |
| Launch.Runner.ApiStats | APP/app.py:469-500 | the query's interface or the run's; the globals as they are; the link reading (with the corrected `^[ \t]*Key:` pattern) and the counter reading; the delta against the baseline when the reading is ok, else empty |

## Left out

- HTTP routing, `jsonify`, `Response` and templates: only the decisions behind the routes are
  modelled; a reply is a datatype.
- Processes and commands (`run_cmd`, `subprocess.Popen`, `ethtool`, `stop_proc`): their exit code
  and output are parameters. The executable found by `iperf3_cmd` is a parameter `exe`.
- Threads, locks and `queue.Queue`: the queue is a sequence field of `Runner` and the stream
  reads a given sequence of queue reads. A timed-out read is one item. Concurrent runs, a stream
  still reading an old queue, and globals changing while a stream runs are not modelled; the
  unit and stream count are fixed parameters of one stream.
- `generate`'s `while True`: the model reads a finite sequence of queue reads. The exception
  handler that ends a broken stream and `GeneratorExit` are not modelled.
- The worker's handling of iperf3's JSON events (`interval`, `end`, `error`,
  `server_output_text`) and of non-JSON lines: their results reach the model as the queue lines
  they produce. `_decode_output`, the log files and the timestamps are left out.
- Settings loading: `iperf_port` and `default_iface` are parameters (`Settings`).
- Windows (`list2cmdline`, the PowerShell link and counter readings): only the Linux path is
  modelled.
- Python's rendering of a float in `f"{v}"`: a figure frame carries a `real`.
- Python's `float()` is modelled only for the bare numbers the classifier accepts, so its
  fallback to `last_val` cannot happen in the model.
- Unicode: digits (`\d`, `int()`) and letter case (`lower()`, `IGNORECASE`) are ASCII only, so
  non-ASCII digits and case matches such as the Kelvin sign for `K` are not modelled. Whitespace
  is Python's full `str.isspace()` set, as `strip()`, `int()` and `\s` use it: the ASCII
  whitespace, U+001C..U+001F, U+0085, U+00A0, U+1680, U+2000..U+200A, U+2028, U+2029, U+202F,
  U+205F and U+3000.
- Request bodies: a field is missing, a string or an integer. JSON floats, booleans, lists,
  objects and non-object bodies are not modelled, nor non-string `units` or `iface`.
- Launch.ParseRequest: only the cases where `lower()` or `int()` raise are reported, as no
  result; the exception itself is not modelled.
- `_test_started_at` and `started_at` in the stats reply: clock values.
- Counters.LinuxLinkInfo, Counters.GetLinkInfo and Launch.Runner.ApiStats read the link fields
  with the corrected pattern `^[ \t]*Key:`, so on `ethtool`'s tab-indented output they report
  the values where the code as written reports "" (`Counters.HeadedTabIndentedField`).
- Counters.Collect and Counters.CountersOf carry no contract of their own; what they compute is
  stated by `CollectLastWins`, `CollectKeysFromEntries`, `CountersWhitelisted` and
  `CountersOfStep`.

## Findings

| source | as written | input that shows it | evidently intended | confidence | as-written member | corrected member |
|---|---|---|---|---|---|---|
| APP/app.py:339-341 | `grab` searches `^Key:` with `MULTILINE`, so only a line that starts with the key itself matches | `ethtool` prints a heading line and then each field after a tab: `"Settings for eth0:\n\tSpeed: 1000Mb/s"` makes `grab("Speed")` return "" (so do Duplex, Link detected and Auto-negotiation) | allow leading blanks, `^[ \t]*Key:`, which gives "1000Mb/s" | high; not executed | Counters.HeadedTabIndentedField | Counters.LinuxLinkInfo |
