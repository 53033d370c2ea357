/**
  The throughput of one record of iperf3's `--json-stream` output (`extract_interval_bps`).

  A record's `data` object may carry the summaries `sum_received`, `sum` and `sum_sent` and a
  list `streams` of per-stream summaries; each summary may carry a numeric `bits_per_second`.
  The backend takes the first summary that has one, in that order, and otherwise adds up the
  per-stream figures.
 */
module JsonStream {
  import opened Wrappers

  /** A decoded JSON value as `json.loads` returns it. `JNull` also stands for a missing key,
      because `dict.get` answers `None` for both. */
  datatype Json =
    | JNull
    | JBool(b: bool)
    | JInt(i: int)
    | JFloat(f: real)
    | JString(s: string)
    | JArray(items: seq<Json>)
    | JObject(fields: map<string, Json>)

  /** `obj.get(key)` on a dict; `None` for a missing key. */
  function Get(obj: Json, key: string): (v: Json)
    requires obj.JObject?
    ensures key !in obj.fields ==> v == JNull
  {
    if key in obj.fields then obj.fields[key] else JNull
  }

  /** `isinstance(v, (int, float))`; a JSON boolean is a Python `bool`, which is an `int`. */
  predicate IsNumber(v: Json)
  {
    v.JInt? || v.JFloat? || v.JBool?
  }

  /** `float(v)` for a number. */
  function NumberValue(v: Json): real
    requires IsNumber(v)
  {
    match v
    case JInt(i) => i as real
    case JFloat(f) => f
    case JBool(b) => if b then 1.0 else 0.0
  }

  /** `_bps(obj)`: the numeric `bits_per_second` of a summary object, if it has one. */
  function Bps(obj: Json): (r: Option<real>)
    ensures r.Some? <==> obj.JObject? && IsNumber(Get(obj, "bits_per_second"))
    ensures r.Some? ==> r.value == NumberValue(Get(obj, "bits_per_second"))
  {
    if obj.JObject? && IsNumber(Get(obj, "bits_per_second")) then
      Some(NumberValue(Get(obj, "bits_per_second")))
    else None
  }

  /** The figures of the per-stream summaries that have one, in order (the list `vals`). */
  function StreamValues(items: seq<Json>): (vals: seq<real>)
    ensures |vals| <= |items|
    decreases |items|
  {
    if items == [] then []
    else
      var rest := StreamValues(items[..|items| - 1]);
      match Bps(items[|items| - 1])
      case Some(v) => rest + [v]
      case None => rest
  }

  /** `sum(vals)`, adding from the left. */
  function Sum(xs: seq<real>): real
    decreases |xs|
  {
    if xs == [] then 0.0 else Sum(xs[..|xs| - 1]) + xs[|xs| - 1]
  }

  /** The fallback over `streams`: nothing unless it is a non-empty list with at least one
      figure; then the sum, or the single figure when there is only one. */
  function StreamsTotal(streams: Json): (r: Option<real>)
    ensures r.Some? <==> streams.JArray? && StreamValues(streams.items) != []
    ensures r.Some? ==> r.value == Sum(StreamValues(streams.items))
  {
    if streams.JArray? && streams.items != [] then
      var vals := StreamValues(streams.items);
      if vals == [] then None
      else if |vals| > 1 then Some(Sum(vals))
      else
        assert vals[..0] == [];
        Some(vals[0])
    else None
  }

  /** `extract_interval_bps(data)`. */
  function ExtractIntervalBps(data: Json): (r: Option<real>)
    ensures !data.JObject? ==> r.None?
    ensures data.JObject? && Bps(Get(data, "sum_received")).Some? ==> r == Bps(Get(data, "sum_received"))
  {
    if !data.JObject? then None
    else
      var received := Bps(Get(data, "sum_received"));
      if received.Some? then received
      else
        var sum := Bps(Get(data, "sum"));
        if sum.Some? then
          // `sum`'s `sender` flag is read, but both of its branches return the same figure.
          var senderFlag := Get(Get(data, "sum"), "sender");
          if senderFlag == JBool(false) then sum else sum
        else
          var sent := Bps(Get(data, "sum_sent"));
          if sent.Some? then sent
          else StreamsTotal(Get(data, "streams"))
  }

  // ----- a reference statement of the precedence -----

  /** The first of a list of candidates that is present. */
  function FirstPresent(candidates: seq<Option<real>>): (r: Option<real>)
    ensures r.Some? <==> exists i :: 0 <= i < |candidates| && candidates[i].Some?
    ensures r.Some? ==> exists i :: 0 <= i < |candidates| && candidates[i] == r
                                  && forall j :: 0 <= j < i ==> candidates[j].None?
    decreases |candidates|
  {
    if candidates == [] then None
    else if candidates[0].Some? then candidates[0]
    else
      var r := FirstPresent(candidates[1..]);
      assert forall i :: 0 <= i < |candidates| - 1 ==> candidates[1..][i] == candidates[i + 1];
      r
  }

  /** The candidates of a record in the order the backend tries them. */
  function Candidates(data: Json): seq<Option<real>>
    requires data.JObject?
  {
    [Bps(Get(data, "sum_received")), Bps(Get(data, "sum")), Bps(Get(data, "sum_sent")),
     StreamsTotal(Get(data, "streams"))]
  }

  /** The result is the first present candidate, and nothing exactly when none is present. */
  lemma {:induction false} ExtractIsFirstPresent(data: Json)
    requires data.JObject?
    ensures ExtractIntervalBps(data) == FirstPresent(Candidates(data))
    ensures ExtractIntervalBps(data).None? <==> forall i :: 0 <= i < 4 ==> Candidates(data)[i].None?
  {
    var c := Candidates(data);
    assert c[1..] == [c[1], c[2], c[3]];
    assert c[1..][1..] == [c[2], c[3]];
    assert c[1..][1..][1..] == [c[3]];
    assert c[1..][1..][1..][1..] == [];
  }

  /** `data` with `key` set to `v`. */
  function SetField(data: Json, key: string, v: Json): (r: Json)
    requires data.JObject?
    ensures r.JObject? && Get(r, key) == v
    ensures forall k :: k != key ==> Get(r, k) == Get(data, k)
  {
    JObject(data.fields[key := v])
  }

  /** The four keys the rule reads, in order of precedence. */
  const Keys: seq<string> := ["sum_received", "sum", "sum_sent", "streams"]

  /** Once a summary has a figure, changing any field of lower precedence, or any field the
      rule does not read, changes nothing. */
  lemma {:induction false} HigherPriorityDominates(data: Json, n: nat, key: string, v: Json)
    requires data.JObject? && n < 3
    requires Bps(Get(data, Keys[n])).Some?
    requires forall m :: 0 <= m <= n ==> key != Keys[m]
    ensures ExtractIntervalBps(SetField(data, key, v)) == ExtractIntervalBps(data)
  {
    var d := SetField(data, key, v);
    assert key != Keys[n];
    if n >= 1 {
      assert key != Keys[0];
    }
    if n == 2 {
      assert key != Keys[1];
    }
    ExtractIsFirstPresent(data);
    ExtractIsFirstPresent(d);
  }

  /** Only `bits_per_second` of the chosen summary matters: `sender` and the rest are ignored. */
  lemma {:induction false} OtherSumFieldsIgnored(data: Json, key: string, v: Json)
    requires data.JObject? && Get(data, "sum").JObject? && key != "bits_per_second"
    ensures ExtractIntervalBps(SetField(data, "sum", SetField(Get(data, "sum"), key, v)))
         == ExtractIntervalBps(data)
  {
    var s := Get(data, "sum");
    var s' := SetField(s, key, v);
    assert Bps(s') == Bps(s);
    var d := SetField(data, "sum", s');
    ExtractIsFirstPresent(data);
    ExtractIsFirstPresent(d);
  }

  /** The figures of two runs of streams are the figures of each. */
  lemma {:induction false} StreamValuesAppend(a: seq<Json>, b: seq<Json>)
    ensures StreamValues(a + b) == StreamValues(a) + StreamValues(b)
    decreases |b|
  {
    if b == [] {
      assert a + b == a;
    } else {
      var b' := b[..|b| - 1];
      assert (a + b)[..|a + b| - 1] == a + b';
      assert (a + b)[|a + b| - 1] == b[|b| - 1];
      StreamValuesAppend(a, b');
    }
  }

  lemma {:induction false} SumAppend(xs: seq<real>, ys: seq<real>)
    ensures Sum(xs + ys) == Sum(xs) + Sum(ys)
    decreases |ys|
  {
    if ys == [] {
      assert xs + ys == xs;
    } else {
      var ys' := ys[..|ys| - 1];
      assert (xs + ys)[..|xs + ys| - 1] == xs + ys';
      SumAppend(xs, ys');
    }
  }

  /** Streams add up: the figure of a record with the streams of two is their sum. */
  lemma {:induction false} StreamsAdd(a: seq<Json>, b: seq<Json>)
    requires StreamValues(a) != [] && StreamValues(b) != []
    ensures StreamsTotal(JArray(a + b)).Some?
    ensures StreamsTotal(JArray(a + b)).value
         == Sum(StreamValues(a)) + Sum(StreamValues(b))
  {
    StreamValuesAppend(a, b);
    SumAppend(StreamValues(a), StreamValues(b));
  }
}
