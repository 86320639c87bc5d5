/** The metric pool of one poll, and the start times that outlive it: internal/report/pool.go and builder.go. */
module Pool {
  import opened Order
  import opened Streams
  import opened Wrappers

  /** `Unknown` is any other instrument text; the metric it leaves behind has no data. */
  datatype Instrument = Gauge | Sum | UpDownCounter | Unknown

  datatype Point = Point(attrs: Attributes, value: real, ts: int, start: Option<int>)

  datatype Metric = Metric(name: string, unit: string, kind: Instrument, points: seq<Point>)

  /** A stream's data point, by its place in the output, and the priority that set its value. */
  datatype Stream = Stream(metric: nat, point: nat, priority: int)

  datatype State = State(metrics: seq<Metric>, byName: map<string, nat>, streams: map<string, Stream>, starts: map<string, int>)

  datatype Call = Call(name: string, unit: string, instrument: Instrument, attrs: Attributes, value: real, ts: int, priority: int) {
    function Key(): string {
      StreamKey(name, attrs)
    }
  }

  function Fresh(starts: map<string, int>): State {
    State([], map[], map[], starts)
  }

  ghost predicate InRange(s: State) {
    && (forall name :: name in s.byName ==> s.byName[name] < |s.metrics|)
    && (forall key :: key in s.streams ==> s.streams[key].metric < |s.metrics| && s.streams[key].point < |s.metrics[s.streams[key].metric].points|)
  }

  /** Where a call's point belongs: no place if its instrument is unknown or not that of the name's metric. */
  function Obtained(s: State, c: Call): (State, Option<nat>)
    requires InRange(s)
  {
    if c.name in s.byName then
      (s, if s.metrics[s.byName[c.name]].kind == c.instrument then Some(s.byName[c.name]) else None)
    else
      var grown := s.(metrics := s.metrics + [Metric(c.name, c.unit, c.instrument, [])]);
      if c.instrument.Unknown? then (grown, None) else (grown.(byName := s.byName[c.name := |s.metrics|]), Some(|s.metrics|))
  }

  function StartOf(starts: map<string, int>, key: string, now: int): int {
    if key in starts then starts[key] else now
  }

  function WithPoint(s: State, m: nat, c: Call, key: string): State
    requires m < |s.metrics|
  {
    var metric := s.metrics[m];
    var start := StartOf(s.starts, key, c.ts);
    var point := Point(c.attrs, c.value, c.ts, if c.instrument.Gauge? then None else Some(start));
    s.(metrics := s.metrics[m := metric.(points := metric.points + [point])],
       streams := s.streams[key := Stream(m, |metric.points|, c.priority)],
       starts := if c.instrument.Gauge? then s.starts else s.starts[key := start])
  }

  function WithValue(s: State, key: string, value: real, priority: int): State
    requires InRange(s) && key in s.streams
  {
    var st := s.streams[key];
    var metric := s.metrics[st.metric];
    s.(metrics := s.metrics[st.metric := metric.(points := metric.points[st.point := metric.points[st.point].(value := value)])],
       streams := s.streams[key := st.(priority := priority)])
  }

  function Added(s: State, c: Call): State
    requires InRange(s)
  {
    var (t, m) := Obtained(s, c);
    var key := c.Key();
    if m.None? then t
    else if key in s.streams then (if c.priority > s.streams[key].priority then WithValue(t, key, c.value, c.priority) else t)
    else WithPoint(t, m.value, c, key)
  }

  lemma MetricForStaysInRange(s: State, c: Call)
    requires InRange(s)
    ensures var (t, m) := Obtained(s, c); InRange(t) && t.streams == s.streams && (m.Some? ==> m.value < |t.metrics|)
  {
  }

  lemma WithPointStaysInRange(s: State, m: nat, c: Call, key: string)
    requires InRange(s) && m < |s.metrics|
    ensures InRange(WithPoint(s, m, c, key))
  {
  }

  lemma WithValueStaysInRange(s: State, key: string, value: real, priority: int)
    requires InRange(s) && key in s.streams
    ensures InRange(WithValue(s, key, value, priority))
  {
  }

  lemma AddStaysInRange(s: State, c: Call)
    requires InRange(s)
    ensures InRange(Added(s, c))
  {
    hide Call.Key, InRange, Obtained, WithPoint, WithValue;
    MetricForStaysInRange(s, c);
    var (t, m) := Obtained(s, c);
    if m.Some? && c.Key() in s.streams {
      WithValueStaysInRange(t, c.Key(), c.value, c.priority);
    } else if m.Some? {
      WithPointStaysInRange(t, m.value, c, c.Key());
    }
  }

  /** The pool after a series of calls, starting from the start times of earlier polls. */
  function After(starts: map<string, int>, calls: seq<Call>): (s: State)
    ensures InRange(s)
  {
    if calls == [] then Fresh(starts)
    else
      var before := After(starts, calls[..|calls| - 1]);
      AddStaysInRange(before, calls[|calls| - 1]);
      Added(before, calls[|calls| - 1])
  }

  // ----- what the calls ask for -----

  /** The first call that names a metric with a known instrument decides what the metric is. */
  function FirstNamed(calls: seq<Call>, name: string): Option<Call> {
    if calls == [] then None
    else
      var before, c := FirstNamed(calls[..|calls| - 1], name), calls[|calls| - 1];
      if before.Some? then before else if c.name == name && !c.instrument.Unknown? then Some(c) else None
  }

  /** A call is accepted when its instrument is known and is the one its metric has. */
  predicate Accepts(before: seq<Call>, c: Call) {
    var first := FirstNamed(before, c.name);
    if first.Some? then first.value.instrument == c.instrument else !c.instrument.Unknown?
  }

  predicate Feeds(calls: seq<Call>, i: nat, key: string) {
    i < |calls| && Accepts(calls[..i], calls[i]) && calls[i].Key() == key
  }

  /** A higher priority wins, and among equals the earlier call. */
  predicate Prefers(calls: seq<Call>, best: nat, i: nat) {
    best < |calls| && i < |calls|
    && (calls[i].priority < calls[best].priority || (calls[i].priority == calls[best].priority && best <= i))
  }

  /** The earliest call of highest priority among the accepted calls for the key. */
  ghost predicate IsBest(calls: seq<Call>, key: string, best: nat) {
    && Feeds(calls, best, key)
    && forall i: nat :: Feeds(calls, i, key) ==> Prefers(calls, best, i)
  }

  /** The accepted call that creates the key's point. */
  ghost predicate IsFirst(calls: seq<Call>, key: string, first: nat) {
    Feeds(calls, first, key) && forall i: nat :: Feeds(calls, i, key) ==> first <= i
  }

  // ----- metrics -----

  ghost predicate Named(s: State, calls: seq<Call>, name: string)
    requires InRange(s)
  {
    var first := FirstNamed(calls, name);
    && (name in s.byName <==> first.Some?)
    && (first.Some? ==>
          var metric := s.metrics[s.byName[name]];
          metric.name == name && metric.unit == first.value.unit && metric.kind == first.value.instrument && !metric.kind.Unknown?)
  }

  ghost predicate OnePerName(s: State) {
    forall m :: 0 <= m < |s.metrics| && !s.metrics[m].kind.Unknown? ==> s.metrics[m].name in s.byName && s.byName[s.metrics[m].name] == m
  }

  /** The two differ in data points and streams only. */
  ghost predicate SameHeads(s: State, t: State) {
    && t.byName == s.byName && |t.metrics| == |s.metrics|
    && forall m :: 0 <= m < |s.metrics| ==>
         t.metrics[m].name == s.metrics[m].name && t.metrics[m].unit == s.metrics[m].unit && t.metrics[m].kind == s.metrics[m].kind
  }

  lemma AddTouchesOneHead(s: State, c: Call)
    requires InRange(s)
    ensures InRange(Obtained(s, c).0) && SameHeads(Obtained(s, c).0, Added(s, c))
  {
    hide Call.Key, InRange, Obtained;
    MetricForStaysInRange(s, c);
    assert InRange(Obtained(s, c).0);
    WithValueHeads(Obtained(s, c).0, c.Key(), c.value, c.priority);
  }

  lemma WithValueHeads(s: State, key: string, value: real, priority: int)
    requires InRange(s)
    ensures key in s.streams ==> SameHeads(s, WithValue(s, key, value, priority))
  {
  }

  lemma MetricForKeepsName(s: State, calls: seq<Call>, c: Call, name: string)
    requires InRange(s) && InRange(Obtained(s, c).0) && Named(s, calls, name)
    ensures Named(Obtained(s, c).0, calls + [c], name)
  {
    assert (calls + [c])[..|calls|] == calls;
  }

  lemma AddKeepsName(s: State, calls: seq<Call>, c: Call, name: string)
    requires InRange(s) && InRange(Added(s, c)) && Named(s, calls, name)
    ensures Named(Added(s, c), calls + [c], name)
  {
    hide Added, Obtained, FirstNamed;
    AddTouchesOneHead(s, c);
    MetricForKeepsName(s, calls, c, name);
  }

  lemma AddKeepsOnePerName(s: State, c: Call)
    requires InRange(s) && OnePerName(s)
    ensures OnePerName(Added(s, c))
  {
    MetricForKeepsOnePerName(s, c);
    AddTouchesOneHead(s, c);
    hide Added, Obtained;
  }

  lemma MetricForKeepsOnePerName(s: State, c: Call)
    requires InRange(s) && OnePerName(s)
    ensures OnePerName(Obtained(s, c).0)
  {
  }

  /**
   * Every name has one metric, of the unit and instrument of its first call with a known instrument; no other metric
   * with data carries the name.
   */
  lemma {:induction false} OneInstrumentPerName(starts: map<string, int>, calls: seq<Call>, name: string)
    ensures Named(After(starts, calls), calls, name) && OnePerName(After(starts, calls))
    decreases |calls|
  {
    hide Named, OnePerName, Added;
    if calls == [] {
      FreshNames(starts, name);
    } else {
      var before, c := calls[..|calls| - 1], calls[|calls| - 1];
      OneInstrumentPerName(starts, before, name);
      AddStaysInRange(After(starts, before), c);
      AddKeepsName(After(starts, before), before, c, name);
      AddKeepsOnePerName(After(starts, before), c);
      assert calls == before + [c];
    }
  }

  lemma FreshNames(starts: map<string, int>, name: string)
    ensures Named(Fresh(starts), [], name) && OnePerName(Fresh(starts))
  {
  }

  // ----- points -----

  function KeyAt(s: State, m: nat, i: nat): string
    requires m < |s.metrics| && i < |s.metrics[m].points|
  {
    StreamKey(s.metrics[m].name, s.metrics[m].points[i].attrs)
  }

  ghost predicate HasStream(s: State, m: nat, i: nat)
    requires m < |s.metrics| && i < |s.metrics[m].points|
  {
    var key := KeyAt(s, m, i);
    key in s.streams && s.streams[key].metric == m && s.streams[key].point == i
  }

  ghost predicate HasPoint(s: State, key: string)
    requires InRange(s) && key in s.streams
  {
    KeyAt(s, s.streams[key].metric, s.streams[key].point) == key
  }

  /** Points and streams correspond one to one, by the point's own key. */
  ghost predicate OnePerKey(s: State)
    requires InRange(s)
  {
    && (forall m: nat, i: nat | m < |s.metrics| && i < |s.metrics[m].points| :: HasStream(s, m, i))
    && (forall key :: key in s.streams ==> HasPoint(s, key))
    && (forall name :: name in s.byName ==> s.metrics[s.byName[name]].name == name)
  }

  lemma MetricForKeepsStreams(s: State, c: Call, m: nat, i: nat)
    requires InRange(s) && OnePerKey(s) && m < |Obtained(s, c).0.metrics| && i < |Obtained(s, c).0.metrics[m].points|
    ensures HasStream(Obtained(s, c).0, m, i)
  {
    hide StreamKey;
    assert m < |s.metrics| && HasStream(s, m, i);
    hide HasPoint, InRange, OnePerKey;
  }

  lemma MetricForKeepsPoints(s: State, c: Call, key: string)
    requires InRange(s) && OnePerKey(s) && InRange(Obtained(s, c).0) && key in s.streams
    ensures key in Obtained(s, c).0.streams && HasPoint(Obtained(s, c).0, key)
  {
    hide StreamKey;
    assert HasPoint(s, key);
    hide HasStream, OnePerKey;
  }

  lemma MetricForKeepsKeys(s: State, c: Call)
    requires InRange(s) && OnePerKey(s)
    ensures var (t, m) := Obtained(s, c);
      && InRange(t) && OnePerKey(t) && t.streams == s.streams && t.starts == s.starts
      && (m.Some? ==> m.value < |t.metrics| && t.metrics[m.value].name == c.name)
  {
    hide StreamKey, HasStream, HasPoint;
    MetricForStaysInRange(s, c);
    var t := Obtained(s, c).0;
    forall m: nat, i: nat | m < |t.metrics| && i < |t.metrics[m].points|
      ensures HasStream(t, m, i)
    {
      MetricForKeepsStreams(s, c, m, i);
    }
    forall key | key in t.streams
      ensures HasPoint(t, key)
    {
      MetricForKeepsPoints(s, c, key);
    }
  }

  lemma WithPointKeepsKeys(s: State, m: nat, c: Call)
    requires InRange(s) && OnePerKey(s) && m < |s.metrics| && s.metrics[m].name == c.name && c.Key() !in s.streams
    ensures InRange(WithPoint(s, m, c, c.Key())) && OnePerKey(WithPoint(s, m, c, c.Key()))
  {
    hide StreamKey;
    WithPointStaysInRange(s, m, c, c.Key());
    var t := WithPoint(s, m, c, c.Key());
    forall n: nat, i: nat | n < |t.metrics| && i < |t.metrics[n].points|
      ensures HasStream(t, n, i)
    {
      if n != m || i < |s.metrics[m].points| {
        assert HasStream(s, n, i);
      }
    }
    forall key | key in t.streams
      ensures HasPoint(t, key)
    {
      if key != c.Key() {
        assert HasPoint(s, key);
      }
    }
    hide HasStream, HasPoint, InRange;
  }

  lemma WithValueKeepsKeys(s: State, key: string, value: real, priority: int)
    requires InRange(s) && OnePerKey(s) && key in s.streams
    ensures InRange(WithValue(s, key, value, priority)) && OnePerKey(WithValue(s, key, value, priority))
  {
    hide StreamKey;
    WithValueStaysInRange(s, key, value, priority);
    var t := WithValue(s, key, value, priority);
    forall m: nat, i: nat | m < |t.metrics| && i < |t.metrics[m].points|
      ensures HasStream(t, m, i)
    {
      assert HasStream(s, m, i);
    }
    forall k | k in t.streams
      ensures HasPoint(t, k)
    {
      assert HasPoint(s, k);
    }
    hide HasStream, HasPoint, InRange;
  }

  lemma AddKeepsKeys(s: State, c: Call)
    requires InRange(s) && OnePerKey(s)
    ensures InRange(Added(s, c)) && OnePerKey(Added(s, c))
  {
    hide OnePerKey, InRange, WithPoint, WithValue, Obtained, StreamKey;
    MetricForKeepsKeys(s, c);
    var (t, m) := Obtained(s, c);
    if m.Some? {
      if c.Key() !in s.streams {
        WithPointKeepsKeys(t, m.value, c);
      } else if c.priority > s.streams[c.Key()].priority {
        WithValueKeepsKeys(t, c.Key(), c.value, c.priority);
      }
    }
  }

  /** Every point is its key's only point, and every key that has been fed has one. */
  lemma {:induction false} OnePointPerKey(starts: map<string, int>, calls: seq<Call>)
    ensures OnePerKey(After(starts, calls))
    decreases |calls|
  {
    if calls == [] {
      FreshKeys(starts);
    } else {
      hide OnePerKey, InRange, Added;
      OnePointPerKey(starts, calls[..|calls| - 1]);
      AddKeepsKeys(After(starts, calls[..|calls| - 1]), calls[|calls| - 1]);
    }
  }

  lemma FreshKeys(starts: map<string, int>)
    ensures InRange(Fresh(starts)) && OnePerKey(Fresh(starts))
  {
  }

  // ----- what a key's point shows -----

  /** A key's data point in the output. */
  datatype Emitted = Emitted(name: string, kind: Instrument, point: Point, priority: int)

  function View(s: State, key: string): Option<Emitted>
    requires InRange(s)
  {
    if key !in s.streams then None
    else
      var st := s.streams[key];
      Some(Emitted(s.metrics[st.metric].name, s.metrics[st.metric].kind, s.metrics[st.metric].points[st.point], st.priority))
  }

  lemma MetricForKeepsView(s: State, c: Call, key: string)
    requires InRange(s)
    ensures InRange(Obtained(s, c).0) && View(Obtained(s, c).0, key) == View(s, key)
  {
  }

  lemma WithPointView(s: State, m: nat, c: Call, fed: string, key: string)
    requires InRange(s) && m < |s.metrics| && fed !in s.streams
    ensures InRange(WithPoint(s, m, c, fed))
    ensures
      var point := Point(c.attrs, c.value, c.ts, if c.instrument.Gauge? then None else Some(StartOf(s.starts, fed, c.ts)));
      View(WithPoint(s, m, c, fed), key) ==
      if key == fed then Some(Emitted(s.metrics[m].name, s.metrics[m].kind, point, c.priority)) else View(s, key)
  {
    WithPointStaysInRange(s, m, c, fed);
  }

  lemma WithValueView(s: State, fed: string, value: real, priority: int, key: string)
    requires InRange(s) && OnePerKey(s) && fed in s.streams
    ensures InRange(WithValue(s, fed, value, priority))
    ensures
      View(WithValue(s, fed, value, priority), key) ==
      if key == fed then Some(View(s, key).value.(point := View(s, key).value.point.(value := value), priority := priority)) else View(s, key)
  {
    hide StreamKey;
    WithValueStaysInRange(s, fed, value, priority);
    assert HasPoint(s, fed);
    if key in s.streams {
      assert HasPoint(s, key);
    }
    hide OnePerKey;
  }

  lemma MetricForAccepts(s: State, calls: seq<Call>, c: Call)
    requires InRange(s) && Named(s, calls, c.name)
    ensures var (t, m) := Obtained(s, c);
      && (m.Some? <==> Accepts(calls, c))
      && t.streams == s.streams && t.starts == s.starts
      && (m.Some? ==> m.value < |t.metrics| && t.metrics[m.value].name == c.name && t.metrics[m.value].kind == c.instrument)
  {
  }

  /** What the calls make of a key: its first accepted call gives the point, its best one the value. */
  function FirstFeed(calls: seq<Call>, key: string): (r: Option<nat>)
    ensures r.Some? ==> r.value < |calls|
  {
    if calls == [] then None
    else
      var n := |calls| - 1;
      var before := FirstFeed(calls[..n], key);
      if before.None? && Accepts(calls[..n], calls[n]) && calls[n].Key() == key then Some(n) else before
  }

  function BestFeed(calls: seq<Call>, key: string): (r: Option<nat>)
    ensures r.Some? ==> r.value < |calls|
    ensures r.Some? <==> FirstFeed(calls, key).Some?
  {
    if calls == [] then None
    else
      var n := |calls| - 1;
      var before := BestFeed(calls[..n], key);
      if Accepts(calls[..n], calls[n]) && calls[n].Key() == key && (before.None? || calls[n].priority > calls[before.value].priority) then Some(n)
      else before
  }

  lemma FeedsSplit(calls: seq<Call>, key: string)
    requires calls != []
    ensures var n := |calls| - 1;
      && (forall i: nat :: i < n ==> (Feeds(calls, i, key) <==> Feeds(calls[..n], i, key)))
      && (forall i: nat :: Feeds(calls, i, key) ==> i <= n)
      && (forall i: nat :: Feeds(calls[..n], i, key) ==> i < n)
      && (Feeds(calls, n, key) <==> Accepts(calls[..n], calls[n]) && calls[n].Key() == key)
  {
    hide Call.Key, Accepts;
    var n := |calls| - 1;
    forall i: nat | i < n
      ensures Feeds(calls, i, key) <==> Feeds(calls[..n], i, key)
    {
      assert calls[..n][..i] == calls[..i];
    }
  }

  lemma {:induction false} FirstFeedIsFirst(calls: seq<Call>, key: string)
    ensures FirstFeed(calls, key).None? ==> forall i: nat :: !Feeds(calls, i, key)
    ensures FirstFeed(calls, key).Some? ==> IsFirst(calls, key, FirstFeed(calls, key).value)
    decreases |calls|
  {
    if calls != [] {
      hide Call.Key, Accepts, Feeds;
      FirstFeedIsFirst(calls[..|calls| - 1], key);
      FeedsSplit(calls, key);
    }
  }

  /** The value shown is that of the earliest accepted call of highest priority. */
  lemma {:induction false} BestFeedIsBest(calls: seq<Call>, key: string)
    ensures BestFeed(calls, key).None? ==> forall i: nat :: !Feeds(calls, i, key)
    ensures BestFeed(calls, key).Some? ==> IsBest(calls, key, BestFeed(calls, key).value)
    decreases |calls|
  {
    hide Call.Key, Accepts, Feeds, FirstFeed;
    FirstFeedIsFirst(calls, key);
    var best := BestFeed(calls, key);
    if best.Some? {
      var n := |calls| - 1;
      BestFeedIsBest(calls[..n], key);
      FirstFeedIsFirst(calls[..n], key);
      FeedsSplit(calls, key);
      var before := BestFeed(calls[..n], key);
      forall i: nat | Feeds(calls, i, key)
        ensures Prefers(calls, best.value, i)
      {
        if i < n {
          assert Feeds(calls[..n], i, key);
          assert before.Some? && Prefers(calls[..n], before.value, i);
        }
      }
    }
  }

  /** The point that the accepted calls give a key, when its stream's start time is `start`. */
  function Wanted(calls: seq<Call>, key: string, start: int): Option<Emitted> {
    var f, b := FirstFeed(calls, key), BestFeed(calls, key);
    if f.None? then None
    else
      var c := calls[f.value];
      Some(Emitted(c.name, c.instrument, Point(c.attrs, calls[b.value].value, c.ts, if c.instrument.Gauge? then None else Some(start)), calls[b.value].priority))
  }

  /** A stream's start time: what earlier polls recorded, or else its first call that is not a gauge reading. */
  ghost predicate Started(s: State, starts: map<string, int>, calls: seq<Call>, key: string) {
    var f := FirstFeed(calls, key);
    if key in starts then key in s.starts && s.starts[key] == starts[key]
    else if f.Some? && !calls[f.value].instrument.Gauge? then key in s.starts && s.starts[key] == calls[f.value].ts
    else key !in s.starts
  }

  ghost predicate Faithful(s: State, starts: map<string, int>, calls: seq<Call>, key: string)
    requires InRange(s)
  {
    Started(s, starts, calls, key) && View(s, key) == Wanted(calls, key, StartOf(s.starts, key, 0))
  }

  lemma AddStarts(s: State, c: Call)
    requires InRange(s)
    ensures Added(s, c).starts ==
            if Obtained(s, c).1.Some? && c.Key() !in s.streams && !c.instrument.Gauge?
            then s.starts[c.Key() := StartOf(s.starts, c.Key(), c.ts)] else s.starts
  {
    hide Call.Key, InRange;
  }

  lemma FeedsOfAppend(calls: seq<Call>, c: Call, key: string)
    ensures var f, b := FirstFeed(calls, key), BestFeed(calls, key);
      if Accepts(calls, c) && c.Key() == key then
        && FirstFeed(calls + [c], key) == (if f.None? then Some(|calls|) else f)
        && BestFeed(calls + [c], key) == (if b.None? || c.priority > calls[b.value].priority then Some(|calls|) else b)
      else FirstFeed(calls + [c], key) == f && BestFeed(calls + [c], key) == b
  {
    hide Call.Key, Accepts;
    assert (calls + [c])[..|calls|] == calls;
  }

  lemma AddKeepsFaithful(s: State, starts: map<string, int>, calls: seq<Call>, c: Call, key: string)
    requires InRange(s) && OnePerKey(s) && Named(s, calls, c.name) && Faithful(s, starts, calls, key)
    ensures InRange(Added(s, c)) && Faithful(Added(s, c), starts, calls + [c], key)
  {
    hide Call.Key, InRange, OnePerKey, Obtained, WithPoint, WithValue, FirstFeed, BestFeed, Named, Accepts, View;
    AddStaysInRange(s, c);
    AddStarts(s, c);
    FeedsOfAppend(calls, c, key);
    MetricForAccepts(s, calls, c);
    MetricForKeepsView(s, c, key);
    MetricForKeepsKeys(s, c);
    ViewIsStream(s, key);
    var (t, m) := Obtained(s, c);
    if m.Some? {
      if c.Key() !in s.streams {
        WithPointView(t, m.value, c, c.Key(), key);
      } else if c.priority > s.streams[c.Key()].priority {
        WithValueView(t, c.Key(), c.value, c.priority, key);
      }
    }
  }

  lemma ViewIsStream(s: State, key: string)
    requires InRange(s)
    ensures View(s, key).Some? <==> key in s.streams
    ensures key in s.streams ==> View(s, key).value.priority == s.streams[key].priority
  {
  }

  /**
   * Over any series of calls: a key has a point exactly when some accepted call fed it; the point sits in the first such
   * call's metric with its attributes, time and start, and shows the value of the earliest accepted call of highest
   * priority.
   */
  lemma {:induction false} HighestPriorityWins(starts: map<string, int>, calls: seq<Call>, key: string)
    ensures Faithful(After(starts, calls), starts, calls, key)
    decreases |calls|
  {
    hide Faithful, Named, OnePerKey, InRange, Added;
    if calls == [] {
      FreshIsFaithful(starts, key);
    } else {
      var before, c := calls[..|calls| - 1], calls[|calls| - 1];
      HighestPriorityWins(starts, before, key);
      OnePointPerKey(starts, before);
      OneInstrumentPerName(starts, before, c.name);
      AddKeepsFaithful(After(starts, before), starts, before, c, key);
      assert calls == before + [c];
    }
  }

  lemma FreshIsFaithful(starts: map<string, int>, key: string)
    ensures InRange(Fresh(starts)) && Faithful(Fresh(starts), starts, [], key)
  {
  }

  // ----- across polls -----

  /** The start times after a series of polls, each with a pool of its own. */
  function StartsAfter(starts: map<string, int>, polls: seq<seq<Call>>): map<string, int> {
    if polls == [] then starts else After(StartsAfter(starts, polls[..|polls| - 1]), polls[|polls| - 1]).starts
  }

  lemma PollKeepsStarts(starts: map<string, int>, calls: seq<Call>, key: string)
    requires key in starts
    ensures key in After(starts, calls).starts && After(starts, calls).starts[key] == starts[key]
  {
    hide After, View, FirstFeed, BestFeed;
    HighestPriorityWins(starts, calls, key);
  }

  /** A start time, once recorded, never changes: neither by later calls nor by later polls. */
  lemma {:induction false} StartsNeverChange(starts: map<string, int>, polls: seq<seq<Call>>, more: seq<seq<Call>>, key: string)
    requires key in StartsAfter(starts, polls)
    ensures key in StartsAfter(starts, polls + more) && StartsAfter(starts, polls + more)[key] == StartsAfter(starts, polls)[key]
    decreases |more|
  {
    hide After;
    if more == [] {
      assert polls + more == polls;
    } else {
      var init := more[..|more| - 1];
      StartsNeverChange(starts, polls, init, key);
      assert (polls + more)[..|polls + more| - 1] == polls + init;
      PollKeepsStarts(StartsAfter(starts, polls + init), more[|more| - 1], key);
    }
  }

  /** So a cumulative stream shows the same start in every poll that reports it. */
  lemma SameStartInEveryPoll(starts: map<string, int>, polls: seq<seq<Call>>, i: nat, j: nat, key: string)
    requires i < j < |polls|
    ensures
      var early, late := View(After(StartsAfter(starts, polls[..i]), polls[i]), key), View(After(StartsAfter(starts, polls[..j]), polls[j]), key);
      early.Some? && late.Some? && !early.value.kind.Gauge? && !late.value.kind.Gauge? ==>
        early.value.point.start.Some? && late.value.point.start == early.value.point.start
  {
    hide After, StartsAfter, View;
    ShownStart(StartsAfter(starts, polls[..i]), polls[i], key);
    ShownStart(StartsAfter(starts, polls[..j]), polls[j], key);
    StartsCarryOver(starts, polls, i, j, key);
  }

  lemma StartsCarryOver(starts: map<string, int>, polls: seq<seq<Call>>, i: nat, j: nat, key: string)
    requires i < j < |polls|
    ensures
      var recorded, later := After(StartsAfter(starts, polls[..i]), polls[i]).starts, StartsAfter(starts, polls[..j]);
      key in recorded ==> key in later && later[key] == recorded[key]
  {
    hide After;
    assert polls[..i + 1][..i] == polls[..i] && polls[..i + 1][i] == polls[i];
    assert polls[..j] == polls[..i + 1] + polls[i + 1..j];
    if key in StartsAfter(starts, polls[..i + 1]) {
      StartsNeverChange(starts, polls[..i + 1], polls[i + 1..j], key);
    }
  }

  /** A cumulative point shows the recorded start, which is the one that the poll found recorded, if there was one. */
  lemma ShownStart(starts: map<string, int>, calls: seq<Call>, key: string)
    ensures
      var s := After(starts, calls);
      var emitted := View(s, key);
      emitted.Some? && !emitted.value.kind.Gauge? ==>
        && key in s.starts && emitted.value.point.start == Some(s.starts[key])
        && (key in starts ==> s.starts[key] == starts[key])
  {
    hide After, View, FirstFeed, BestFeed;
    HighestPriorityWins(starts, calls, key);
  }

  /** Two points never show the same name and attributes. */
  lemma NoDuplicateStreams(starts: map<string, int>, calls: seq<Call>, m: nat, i: nat, n: nat, j: nat)
    requires var s := After(starts, calls);
      m < |s.metrics| && i < |s.metrics[m].points| && n < |s.metrics| && j < |s.metrics[n].points|
    requires var s := After(starts, calls);
      s.metrics[m].name == s.metrics[n].name && s.metrics[m].points[i].attrs == s.metrics[n].points[j].attrs
    ensures m == n && i == j
  {
    hide StreamKey, After;
    OnePointPerKey(starts, calls);
    assert HasStream(After(starts, calls), m, i) && HasStream(After(starts, calls), n, j);
  }

  /** As long as names and attributes respect the key's separators, a stream is fed by calls of its own only. */
  lemma PointShowsItsOwnCalls(calls: seq<Call>, i: nat, name: string, attrs: Attributes)
    requires Feeds(calls, i, StreamKey(name, attrs)) && Unambiguous(name, attrs) && Unambiguous(calls[i].name, calls[i].attrs)
    ensures calls[i].name == name && calls[i].attrs == attrs
  {
    hide StreamKey;
    KeysAreInjective(calls[i].name, calls[i].attrs, name, attrs);
  }

  // ----- metric names in the output -----

  function MetricNames(metrics: seq<Metric>): (r: seq<string>)
    ensures |r| == |metrics|
  {
    if metrics == [] then [] else MetricNames(metrics[..|metrics| - 1]) + [metrics[|metrics| - 1].name]
  }

  /** The names of the calls that add a metric: those whose name no earlier call has given a known instrument. */
  function Introduced(calls: seq<Call>): seq<string> {
    if calls == [] then []
    else
      var before, c := calls[..|calls| - 1], calls[|calls| - 1];
      if FirstNamed(before, c.name).None? then Introduced(before) + [c.name] else Introduced(before)
  }

  lemma {:induction false} SameNames(a: seq<Metric>, b: seq<Metric>)
    requires |a| == |b| && forall m :: 0 <= m < |a| ==> a[m].name == b[m].name
    ensures MetricNames(a) == MetricNames(b)
    decreases |a|
  {
    if a != [] {
      SameNames(a[..|a| - 1], b[..|b| - 1]);
    }
  }

  lemma AddedNames(s: State, c: Call)
    requires InRange(s)
    ensures MetricNames(Added(s, c).metrics) == MetricNames(s.metrics) + if c.name in s.byName then [] else [c.name]
  {
    var t := Obtained(s, c).0;
    AddTouchesOneHead(s, c);
    SameNames(t.metrics, Added(s, c).metrics);
    if c.name !in s.byName {
      assert t.metrics[..|s.metrics|] == s.metrics;
    }
    hide Added;
  }

  lemma {:induction false} OutputNamesAreIntroduced(starts: map<string, int>, calls: seq<Call>)
    ensures MetricNames(After(starts, calls).metrics) == Introduced(calls)
    decreases |calls|
  {
    hide Added, InRange, Named, OnePerName;
    if calls != [] {
      var before, c := calls[..|calls| - 1], calls[|calls| - 1];
      OutputNamesAreIntroduced(starts, before);
      KnownByName(starts, before, c.name);
      AddedNames(After(starts, before), c);
    }
  }

  lemma KnownByName(starts: map<string, int>, calls: seq<Call>, name: string)
    ensures name in After(starts, calls).byName <==> FirstNamed(calls, name).Some?
  {
    hide After;
    OneInstrumentPerName(starts, calls, name);
  }

  /** No call asks for a name that an earlier call asked for in vain. */
  ghost predicate SettledAtOnce(calls: seq<Call>) {
    forall i, j :: 0 <= i < j < |calls| && calls[i].name == calls[j].name ==> FirstNamed(calls[..j], calls[j].name).Some?
  }

  lemma {:induction false} IntroducedAreAsked(calls: seq<Call>, name: string)
    ensures name in Introduced(calls) <==> exists i :: 0 <= i < |calls| && calls[i].name == name
    ensures FirstNamed(calls, name).Some? ==> name in Introduced(calls)
    decreases |calls|
  {
    if calls != [] {
      var before := calls[..|calls| - 1];
      IntroducedAreAsked(before, name);
      assert calls == before + [calls[|calls| - 1]];
    }
  }

  lemma {:induction false} DistinctIffSettled(calls: seq<Call>)
    ensures Distinct(Introduced(calls)) <==> SettledAtOnce(calls)
    decreases |calls|
  {
    if calls != [] {
      var n := |calls| - 1;
      var before, c := calls[..n], calls[n];
      DistinctIffSettled(before);
      IntroducedAreAsked(before, c.name);
      SettledSplit(calls);
      hide SettledAtOnce, FirstNamed;
      if FirstNamed(before, c.name).None? {
        DistinctAppend(Introduced(before), c.name);
      }
    }
  }

  lemma SettledSplit(calls: seq<Call>)
    requires calls != []
    ensures var before, c := calls[..|calls| - 1], calls[|calls| - 1];
      SettledAtOnce(calls) <==>
      SettledAtOnce(before) && ((exists i :: 0 <= i < |before| && before[i].name == c.name) ==> FirstNamed(before, c.name).Some?)
  {
    hide FirstNamed;
    var n := |calls| - 1;
    var before := calls[..n];
    assert forall j :: 0 <= j < n ==> before[..j] == calls[..j];
    if SettledAtOnce(calls) {
      if i :| 0 <= i < |before| && before[i].name == calls[n].name {
        assert calls[i].name == calls[n].name;
      }
    }
  }

  lemma DistinctAppend(s: seq<string>, x: string)
    ensures Distinct(s + [x]) <==> Distinct(s) && x !in s
  {
    var t := s + [x];
    assert t[|s|] == x && forall i :: 0 <= i < |s| ==> t[i] == s[i];
  }

  /**
   * The output has every metric name once if and only if each name that is asked for again had been given a known
   * instrument by then: a first call with an unknown one leaves an empty metric behind that no later call finds.
   */
  lemma NamesDistinctIff(starts: map<string, int>, calls: seq<Call>)
    ensures Distinct(MetricNames(After(starts, calls).metrics)) <==> SettledAtOnce(calls)
  {
    hide After, SettledAtOnce;
    OutputNamesAreIntroduced(starts, calls);
    DistinctIffSettled(calls);
  }

  // ----- in terms of the calls alone -----

  /**
   * In terms of the calls alone: a key's point sits in the metric of the first accepted call `f` that fed it, with that
   * call's attributes and time, and shows the value of `b`, the earliest accepted call of highest priority.
   */
  lemma PointShowsTheBestCall(starts: map<string, int>, calls: seq<Call>, key: string, f: nat, b: nat)
    requires IsFirst(calls, key, f) && IsBest(calls, key, b)
    ensures
      var emitted := View(After(starts, calls), key);
      && emitted.Some?
      && emitted.value.name == calls[f].name && emitted.value.kind == calls[f].instrument
      && emitted.value.point.attrs == calls[f].attrs && emitted.value.point.ts == calls[f].ts
      && emitted.value.point.value == calls[b].value && emitted.value.priority == calls[b].priority
      && emitted.value.point.start == (if calls[f].instrument.Gauge? then None else Some(if key in starts then starts[key] else calls[f].ts))
  {
    hide Feeds, After, View, Call.Key;
    FirstFeedIsFirst(calls, key);
    BestFeedIsBest(calls, key);
    HighestPriorityWins(starts, calls, key);
    hide FirstFeed, BestFeed;
  }

  /** A key that no accepted call fed has no point. */
  lemma NoCallNoPoint(starts: map<string, int>, calls: seq<Call>, key: string)
    requires forall i: nat :: !Feeds(calls, i, key)
    ensures View(After(starts, calls), key).None?
  {
    hide Feeds, After, View;
    FirstFeedIsFirst(calls, key);
    HighestPriorityWins(starts, calls, key);
  }

  // ----- the pool and the builder themselves -----

  class Builder {
    var startTimes: map<string, int>

    constructor ()
      ensures startTimes == map[]
    {
      startTimes := map[];
    }

    /** Look up the stream's start, or make `now` its start. */
    method StartTime(key: string, now: int) returns (start: int)
      modifies this
      ensures start == StartOf(old(startTimes), key, now)
      ensures startTimes == old(startTimes)[key := start]
    {
      if key in startTimes {
        return startTimes[key];
      }
      startTimes := startTimes[key := now];
      return now;
    }
  }

  class MetricPool {
    var metrics: seq<Metric>
    var byName: map<string, nat>
    var streams: map<string, Stream>

    constructor ()
      ensures metrics == [] && byName == map[] && streams == map[]
    {
      metrics, byName, streams := [], map[], map[];
    }

    ghost function Snapshot(b: Builder): State
      reads this, b
    {
      State(metrics, byName, streams, b.startTimes)
    }

    /** The place in the output for a call's point; the source's error is `None`. */
    method MetricFor(c: Call, b: Builder) returns (m: Option<nat>)
      requires InRange(Snapshot(b))
      modifies this
      ensures (Snapshot(b), m) == Obtained(old(Snapshot(b)), c)
    {
      if c.name in byName {
        var existing := byName[c.name];
        if metrics[existing].kind != c.instrument {
          return None;
        }
        return Some(existing);
      }
      var place := |metrics|;
      metrics := metrics + [Metric(c.name, c.unit, c.instrument, [])];
      if c.instrument.Unknown? {
        return None;
      }
      byName := byName[c.name := place];
      return Some(place);
    }

    /** One call: a new point, a new value for an old point, or nothing. */
    method Add(c: Call, b: Builder) returns (ok: bool)
      requires InRange(Snapshot(b))
      modifies this, b
      ensures Snapshot(b) == Added(old(Snapshot(b)), c)
      ensures ok <==> Obtained(old(Snapshot(b)), c).1.Some?
      ensures InRange(Snapshot(b))
    {
      hide InRange, Streams.StreamKey;
      MetricForStaysInRange(Snapshot(b), c);
      AddStaysInRange(Snapshot(b), c);
      var m := MetricFor(c, b);
      if m.None? {
        return false;
      }
      var key := StreamKeyFromMap(c.name, c.attrs);
      if key in streams {
        Overwrite(key, c.value, c.priority, b);
        return true;
      }
      var metric := metrics[m.value];
      var start := None;
      if !c.instrument.Gauge? {
        var recorded := b.StartTime(key, c.ts);
        start := Some(recorded);
      }
      metrics := metrics[m.value := metric.(points := metric.points + [Point(c.attrs, c.value, c.ts, start)])];
      streams := streams[key := Stream(m.value, |metric.points|, c.priority)];
      return true;
    }

    method Overwrite(key: string, value: real, priority: int, ghost b: Builder)
      requires InRange(Snapshot(b)) && key in streams
      modifies this
      ensures Snapshot(b) == if priority > old(streams)[key].priority then WithValue(old(Snapshot(b)), key, value, priority) else old(Snapshot(b))
    {
      var existing := streams[key];
      if priority > existing.priority {
        var metric := metrics[existing.metric];
        var point := metric.points[existing.point].(value := value);
        metrics := metrics[existing.metric := metric.(points := metric.points[existing.point := point])];
        streams := streams[key := existing.(priority := priority)];
      }
    }
  }
}
