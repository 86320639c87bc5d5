/** fetchColumns of internal/snmp/fetch.go: walking many table columns together. */
module Columns {
  import opened Wrappers
  import opened Order
  import opened Oid
  import opened Pdu
  import opened Wire
  import opened Arithmetic
  import opened Sizing
  import opened Agent
  import opened Rows
  import opened Walk

  /** The loop's variables. `pdus` is the report's packet count, which also numbers the next request. */
  datatype State = State(walk: Walk, sizer: Sizer, useBulk: bool, pdus: nat, errors: seq<FetchError>, stopped: bool) {
    ghost predicate Valid() {
      walk.Keyed() && sizer.Valid()
    }

    predicate Running() {
      walk.next != map[] && !stopped
    }

    /** The columns of the next request, in text order of their OIDs. */
    function Chunk(): seq<string> {
      var active := SortedKeys(walk.next.Keys);
      active[..Min(sizer.current, |active|)]
    }

    function Fail(e: FetchError): State {
      this.(errors := errors + [e], stopped := true)
    }
  }

  function Positions(next: map<string, string>, chunk: seq<string>): (r: seq<string>)
    requires forall c :: c in chunk ==> c in next
    ensures |r| == |chunk| && forall k :: 0 <= k < |chunk| ==> r[k] == next[chunk[k]]
  {
    seq(|chunk|, k requires 0 <= k < |chunk| => next[chunk[k]])
  }

  lemma ChunkIsActive(s: State)
    requires s.Running() && s.sizer.Valid()
    ensures 1 <= |s.Chunk()| <= s.sizer.current
    ensures forall c :: c in s.Chunk() ==> c in s.walk.next
  {
    assert s.walk.next.Keys != {};
  }

  /** The columns that sort first as text, as many as the batch allows and in that order. */
  lemma ChunkIsFirst(s: State, c: string, d: string)
    requires s.Running() && s.sizer.Valid() && c in s.Chunk() && d in s.walk.next
    ensures d !in s.Chunk() ==> TextLe(c, d) && |s.Chunk()| == s.sizer.current
    ensures SortedText(s.Chunk()) && Distinct(s.Chunk())
  {
    hide TextLe;
    var active := SortedKeys(s.walk.next.Keys);
    var j :| 0 <= j < |active| && active[j] == d;
    assert j < |s.Chunk()| ==> s.Chunk()[j] == d;
  }

  /** A request asks for no more columns than the batch and the walk have. */
  lemma ChunkIsSmall(s: State, count: nat)
    requires s.Valid() && |s.walk.columns.Keys| <= count
    ensures |s.Chunk()| <= Min(s.sizer.max, count)
  {
    SubsetSize(s.walk.next.Keys, s.walk.columns.Keys);
  }

  function RequestOf(cfg: FetchConfig, s: State): Request
    requires s.Running() && s.sizer.Valid()
  {
    ChunkIsActive(s);
    var names := Prefixed(Positions(s.walk.next, s.Chunk()));
    if s.useBulk then GetBulk(names, cfg.bulkMaxRepetitions) else GetNext(names)
  }

  function Cap(cfg: FetchConfig): nat {
    Max(0, cfg.maxRowsPerColumn)
  }

  /** The walk after an error-free packet. */
  function Absorbed(cfg: FetchConfig, chunk: seq<string>, w: Walk, variables: seq<Variable>): (v: Walk)
    requires w.Keyed()
    ensures v.Keyed()
  {
    var p := Consumed(chunk, Cap(cfg), w, variables);
    if p.progressed then p.walk else p.walk.(next := p.walk.next - (set c | c in chunk))
  }

  /** One turn of the loop on a response. */
  function React(cfg: FetchConfig, s: State, r: Response): State
    requires s.Running() && s.Valid()
  {
    var t := s.(pdus := s.pdus + 1);
    var chunk := s.Chunk();
    if r.TransportError? || r.status == TooBig then
      if s.sizer.CanShrink() then t.(sizer := s.sizer.Shrunk())
      else if s.useBulk then t.(useBulk := false, sizer := s.sizer.AfterReset())
      else t.Fail(if r.TransportError? then Transport else TooBigForOne)
    else match r.status
      case NoSuchName =>
        if 1 <= r.errorIndex <= |chunk| then t.(walk := s.walk.End(chunk[r.errorIndex - 1]))
        else t.Fail(UnusableIndex(r.errorIndex))
      case NoError =>
        t.(walk := Absorbed(cfg, chunk, s.walk, r.variables), sizer := s.sizer.AfterSuccess())
      case _ => t.Fail(BadStatus(r.status))
  }

  function Step(session: Session, cfg: FetchConfig, s: State): State
    requires s.Running() && s.Valid()
  {
    if session.cancelled(s.pdus) then s.Fail(Cancelled)
    else React(cfg, s, session.answer(s.pdus, RequestOf(cfg, s)))
  }

  lemma StepKeepsValid(session: Session, cfg: FetchConfig, s: State)
    requires s.Running() && s.Valid()
    ensures Step(session, cfg, s).Valid() && Step(session, cfg, s).sizer.max == s.sizer.max
  {
    hide Absorbed, SortedKeys, RequestOf;
    if s.sizer.CanShrink() {
      ShrinkPays(s.sizer);
    }
    SuccessCosts(s.sizer);
    PotentialIsBounded(s.sizer);
  }

  /** The state after `n` turns; a finished loop stays put. */
  ghost function Run(session: Session, cfg: FetchConfig, s: State, n: nat): (t: State)
    requires s.Valid()
    ensures t.Valid() && t.sizer.max == s.sizer.max
  {
    if n == 0 then s
    else
      var t := Run(session, cfg, s, n - 1);
      if !t.Running() then t
      else
        StepKeepsValid(session, cfg, t);
        Step(session, cfg, t)
  }

  function Roots(columnOIDs: seq<string>): set<string> {
    set o | o in columnOIDs :: CanonicalOID(o)
  }

  /** Columns may be written with surrounding space and a leading dot; the walk is over their canonical forms. */
  lemma RootsOfSpellings(written: seq<string>, columns: seq<string>)
    requires CanonicalAll(columns) && |written| == |columns|
    requires forall i :: 0 <= i < |columns| ==> TrimsTo(written[i], columns[i]) || TrimsTo(written[i], "." + columns[i])
    ensures Roots(written) == set c | c in columns
  {
    hide Canonical, CanonicalOID, TrimsTo;
    forall i | 0 <= i < |columns|
      ensures CanonicalOID(written[i]) == columns[i]
    {
      assert columns[i] in columns;
      TrimmedIsCanonical(written[i], columns[i]);
    }
    assert forall c :: c in columns ==> exists i :: 0 <= i < |columns| && c == CanonicalOID(written[i]);
    forall c | c in columns
      ensures c in Roots(written)
    {
      var i :| 0 <= i < |columns| && columns[i] == c;
      assert written[i] in written;
    }
  }

  function Start(session: Session, cfg: FetchConfig, columnOIDs: seq<string>, pdus: nat): (s: State)
    ensures s.Valid() && s.sizer.max == NewSizer(cfg.oidBatchSize).max
  {
    var walk := Walk(map c | c in Roots(columnOIDs) :: c, map c | c in Roots(columnOIDs) :: map[], []);
    State(walk, NewSizer(cfg.oidBatchSize), session.supportsGetBulk, pdus, [], false)
  }

  // ----- termination and the number of packets -----

  /** The OIDs of a finite universe that a column could still advance to. */
  ghost function Ahead(universe: set<string>, column: string, position: string): set<string> {
    set u | u in universe && Under(column, u) && (position == column || OIDLess(position, u))
  }

  /** One unit per walking column and one per OID it could still advance to. */
  ghost function Units(universe: set<string>, next: map<string, string>): nat {
    if next == map[] then 0
    else
      var c :| c in next;
      1 + |Ahead(universe, c, next[c])| + Units(universe, next - {c})
  }

  lemma {:induction false} UnitsOf(universe: set<string>, next: map<string, string>, c: string)
    requires c in next
    ensures Units(universe, next) == 1 + |Ahead(universe, c, next[c])| + Units(universe, next - {c})
    decreases |next|
  {
    hide Ahead;
    assert next != map[];
    var d :| d in next && Units(universe, next) == 1 + |Ahead(universe, d, next[d])| + Units(universe, next - {d});
    if d != c {
      assert |next - {d}| < |next| && |next - {c}| < |next|;
      UnitsOf(universe, next - {d}, c);
      UnitsOf(universe, next - {c}, d);
      assert next - {d} - {c} == next - {c} - {d};
    }
  }

  /** Never more units, and fewer when some column ended. */
  ghost predicate NotMore(universe: set<string>, next: map<string, string>, before: map<string, string>) {
    && next.Keys <= before.Keys
    && Units(universe, next) <= Units(universe, before)
    && (next.Keys != before.Keys ==> Units(universe, next) < Units(universe, before))
  }

  lemma {:induction false} EndingIsNotMore(universe: set<string>, next: map<string, string>, ended: set<string>)
    ensures NotMore(universe, next - ended, next)
    decreases |ended|
  {
    hide Ahead, Units;
    if ended == {} {
      assert next - ended == next;
    } else {
      var c :| c in ended;
      var rest := ended - {c};
      EndingIsNotMore(universe, next, rest);
      assert next - ended == next - rest - {c};
      if c in next {
        UnitsOf(universe, next - rest, c);
      } else {
        assert next - ended == next - rest;
      }
    }
  }

  /** All positions come from the universe. */
  ghost predicate Within(universe: set<string>, next: map<string, string>) {
    forall c :: c in next ==> next[c] in universe
  }

  lemma AheadShrinks(universe: set<string>, column: string, position: string, oid: string)
    requires forall u :: u in universe ==> Canonical(u)
    requires oid in Ahead(universe, column, position) && position in universe
    ensures |Ahead(universe, column, oid)| < |Ahead(universe, column, position)|
  {
    hide Canonical, CanonicalOID, CompareOIDs;
    var before, after := Ahead(universe, column, position), Ahead(universe, column, oid);
    assert oid != column;
    OrderIsTotal(oid, oid);
    forall u | u in after
      ensures u in before
    {
      if position != column {
        OrderIsTransitive(position, oid, u);
      }
    }
    SubsetSize(after, before - {oid});
  }

  lemma MoveIsLess(universe: set<string>, next: map<string, string>, c: string, oid: string)
    requires (forall u :: u in universe ==> Canonical(u)) && Within(universe, next)
    requires c in next && oid in Ahead(universe, c, next[c])
    ensures Units(universe, next[c := oid]) < Units(universe, next) && Within(universe, next[c := oid])
  {
    AheadShrinks(universe, c, next[c], oid);
    hide Canonical, Units, CompareOIDs;
    UnitsOf(universe, next, c);
    UnitsOf(universe, next[c := oid], c);
    assert next[c := oid] - {c} == next - {c};
  }

  /** Progress is paid for with a unit. */
  ghost predicate Paid(universe: set<string>, p: Pass, before: map<string, string>) {
    && Within(universe, p.walk.next)
    && NotMore(universe, p.walk.next, before)
    && (p.progressed ==> Units(universe, p.walk.next) < Units(universe, before))
  }

  lemma VariablePays(universe: set<string>, chunk: seq<string>, cap: nat, p: Pass, v: Variable, before: map<string, string>)
    requires (forall u :: u in universe ==> Canonical(u)) && CanonicalOID(v.name) in universe
    requires p.walk.Keyed() && Paid(universe, p, before)
    ensures Paid(universe, ApplyVariable(chunk, cap, p, v), before)
  {
    hide Canonical, Units, CompareOIDs, CanonicalOID, RowIndex, Decode, LongestMatch;
    var oid := CanonicalOID(v.name);
    LongestMatchIsLongest(chunk, oid);
    var match_ := LongestMatch(chunk, oid);
    if match_.Some? && match_.value in p.walk.next {
      var c := match_.value;
      var position := p.walk.next[c];
      EndingIsNotMore(universe, p.walk.next, {c});
      if position == c || CompareOIDs(oid, position) > 0 {
        if position != c {
          OrderIsTotal(position, oid);
        }
        MoveIsLess(universe, p.walk.next, c, oid);
        assert (p.walk.next[c := oid]).Keys == p.walk.next.Keys;
      }
    }
  }

  lemma {:induction false} VariablesPay(universe: set<string>, chunk: seq<string>, cap: nat, p: Pass, vars: seq<Variable>, before: map<string, string>)
    requires forall u :: u in universe ==> Canonical(u)
    requires forall v :: v in vars ==> CanonicalOID(v.name) in universe
    requires p.walk.Keyed() && Paid(universe, p, before)
    ensures Paid(universe, ApplyVariables(chunk, cap, p, vars), before)
    decreases |vars|
  {
    hide Canonical, CanonicalOID, Paid, ApplyVariable;
    if vars != [] {
      VariablePays(universe, chunk, cap, p, vars[0], before);
      VariablesPay(universe, chunk, cap, ApplyVariable(chunk, cap, p, vars[0]), vars[1..], before);
    }
  }

  lemma ConsumedPays(universe: set<string>, chunk: seq<string>, cap: nat, w: Walk, vars: seq<Variable>)
    requires (forall u :: u in universe ==> Canonical(u)) && Within(universe, w.next) && w.Keyed()
    requires forall v :: v in vars ==> CanonicalOID(v.name) in universe
    requires chunk != [] && chunk[0] in w.next
    ensures var p := Consumed(chunk, cap, w, vars);
      var next := if p.progressed then p.walk.next else p.walk.next - (set c | c in chunk);
      Within(universe, next) && Units(universe, next) < Units(universe, w.next)
  {
    hide Canonical, CanonicalOID, Units, ApplyVariables, Ahead;
    var start := Pass(w, {}, false);
    VariablesPay(universe, chunk, cap, start, vars, w.next);
    var p := ApplyVariables(chunk, cap, start, vars);
    var silent := Unanswered(chunk, p.answered);
    EndingIsNotMore(universe, p.walk.next, silent);
    var kept := p.walk.next - silent;
    if !p.progressed {
      var all := set c | c in chunk;
      EndingIsNotMore(universe, kept, all);
      assert chunk[0] in all && chunk[0] !in (kept - all).Keys;
    }
  }

  /** Ten units per packet and per halving left, eleven per walk unit, and the price of the one fallback to GETNEXT. */
  ghost function Spent(universe: set<string>, s: State): int
    requires s.Valid()
  {
    10 * s.pdus + Potential(s.sizer) + 11 * Units(universe, s.walk.next)
      + (if s.useBulk then 10 * Log2(s.sizer.max) + 10 else 0)
      + (if s.stopped then 0 else 10)
  }

  /** Asked only about names of the universe, a packet answers only with names of the universe. */
  ghost predicate NamesWithin(universe: set<string>, req: Request, r: Response) {
    r.Packet? && r.status == NoError && (forall name :: name in req.names ==> CanonicalOID(name) in universe)
    ==> forall v :: v in r.variables ==> CanonicalOID(v.name) in universe
  }

  /**
   * The only assumption under which the walk is shown to end: the device draws its names from a finite set. It may
   * repeat, reorder, omit and invent within that set, echo requests, and fail at will.
   */
  ghost predicate Finite(session: Session, universe: set<string>) {
    && (forall u :: u in universe ==> Canonical(u))
    && forall n, req :: NamesWithin(universe, req, session.answer(n, req))
  }

  lemma RequestIsWithin(universe: set<string>, cfg: FetchConfig, s: State)
    requires s.Running() && s.Valid() && Within(universe, s.walk.next)
    requires forall u :: u in universe ==> Canonical(u)
    ensures forall name :: name in RequestOf(cfg, s).names ==> CanonicalOID(name) in universe
  {
    hide Canonical, CanonicalOID, State.Chunk;
    ChunkIsActive(s);
    PrefixedNames(Positions(s.walk.next, s.Chunk()));
  }

  lemma ReactSpendsNothing(universe: set<string>, cfg: FetchConfig, s: State, r: Response)
    requires s.Running() && s.Valid() && Within(universe, s.walk.next)
    requires (forall u :: u in universe ==> Canonical(u)) && NamesWithin(universe, RequestOf(cfg, s), r)
    ensures var t := React(cfg, s, r);
      t.Valid() && Within(universe, t.walk.next) && t.pdus == s.pdus + 1 && Spent(universe, t) <= Spent(universe, s)
  {
    hide Canonical, CanonicalOID, Units, Consumed, Ahead, SortedKeys, State.Chunk, Log2, RequestOf;
    ChunkIsActive(s);
    RequestIsWithin(universe, cfg, s);
    var chunk := s.Chunk();
    if s.sizer.CanShrink() {
      ShrinkPays(s.sizer);
    }
    SuccessCosts(s.sizer);
    PotentialIsBounded(s.sizer);
    if r.Packet? && r.status == NoError {
      ConsumedPays(universe, chunk, Cap(cfg), s.walk, r.variables);
    }
    if r.Packet? && r.status == NoSuchName && 1 <= r.errorIndex <= |chunk| {
      var c := chunk[r.errorIndex - 1];
      assert c in chunk;
      EndingIsNotMore(universe, s.walk.next, {c});
      assert c !in (s.walk.next - {c}).Keys;
    }
  }

  lemma {:induction false} RunSpendsNothing(universe: set<string>, session: Session, cfg: FetchConfig, s: State, n: nat)
    requires s.Valid() && Within(universe, s.walk.next) && Finite(session, universe)
    ensures var t := Run(session, cfg, s, n);
      && Within(universe, t.walk.next)
      && Spent(universe, t) <= Spent(universe, s)
      && (t.Running() ==> t.pdus == s.pdus + n)
  {
    hide Spent, Within, React, RequestOf, Canonical, CanonicalOID, NamesWithin;
    if n > 0 {
      RunSpendsNothing(universe, session, cfg, s, n - 1);
      var t := Run(session, cfg, s, n - 1);
      if t.Running() {
        if session.cancelled(t.pdus) {
          FailSpendsNothing(universe, t, Cancelled);
        } else {
          ReactSpendsNothing(universe, cfg, t, session.answer(t.pdus, RequestOf(cfg, t)));
        }
      }
    }
  }

  lemma FailSpendsNothing(universe: set<string>, s: State, e: FetchError)
    requires s.Valid() && !s.stopped && Within(universe, s.walk.next)
    ensures Spent(universe, s.Fail(e)) <= Spent(universe, s) && Within(universe, s.Fail(e).walk.next)
  {
  }

  /** `units` is the number of columns plus, for each, the OIDs of the universe below it. */
  ghost function PduBound(units: nat, max: nat, bulk: bool): nat
    requires max >= 1
  {
    units + units / 10 + if bulk then 2 * Log2(max) + 2 else Log2(max) + 1
  }

  ghost function StartUnits(universe: set<string>, columnOIDs: seq<string>): nat {
    Units(universe, map c | c in Roots(columnOIDs) :: c)
  }

  /** The walk of any device with finitely many names sends a bounded number of packets. */
  lemma WalkPduBound(universe: set<string>, session: Session, cfg: FetchConfig, columnOIDs: seq<string>, pdus: nat, n: nat)
    requires Finite(session, universe) && Roots(columnOIDs) <= universe
    ensures Run(session, cfg, Start(session, cfg, columnOIDs, pdus), n).pdus <=
            pdus + PduBound(StartUnits(universe, columnOIDs), NewSizer(cfg.oidBatchSize).max, session.supportsGetBulk)
  {
    hide Run, Finite, Log2, Units;
    var s := Start(session, cfg, columnOIDs, pdus);
    RunSpendsNothing(universe, session, cfg, s, n);
    PotentialIsBounded(s.sizer);
  }

  /** And the loop is over one turn later. */
  lemma WalkEnds(universe: set<string>, session: Session, cfg: FetchConfig, columnOIDs: seq<string>, pdus: nat, n: nat)
    requires Finite(session, universe) && Roots(columnOIDs) <= universe
    requires n > PduBound(StartUnits(universe, columnOIDs), NewSizer(cfg.oidBatchSize).max, session.supportsGetBulk)
    ensures !Run(session, cfg, Start(session, cfg, columnOIDs, pdus), n).Running()
  {
    hide Run, Finite, Log2, Units;
    var s := Start(session, cfg, columnOIDs, pdus);
    RunSpendsNothing(universe, session, cfg, s, n);
    WalkPduBound(universe, session, cfg, columnOIDs, pdus, n);
  }

  /** The OIDs of the universe that lie below some column. */
  ghost function Below(universe: set<string>, columns: set<string>): set<string> {
    set u | u in universe && exists c :: c in columns && Under(c, u)
  }

  /** For columns that do not nest, the units are the columns and the OIDs below them, each counted once. */
  lemma {:induction false} UnitsOfDisjointColumns(universe: set<string>, next: map<string, string>)
    requires (forall u :: u in universe ==> Canonical(u)) && (forall c :: c in next ==> Canonical(c) && next[c] == c)
    requires NonNested(next.Keys)
    ensures Units(universe, next) == |next| + |Below(universe, next.Keys)|
    decreases |next|
  {
    hide Canonical, Units, RowIndex, CompareOIDs;
    if next == map[] {
      NoUnits(universe);
      assert Below(universe, next.Keys) == {};
    } else {
      var c :| c in next;
      var rest := next - {c};
      UnitsOf(universe, next, c);
      assert next.Keys == rest.Keys + {c};
      UnitsOfDisjointColumns(universe, rest);
      var own, others := Ahead(universe, c, c), Below(universe, rest.Keys);
      forall u | u in own
        ensures u !in others
      {
        if u in others {
          var d :| d in rest.Keys && Under(d, u);
          SharedRowMeansNested(c, d, u);
          assert false;
        }
      }
      assert Below(universe, next.Keys) == own + others;
    }
  }

  lemma NoUnits(universe: set<string>)
    ensures Units(universe, map[]) == 0
  {
  }

  // ----- exactness -----

  /** Every error-free answer of a correct agent continues the requested traversals, by at least one repetition if asked to. */
  lemma AnswerInterleaves(mib: Mib, dev: Device, bulk: bool, rounds: nat, from: seq<string>, r: Response) returns (who: seq<nat>)
    requires if bulk then BulkAnswer(mib, from, rounds, r) else NextAnswer(mib, dev, from, r)
    requires r.status == NoError
    ensures r.Packet? && |who| == |r.variables| && Interleaves(mib, from, who, r.variables)
    ensures !bulk || rounds >= 1 ==> FullRepetition(|from|, who)
  {
    hide Interleaves, Continues, IsLast;
    if bulk {
      who :| |who| == |r.variables| && (rounds >= 1 ==> FullRepetition(|from|, who)) && AtMostEach(who, rounds) && Interleaves(mib, from, who, r.variables);
    } else {
      OneRepetition(mib, from, from, r.variables, 0);
      who := seq(|from| - 0, i requires 0 <= i => 0 + i);
      assert r.variables[0..] == r.variables;
    }
  }

  ghost predicate AnswersWalk(mib: Mib, dev: Device, cfg: FetchConfig, s: State, r: Response)
    requires s.Running() && s.Valid()
  {
    ChunkIsActive(s);
    var from := Positions(s.walk.next, s.Chunk());
    if s.useBulk then BulkAnswer(mib, from, cfg.bulkMaxRepetitions, r) else NextAnswer(mib, dev, from, r)
  }

  lemma PositionsAreCanonical(mib: Mib, cap: nat, s: State)
    requires Proper(mib) && WalkOk(mib, cap, s.walk) && s.Running() && s.Valid()
    ensures forall c :: c in s.Chunk() ==> c in s.walk.next
    ensures forall o :: o in Positions(s.walk.next, s.Chunk()) ==> Canonical(o)
  {
    hide WalkOk, Canonical, SortedKeys, State.Chunk, RowIndex;
    ChunkIsActive(s);
    var from := Positions(s.walk.next, s.Chunk());
    forall o | o in from
      ensures Canonical(o)
    {
      var k :| 0 <= k < |from| && from[k] == o;
      PositionIsCanonical(mib, cap, s.walk, s.Chunk()[k]);
    }
  }

  /** Stripping the leading dots of a request gives back the positions it asks from. */
  lemma AnswerIsForPositions(mib: Mib, dev: Device, cfg: FetchConfig, s: State, r: Response)
    requires Proper(mib) && WalkOk(mib, Cap(cfg), s.walk) && s.Running() && s.Valid()
    requires Answers(mib, dev, RequestOf(cfg, s), r)
    ensures AnswersWalk(mib, dev, cfg, s, r)
  {
    hide WalkOk, Canonical, CanonicalOID, SortedKeys, State.Chunk, BulkAnswer, NextAnswer;
    PositionsAreCanonical(mib, Cap(cfg), s);
    var from := Positions(s.walk.next, s.Chunk());
    PrefixedNames(from);
    var req := RequestOf(cfg, s);
    assert seq(|req.names|, i requires 0 <= i < |req.names| => CanonicalOID(req.names[i])) == from;
  }

  lemma NoErrorKeepsWalk(mib: Mib, dev: Device, cfg: FetchConfig, s: State, r: Response)
    requires Proper(mib) && s.Running() && s.Valid() && WalkOk(mib, Cap(cfg), s.walk) && cfg.bulkMaxRepetitions >= 1
    requires AnswersWalk(mib, dev, cfg, s, r) && r.status == NoError
    ensures WalkOk(mib, Cap(cfg), React(cfg, s, r).walk)
  {
    hide WalkOk, Canonical, CanonicalOID, SortedKeys, State.Chunk, BulkAnswer, NextAnswer, Interleaves, Consumed, AtEnd, FullRepetition;
    ChunkIsActive(s);
    var chunk := s.Chunk();
    var from := Positions(s.walk.next, chunk);
    var who := AnswerInterleaves(mib, dev, s.useBulk, cfg.bulkMaxRepetitions, from, r);
    ConsumedIsOk(mib, Cap(cfg), s.walk, chunk, from, who, r.variables);
    var p := Consumed(chunk, Cap(cfg), s.walk, r.variables);
    if !p.progressed {
      EndIsOk(mib, Cap(cfg), p.walk, set c | c in chunk);
    }
  }

  lemma IsLastIsAtEnd(mib: Mib, c: string, position: string)
    requires Proper(mib) && Canonical(position) && IsLast(mib, position)
    ensures AtEnd(mib, c, position)
  {
    hide Canonical, CompareOIDs, RowIndex;
    forall o | o in mib
      ensures CompareOIDs(o, position) <= 0
    {
      OrderIsTotal(position, o);
    }
  }

  lemma NamedColumnIsAtEnd(mib: Mib, dev: Device, cfg: FetchConfig, s: State, r: Response)
    requires Proper(mib) && s.Running() && s.Valid() && WalkOk(mib, Cap(cfg), s.walk)
    requires AnswersWalk(mib, dev, cfg, s, r) && r.status == NoSuchName && (dev.v1 ==> |s.Chunk()| <= 255)
    ensures r.Packet? && 1 <= r.errorIndex <= |s.Chunk()| && (forall c :: c in s.Chunk() ==> c in s.walk.next)
    ensures var c := s.Chunk()[r.errorIndex - 1]; AtEnd(mib, c, s.walk.next[c])
  {
    hide WalkOk, Proper, Canonical, CanonicalOID, State.Chunk, Interleaves, AtEnd, IsLast;
    ChunkIsActive(s);
    PositionsAreCanonical(mib, Cap(cfg), s);
    var chunk := s.Chunk();
    var from := Positions(s.walk.next, chunk);
    var i :| 0 <= i < |from| && IsLast(mib, from[i]) && r.errorIndex == (i + 1) % 256;
    assert from[i] in from;
    IsLastIsAtEnd(mib, chunk[i], from[i]);
  }

  /** A v1 noSuchName names a column whose position is the last instance of the device. */
  lemma NoSuchNameKeepsWalk(mib: Mib, dev: Device, cfg: FetchConfig, s: State, r: Response)
    requires Proper(mib) && s.Running() && s.Valid() && WalkOk(mib, Cap(cfg), s.walk)
    requires AnswersWalk(mib, dev, cfg, s, r) && r.status == NoSuchName && (dev.v1 ==> |s.Chunk()| <= 255)
    ensures WalkOk(mib, Cap(cfg), React(cfg, s, r).walk) && React(cfg, s, r).errors == s.errors
  {
    hide WalkOk, Proper, AnswersWalk, State.Chunk, React, AtEnd, Cap;
    NamedColumnIsAtEnd(mib, dev, cfg, s, r);
    NamingEndsTheColumn(cfg, s, r);
    EndIsOk(mib, Cap(cfg), s.walk, {s.Chunk()[r.errorIndex - 1]});
  }

  lemma NamingEndsTheColumn(cfg: FetchConfig, s: State, r: Response)
    requires s.Running() && s.Valid() && r.Packet? && r.status == NoSuchName && 1 <= r.errorIndex <= |s.Chunk()|
    ensures React(cfg, s, r).walk == s.walk.(next := s.walk.next - {s.Chunk()[r.errorIndex - 1]})
    ensures React(cfg, s, r).errors == s.errors
  {
    hide State.Chunk, Absorbed;
  }

  /** Whatever the device does, as long as it does not lie: every column stays exact. */
  lemma StepKeepsWalk(session: Session, mib: Mib, dev: Device, cfg: FetchConfig, s: State)
    requires Proper(mib) && Honest(session, mib, dev) && (dev.v1 ==> |s.Chunk()| <= 255)
    requires s.Running() && s.Valid() && WalkOk(mib, Cap(cfg), s.walk) && cfg.bulkMaxRepetitions >= 1
    ensures WalkOk(mib, Cap(cfg), Step(session, cfg, s).walk)
  {
    hide WalkOk, Canonical, CanonicalOID, State.Chunk, Consumed, RequestOf, Answers, AnswersWalk;
    var r := session.answer(s.pdus, RequestOf(cfg, s));
    if !session.cancelled(s.pdus) && !Refuses(r) {
      AnswerIsForPositions(mib, dev, cfg, s, r);
      AnswerIsPacket(mib, dev, cfg, s, r);
      if r.status == NoError {
        NoErrorKeepsWalk(mib, dev, cfg, s, r);
      } else {
        NoSuchNameKeepsWalk(mib, dev, cfg, s, r);
      }
    }
  }

  lemma AnswerIsPacket(mib: Mib, dev: Device, cfg: FetchConfig, s: State, r: Response)
    requires s.Running() && s.Valid() && AnswersWalk(mib, dev, cfg, s, r)
    ensures r.Packet? && (r.status == NoError || r.status == NoSuchName)
  {
    hide Continues, Interleaves, IsLast, State.Chunk;
  }

  lemma {:induction false} VariablesKeepColumns(chunk: seq<string>, cap: nat, p: Pass, vars: seq<Variable>)
    requires p.walk.Keyed()
    ensures ApplyVariables(chunk, cap, p, vars).walk.columns.Keys == p.walk.columns.Keys
    decreases |vars|
  {
    hide LongestMatch, CanonicalOID, CompareOIDs, Decode;
    if vars != [] {
      VariablesKeepColumns(chunk, cap, ApplyVariable(chunk, cap, p, vars[0]), vars[1..]);
    }
  }

  lemma StepKeepsColumns(session: Session, cfg: FetchConfig, s: State)
    requires s.Running() && s.Valid()
    ensures Step(session, cfg, s).walk.columns.Keys == s.walk.columns.Keys
  {
    hide State.Chunk, RequestOf, ApplyVariables;
    if !session.cancelled(s.pdus) {
      var r := session.answer(s.pdus, RequestOf(cfg, s));
      if r.Packet? {
        VariablesKeepColumns(s.Chunk(), Cap(cfg), Pass(s.walk, {}, false), r.variables);
      }
    }
  }

  /** Columns that do not nest, spelled canonically up to surrounding space and a leading dot. */
  ghost predicate Walkable(columnOIDs: seq<string>) {
    && (forall c :: c in Roots(columnOIDs) ==> Canonical(c))
    && NonNested(Roots(columnOIDs))
  }

  lemma StartIsOk(mib: Mib, session: Session, cfg: FetchConfig, columnOIDs: seq<string>, pdus: nat)
    requires Proper(mib) && Walkable(columnOIDs)
    ensures WalkOk(mib, Cap(cfg), Start(session, cfg, columnOIDs, pdus).walk)
  {
    hide Canonical, Under, Upto, ReadableRows, RowMap;
    var w := Start(session, cfg, columnOIDs, pdus).walk;
    forall c | c in w.columns
      ensures ColumnOk(mib, Cap(cfg), w, c)
    {
      UptoRoot(mib, c);
      RowMapOfNone(mib, c);
    }
  }

  lemma {:induction false} RunKeepsWalk(session: Session, mib: Mib, dev: Device, cfg: FetchConfig, columnOIDs: seq<string>, pdus: nat, n: nat)
    requires Proper(mib) && Honest(session, mib, dev) && dev.CanName(cfg.oidBatchSize, |Roots(columnOIDs)|) && Walkable(columnOIDs)
    requires cfg.bulkMaxRepetitions >= 1
    ensures var t := Run(session, cfg, Start(session, cfg, columnOIDs, pdus), n);
      WalkOk(mib, Cap(cfg), t.walk) && t.walk.columns.Keys == Roots(columnOIDs)
  {
    hide WalkOk, Step, Canonical, CanonicalOID, Honest, Walkable, State.Chunk, Roots;
    if n == 0 {
      StartIsOk(mib, session, cfg, columnOIDs, pdus);
    } else {
      RunKeepsWalk(session, mib, dev, cfg, columnOIDs, pdus, n - 1);
      var t := Run(session, cfg, Start(session, cfg, columnOIDs, pdus), n - 1);
      if t.Running() {
        ChunkIsSmall(t, |Roots(columnOIDs)|);
        StepKeepsWalk(session, mib, dev, cfg, t);
        StepKeepsColumns(session, cfg, t);
      }
    }
  }

  /** The column holds exactly some readable rows together with every readable row before them. */
  ghost predicate HoldsPrefix(mib: Mib, c: string, rows: map<string, Value>)
    requires Proper(mib) && Canonical(c)
  {
    exists held :: held <= ReadableRows(mib, c) && Initial(mib, c, held) && rows == RowMap(mib, c, held)
  }

  /** Every column holds its first `cap` readable rows, and the truncated columns are those with more, once each. */
  ghost predicate Exact(mib: Mib, cap: nat, roots: set<string>, columns: map<string, map<string, Value>>, truncated: seq<string>)
    requires Proper(mib) && forall c :: c in roots ==> Canonical(c)
  {
    && columns.Keys == roots
    && (forall c :: c in roots ==> columns[c] == RowMap(mib, c, FirstRows(mib, c, cap)))
    && Distinct(truncated)
    && (forall c :: c in truncated <==> c in roots && |ReadableRows(mib, c)| > cap)
  }

  lemma UptoIsInitial(mib: Mib, c: string, position: string)
    requires Proper(mib) && Canonical(position)
    ensures Initial(mib, c, Upto(mib, c, position))
  {
    hide Canonical, CompareOIDs, RowIndex, Decode;
    forall o, p | o in Upto(mib, c, position) && p in ReadableRows(mib, c) && CompareOIDs(p, o) <= 0
      ensures p in Upto(mib, c, position)
    {
      OrderIsTransitive(p, o, position);
    }
  }

  /**
   * Around correct answers the device may lose requests, refuse them with any error status, or the poll may be
   * cancelled: in every reachable state every column holds a prefix of its rows, and a walk that ends without an
   * error is complete.
   */
  lemma WalkIsSound(session: Session, mib: Mib, dev: Device, cfg: FetchConfig, columnOIDs: seq<string>, pdus: nat, n: nat)
    requires Proper(mib) && Honest(session, mib, dev) && dev.CanName(cfg.oidBatchSize, |Roots(columnOIDs)|) && Walkable(columnOIDs)
    requires cfg.bulkMaxRepetitions >= 1
    ensures var t := Run(session, cfg, Start(session, cfg, columnOIDs, pdus), n);
      && t.walk.columns.Keys == Roots(columnOIDs)
      && (forall c :: c in Roots(columnOIDs) ==> HoldsPrefix(mib, c, t.walk.columns[c]))
      && (t.walk.next == map[] ==> Exact(mib, Cap(cfg), Roots(columnOIDs), t.walk.columns, t.walk.truncated))
      && (!t.Running() && t.errors == [] ==> t.walk.next == map[])
  {
    hide Run, Canonical, RowIndex, CompareOIDs, RowMap, ReadableRows, Upto, FirstRows, Honest, Roots, Initial;
    RunKeepsWalk(session, mib, dev, cfg, columnOIDs, pdus, n);
    StoppedMeansError(session, cfg, Start(session, cfg, columnOIDs, pdus), n);
    var w := Run(session, cfg, Start(session, cfg, columnOIDs, pdus), n).walk;
    forall c | c in w.columns
      ensures HoldsPrefix(mib, c, w.columns[c])
    {
      assert ColumnOk(mib, Cap(cfg), w, c);
      if c in w.next {
        PositionIsCanonical(mib, Cap(cfg), w, c);
        UptoWithin(mib, c, w.next[c]);
        UptoIsInitial(mib, c, w.next[c]);
      } else {
        FirstRowsWithin(mib, c, Cap(cfg));
        FirstRowsAreInitial(mib, c, Cap(cfg));
      }
    }
    if w.next == map[] {
      assert forall c :: c in w.columns ==> ColumnOk(mib, Cap(cfg), w, c);
    }
  }

  lemma StopMeansError(session: Session, cfg: FetchConfig, s: State)
    requires s.Running() && s.Valid() && s.errors == []
    ensures |Step(session, cfg, s).errors| == if Step(session, cfg, s).stopped then 1 else 0
  {
    hide Absorbed, RequestOf, State.Chunk;
  }

  /** One error is the only way the loop stops with columns unfinished. */
  lemma {:induction false} StoppedMeansError(session: Session, cfg: FetchConfig, s: State, n: nat)
    requires s.Valid() && !s.stopped && s.errors == []
    ensures |Run(session, cfg, s, n).errors| == if Run(session, cfg, s, n).stopped then 1 else 0
  {
    hide Step;
    if n > 0 {
      StoppedMeansError(session, cfg, s, n - 1);
      var t := Run(session, cfg, s, n - 1);
      if t.Running() {
        StopMeansError(session, cfg, t);
      }
    }
  }

  /** The turn that stopped the loop, by a cancellation or on a response that could not be used. */
  ghost predicate StoppedBy(session: Session, cfg: FetchConfig, s: State, errors: seq<FetchError>) {
    && s.Running() && s.Valid()
    && errors == [if session.cancelled(s.pdus) then Cancelled else Reason(session.answer(s.pdus, RequestOf(cfg, s)))]
  }

  lemma StepStopsFor(session: Session, cfg: FetchConfig, s: State)
    requires s.Running() && s.Valid() && s.errors == []
    ensures Step(session, cfg, s).stopped ==> StoppedBy(session, cfg, s, Step(session, cfg, s).errors)
  {
    hide Absorbed, RequestOf, State.Chunk;
  }

  /** The one error says why the loop stopped. */
  lemma {:induction false} StoppedForAReason(session: Session, cfg: FetchConfig, s: State, n: nat)
    requires s.Valid() && !s.stopped && s.errors == []
    ensures Run(session, cfg, s, n).stopped ==>
      exists k: nat :: k < n && StoppedBy(session, cfg, Run(session, cfg, s, k), Run(session, cfg, s, n).errors)
  {
    hide Step, StoppedBy;
    if n > 0 {
      StoppedForAReason(session, cfg, s, n - 1);
      StoppedMeansError(session, cfg, s, n - 1);
      var t := Run(session, cfg, s, n - 1);
      if t.Running() {
        StepStopsFor(session, cfg, t);
      }
    }
  }

  lemma ServedWithoutError(session: Session, mib: Mib, dev: Device, cfg: FetchConfig, s: State)
    requires Proper(mib) && Serves(session, mib, dev) && (dev.v1 ==> |s.Chunk()| <= 255)
    requires s.Running() && s.Valid() && WalkOk(mib, Cap(cfg), s.walk)
    ensures Step(session, cfg, s).errors == s.errors
  {
    hide WalkOk, Canonical, CanonicalOID, SortedKeys, Consumed, Answers, AnswersWalk;
    ChunkIsActive(s);
    var req := RequestOf(cfg, s);
    var r := session.answer(s.pdus, req);
    assert |req.names| == |s.Chunk()|;
    if Answers(mib, dev, req, r) {
      hide RequestOf, State.Chunk;
      AnswerIsForPositions(mib, dev, cfg, s, r);
      AnswerIsPacket(mib, dev, cfg, s, r);
      if r.status == NoSuchName {
        NoSuchNameKeepsWalk(mib, dev, cfg, s, r);
      }
    }
  }

  lemma {:induction false} RunGivesNothingUp(session: Session, mib: Mib, dev: Device, cfg: FetchConfig, columnOIDs: seq<string>, pdus: nat, n: nat)
    requires Proper(mib) && Serves(session, mib, dev) && dev.CanName(cfg.oidBatchSize, |Roots(columnOIDs)|) && Walkable(columnOIDs)
    requires cfg.bulkMaxRepetitions >= 1
    ensures Run(session, cfg, Start(session, cfg, columnOIDs, pdus), n).errors == []
  {
    hide WalkOk, Step, Canonical, CanonicalOID, Serves, Walkable, State.Chunk, Roots;
    if n > 0 {
      RunGivesNothingUp(session, mib, dev, cfg, columnOIDs, pdus, n - 1);
      var t := Run(session, cfg, Start(session, cfg, columnOIDs, pdus), n - 1);
      if t.Running() {
        ServesIsHonest(session, mib, dev);
        RunKeepsWalk(session, mib, dev, cfg, columnOIDs, pdus, n - 1);
        ChunkIsSmall(t, |Roots(columnOIDs)|);
        ServedWithoutError(session, mib, dev, cfg, t);
      }
    }
  }

  /** The names a correct device can show in a walk: its instances, and echoes of the request. */
  ghost function Names(mib: Mib, columnOIDs: seq<string>): set<string> {
    mib.Keys + Roots(columnOIDs)
  }

  lemma ContinuesWithin(mib: Mib, universe: set<string>, cursor: string, v: Variable)
    requires CanonicalNames(mib) && mib.Keys <= universe && cursor in universe && Canonical(cursor) && Continues(mib, cursor, v)
    ensures CanonicalOID(v.name) in universe
  {
    hide Canonical, CanonicalOID, OIDLess, CompareOIDs, IsLast;
    CanonicalOIDFixes(cursor);
    if !IsLast(mib, cursor) {
      var s :| IsSuccessor(mib, cursor, s) && v == At(mib, s);
      CanonicalOIDFixes(s);
    }
  }

  lemma {:induction false} InterleavedNames(mib: Mib, universe: set<string>, at: seq<string>, who: seq<nat>, vars: seq<Variable>)
    requires CanonicalNames(mib) && mib.Keys <= universe && (forall u :: u in universe ==> Canonical(u))
    requires (forall o :: o in at ==> o in universe) && |who| == |vars| && Interleaves(mib, at, who, vars)
    ensures forall v :: v in vars ==> CanonicalOID(v.name) in universe
    decreases |vars|
  {
    hide Canonical, CanonicalOID, Continues, CanonicalNames;
    if vars != [] {
      var k, v := who[0], vars[0];
      assert at[k] in at;
      ContinuesWithin(mib, universe, at[k], v);
      InterleavedNames(mib, universe, Advance(at, k, v), who[1..], vars[1..]);
      assert vars == [v] + vars[1..];
    }
  }

  lemma AnswersAreWithin(mib: Mib, dev: Device, universe: set<string>, req: Request, r: Response)
    requires Proper(mib) && mib.Keys <= universe && (forall u :: u in universe ==> Canonical(u))
    requires Answers(mib, dev, req, r)
    ensures NamesWithin(universe, req, r)
  {
    hide Canonical, CanonicalOID, Interleaves, Continues, IsLast;
    var oids := seq(|req.names|, i requires 0 <= i < |req.names| => CanonicalOID(req.names[i]));
    if r.status == NoError && forall name :: name in req.names ==> CanonicalOID(name) in universe {
      assert forall o :: o in oids ==> o in universe;
      if req.Get? {
        forall v | v in r.variables
          ensures CanonicalOID(v.name) in universe
        {
          var i :| 0 <= i < |oids| && v == GetVariable(mib, dev, oids[i]);
          assert oids[i] in oids;
          CanonicalOIDFixes(oids[i]);
        }
      } else {
        var who := AnswerInterleaves(mib, dev, req.GetBulk?, if req.GetBulk? then req.repetitions else 1, oids, r);
        InterleavedNames(mib, universe, oids, who, r.variables);
      }
    }
  }

  lemma HonestIsFinite(session: Session, mib: Mib, dev: Device, columnOIDs: seq<string>)
    requires Proper(mib) && Honest(session, mib, dev) && Walkable(columnOIDs)
    ensures Finite(session, Names(mib, columnOIDs))
  {
    hide Canonical, CanonicalOID, Answers, Roots, NamesWithin;
    var universe := Names(mib, columnOIDs);
    forall n, req
      ensures NamesWithin(universe, req, session.answer(n, req))
    {
      if Refuses(session.answer(n, req)) {
        RefusalIsWithin(universe, req, session.answer(n, req));
      } else {
        AnswersAreWithin(mib, dev, universe, req, session.answer(n, req));
      }
    }
  }

  lemma RefusalIsWithin(universe: set<string>, req: Request, r: Response)
    requires Refuses(r)
    ensures NamesWithin(universe, req, r)
  {
  }

  /** Turns after which the walk of a correct device is over. */
  ghost function EnoughTurns(session: Session, mib: Mib, cfg: FetchConfig, columnOIDs: seq<string>): nat {
    PduBound(StartUnits(Names(mib, columnOIDs), columnOIDs), NewSizer(cfg.oidBatchSize).max, session.supportsGetBulk) + 1
  }

  /**
   * Walk exactness. The result is a function of the device's rows, the columns and the cap alone: GETBULK or
   * GETNEXT, any batch size, repetition count, size limit of at least one OID, protocol version, and any loss of
   * bulk or multi-column requests make no difference.
   */
  lemma WalkIsExact(session: Session, mib: Mib, dev: Device, cfg: FetchConfig, columnOIDs: seq<string>, pdus: nat, n: nat)
    requires Proper(mib) && Serves(session, mib, dev) && dev.CanName(cfg.oidBatchSize, |Roots(columnOIDs)|) && Walkable(columnOIDs)
    requires cfg.bulkMaxRepetitions >= 1
    requires n >= EnoughTurns(session, mib, cfg, columnOIDs)
    ensures var t := Run(session, cfg, Start(session, cfg, columnOIDs, pdus), n);
      t.errors == [] && Exact(mib, Cap(cfg), Roots(columnOIDs), t.walk.columns, t.walk.truncated)
  {
    hide Run, Canonical, Serves, Finite, Exact, Roots, Under, Log2, Units;
    ServesIsHonest(session, mib, dev);
    HonestIsFinite(session, mib, dev, columnOIDs);
    RunGivesNothingUp(session, mib, dev, cfg, columnOIDs, pdus, n);
    WalkEnds(Names(mib, columnOIDs), session, cfg, columnOIDs, pdus, n);
    WalkIsSound(session, mib, dev, cfg, columnOIDs, pdus, n);
  }

  // ----- stored values are true, whatever the columns -----

  /** All that is asked of the device here: what it shows under a name is its value there. */
  ghost predicate Truthful(session: Session, mib: Mib) {
    forall n, req, v :: session.answer(n, req).Packet? && session.answer(n, req).status == NoError && v in session.answer(n, req).variables ==>
      TrueVariable(mib, v)
  }

  lemma ContinuesTruly(mib: Mib, cursor: string, v: Variable)
    requires Proper(mib) && Continues(mib, cursor, v)
    ensures TrueVariable(mib, v)
  {
    hide Canonical, CanonicalOID, IsLast, OIDLess, CompareOIDs;
    if !IsLast(mib, cursor) {
      var s :| IsSuccessor(mib, cursor, s) && v == At(mib, s);
      CanonicalOIDFixes(s);
    }
  }

  lemma {:induction false} InterleavesTruly(mib: Mib, at: seq<string>, who: seq<nat>, vars: seq<Variable>)
    requires Proper(mib) && |who| == |vars| && Interleaves(mib, at, who, vars)
    ensures forall v :: v in vars ==> TrueVariable(mib, v)
    decreases |vars|
  {
    hide TrueVariable, Continues, CanonicalOID, Proper;
    if vars != [] {
      ContinuesTruly(mib, at[who[0]], vars[0]);
      InterleavesTruly(mib, Advance(at, who[0], vars[0]), who[1..], vars[1..]);
      assert vars == [vars[0]] + vars[1..];
    }
  }

  lemma GetsTruly(mib: Mib, dev: Device, oid: string)
    requires Proper(mib)
    ensures TrueVariable(mib, GetVariable(mib, dev, oid))
  {
    hide Canonical, CanonicalOID, DecodeNumeric, Device.Implements;
    if oid in mib {
      CanonicalOIDFixes(oid);
    }
  }

  lemma HonestIsTruthful(session: Session, mib: Mib, dev: Device)
    requires Proper(mib) && Honest(session, mib, dev)
    ensures Truthful(session, mib)
  {
    hide TrueVariable, Proper, CanonicalOID, GetVariable, Interleaves, Continues, IsLast;
    forall n, req, v | session.answer(n, req).Packet? && session.answer(n, req).status == NoError && v in session.answer(n, req).variables
      ensures TrueVariable(mib, v)
    {
      var r := session.answer(n, req);
      var oids := seq(|req.names|, i requires 0 <= i < |req.names| => CanonicalOID(req.names[i]));
      if req.Get? {
        var i :| 0 <= i < |oids| && v == GetVariable(mib, dev, oids[i]);
        GetsTruly(mib, dev, oids[i]);
      } else {
        var who := AnswerInterleaves(mib, dev, req.GetBulk?, if req.GetBulk? then req.repetitions else 1, oids, r);
        InterleavesTruly(mib, oids, who, r.variables);
      }
    }
  }

  lemma StepKeepsCells(session: Session, mib: Mib, cfg: FetchConfig, s: State)
    requires Proper(mib) && Truthful(session, mib) && s.Running() && s.Valid()
    requires TrueCells(mib, s.walk.columns) && forall c :: c in s.walk.columns ==> Canonical(c)
    ensures TrueCells(mib, Step(session, cfg, s).walk.columns)
  {
    hide TrueCells, TrueVariable, Canonical, Proper, State.Chunk, RequestOf, ApplyVariables;
    ChunkIsActive(s);
    var r := session.answer(s.pdus, RequestOf(cfg, s));
    if !session.cancelled(s.pdus) && r.Packet? && r.status == NoError {
      VariablesKeepCells(mib, s.Chunk(), Cap(cfg), Pass(s.walk, {}, false), r.variables);
    }
  }

  /**
   * Nested columns, cut answers, SNMPv1 batches of any size, failures: whatever happens, every cell that is ever stored
   * is the device's value at column and index, as long as the device does not lie.
   */
  lemma {:induction false} CellsAreTrue(session: Session, mib: Mib, cfg: FetchConfig, columnOIDs: seq<string>, pdus: nat, n: nat)
    requires Proper(mib) && Truthful(session, mib) && forall c :: c in Roots(columnOIDs) ==> Canonical(c)
    ensures var t := Run(session, cfg, Start(session, cfg, columnOIDs, pdus), n);
      TrueCells(mib, t.walk.columns) && t.walk.columns.Keys == Roots(columnOIDs)
  {
    hide Step, Canonical, Proper, Truthful, Roots, Reading;
    if n > 0 {
      CellsAreTrue(session, mib, cfg, columnOIDs, pdus, n - 1);
      var t := Run(session, cfg, Start(session, cfg, columnOIDs, pdus), n - 1);
      hide TrueCells;
      if t.Running() {
        StepKeepsCells(session, mib, cfg, t);
        StepKeepsColumns(session, cfg, t);
      }
    }
  }

  // ----- the loop itself -----

  /** The `next` map that fetchColumns shares with consume. */
  class WalkTable {
    var next: map<string, string>

    constructor (next: map<string, string>)
      ensures this.next == next
    {
      this.next := next;
    }
  }

  ghost function Current(table: WalkTable, store: ValueStore, report: FetchReport): Walk
    reads table, store, report
  {
    Walk(table.next, store.Columns, report.TruncatedColumns)
  }

  method MatchColumn(columns: seq<string>, oid: string) returns (column: string, index: string, ok: bool)
    ensures LongestMatch(columns, oid) == if ok then Some(column) else None
    ensures ok ==> index == IndexOf(column, oid)
  {
    hide RowIndex;
    column, index, ok := "", "", false;
    var i := 0;
    while i < |columns|
      invariant 0 <= i <= |columns|
      invariant LongestMatch(columns[..i], oid) == if ok then Some(column) else None
      invariant ok ==> index == IndexOf(column, oid)
    {
      assert columns[..i + 1][..i] == columns[..i];
      var idx := RowIndex(columns[i], oid);
      if idx.Some? {
        if !ok || |columns[i]| > |column| {
          column, index, ok := columns[i], idx.value, true;
        }
      }
      i := i + 1;
    }
    assert columns[..i] == columns;
  }

  /** The body of consume's loop; an early return stands for `continue`. */
  method Accept(pdu: Variable, chunk: seq<string>, table: WalkTable, store: ValueStore, cap: nat, report: FetchReport,
                answered: set<string>, progressed: bool)
    returns (nowAnswered: set<string>, nowProgressed: bool)
    requires Current(table, store, report).Keyed()
    modifies table, store`Columns, report`TruncatedColumns
    ensures Pass(Current(table, store, report), nowAnswered, nowProgressed) ==
            ApplyVariable(chunk, cap, Pass(old(Current(table, store, report)), answered, progressed), pdu)
  {
    hide LongestMatch, CanonicalOID, CompareOIDs, Decode, RowIndex;
    nowAnswered, nowProgressed := answered, progressed;
    var oid := CanonicalOID(pdu.name);
    var column, index, matched := MatchColumn(chunk, oid);
    if !matched || column !in table.next {
      return;
    }
    var position := table.next[column];
    nowAnswered := answered + {column};
    if position != column && CompareOIDs(oid, position) <= 0 {
      return;
    }
    var value := Decode(pdu);
    if value.Some? {
      var rows := store.Columns[column];
      if |rows| >= cap {
        report.TruncatedColumns := report.TruncatedColumns + [column];
        table.next := table.next - {column};
        return;
      }
      store.Columns := store.Columns[column := rows[index := value.value]];
    }
    table.next := table.next[column := oid];
    nowProgressed := true;
  }

  method Consume(variables: seq<Variable>, chunk: seq<string>, table: WalkTable, store: ValueStore, cap: nat, report: FetchReport)
    returns (progressed: bool)
    requires Current(table, store, report).Keyed()
    modifies table, store`Columns, report`TruncatedColumns
    ensures var p := Consumed(chunk, cap, old(Current(table, store, report)), variables);
      Current(table, store, report) == p.walk && progressed == p.progressed
  {
    hide ApplyVariable;
    ghost var start := Pass(Current(table, store, report), {}, false);
    progressed := false;
    var answered: set<string> := {};
    var i := 0;
    while i < |variables|
      invariant 0 <= i <= |variables|
      invariant Current(table, store, report).Keyed()
      invariant ApplyVariables(chunk, cap, Pass(Current(table, store, report), answered, progressed), variables[i..]) ==
                ApplyVariables(chunk, cap, start, variables)
    {
      assert variables[i..][1..] == variables[i + 1..] && variables[i..][0] == variables[i];
      answered, progressed := Accept(variables[i], chunk, table, store, cap, report, answered, progressed);
      i := i + 1;
    }
    EndUnanswered(chunk, answered, table);
  }

  /** Drop from the walk whatever part of the chunk stayed silent. */
  method EndUnanswered(chunk: seq<string>, answered: set<string>, table: WalkTable)
    modifies table
    ensures table.next == old(table.next) - Unanswered(chunk, answered)
  {
    var k := 0;
    while k < |chunk|
      invariant 0 <= k <= |chunk|
      invariant table.next == old(table.next) - Unanswered(chunk[..k], answered)
    {
      assert chunk[..k + 1] == chunk[..k] + [chunk[k]];
      if chunk[k] !in answered {
        table.next := table.next - {chunk[k]};
      }
      k := k + 1;
    }
    assert chunk[..k] == chunk;
  }

  /** Drop the whole chunk from the walk. */
  method EndAll(chunk: seq<string>, table: WalkTable)
    modifies table
    ensures table.next == old(table.next) - (set c | c in chunk)
  {
    var k := 0;
    while k < |chunk|
      invariant 0 <= k <= |chunk|
      invariant table.next == old(table.next) - (set c | c in chunk[..k])
    {
      assert chunk[..k + 1] == chunk[..k] + [chunk[k]];
      table.next := table.next - {chunk[k]};
      k := k + 1;
    }
    assert chunk[..k] == chunk;
  }

  method Absorb(variables: seq<Variable>, chunk: seq<string>, table: WalkTable, store: ValueStore, cfg: FetchConfig, report: FetchReport)
    requires Current(table, store, report).Keyed() && cfg.Effective()
    modifies table, store`Columns, report`TruncatedColumns
    ensures Current(table, store, report) == Absorbed(cfg, chunk, old(Current(table, store, report)), variables)
  {
    hide Consumed;
    var progressed := Consume(variables, chunk, table, store, cfg.maxRowsPerColumn, report);
    if !progressed {
      EndAll(chunk, table);
    }
  }

  lemma RunUnfolds(session: Session, cfg: FetchConfig, s: State, n: nat)
    requires s.Valid()
    ensures n == 0 ==> Run(session, cfg, s, n) == s
    ensures n > 0 && Run(session, cfg, s, n - 1).Running() ==>
      Run(session, cfg, s, n) == Step(session, cfg, Run(session, cfg, s, n - 1))
  {
  }

  lemma {:induction false} FinishedStays(session: Session, cfg: FetchConfig, s: State, n: nat, m: nat)
    requires s.Valid() && n <= m && !Run(session, cfg, s, n).Running()
    ensures Run(session, cfg, s, m) == Run(session, cfg, s, n)
    decreases m - n
  {
    hide Step;
    if n < m {
      FinishedStays(session, cfg, s, n, m - 1);
    }
  }

  /** The table before the first packet. */
  method Prepare(columnOIDs: seq<string>, store: ValueStore) returns (table: WalkTable)
    requires store.Columns == map[]
    modifies store`Columns
    ensures fresh(table)
    ensures table.next == map c | c in Roots(columnOIDs) :: c
    ensures store.Columns == map c | c in Roots(columnOIDs) :: map[]
  {
    hide CanonicalOID, Roots;
    table := new WalkTable(map[]);
    var i := 0;
    RootsOfNone();
    while i < |columnOIDs|
      invariant 0 <= i <= |columnOIDs|
      invariant table.next == map c | c in Roots(columnOIDs[..i]) :: c
      invariant store.Columns == map c | c in Roots(columnOIDs[..i]) :: map[]
    {
      var c := CanonicalOID(columnOIDs[i]);
      RootsGrow(columnOIDs, i);
      table.next := table.next[c := c];
      store.Columns := store.Columns[c := map[]];
      i := i + 1;
    }
    assert columnOIDs[..i] == columnOIDs;
  }

  lemma RootsOfNone()
    ensures Roots([]) == {}
  {
  }

  lemma RootsGrow(columnOIDs: seq<string>, i: nat)
    requires i < |columnOIDs|
    ensures Roots(columnOIDs[..i + 1]) == Roots(columnOIDs[..i]) + {CanonicalOID(columnOIDs[i])}
  {
    hide CanonicalOID;
    assert columnOIDs[..i + 1] == columnOIDs[..i] + [columnOIDs[i]];
  }

  /** One packet, for as many columns as the batch allows. */
  method Send(session: Session, cfg: FetchConfig, table: WalkTable, batch: BatchSizer, useBulk: bool, pdus: nat, ghost s: State)
    returns (chunk: seq<string>, packet: Response)
    requires s.Running() && s.Valid() && s.walk.next == table.next && s.sizer == batch.State() && s.useBulk == useBulk
    ensures chunk == s.Chunk() && packet == session.answer(pdus, RequestOf(cfg, s))
    ensures forall c :: c in chunk ==> c in table.next
  {
    hide CanonicalOID;
    ChunkIsActive(s);
    var active := SortedKeys(table.next.Keys);
    var size := batch.Size();
    chunk := active[..Min(size, |active|)];
    var request := Positions(table.next, chunk);
    if useBulk {
      packet := session.answer(pdus, GetBulk(Prefixed(request), cfg.bulkMaxRepetitions));
    } else {
      packet := session.answer(pdus, GetNext(Prefixed(request)));
    }
  }

  /** React to a packet; `failed` carries the error that ends the walk, if any. */
  method Receive(packet: Response, chunk: seq<string>, cfg: FetchConfig, table: WalkTable, store: ValueStore,
                 report: FetchReport, batch: BatchSizer, useBulk: bool, ghost s: State)
    returns (stillBulk: bool, failed: seq<FetchError>)
    requires s == State(Current(table, store, report), batch.State(), useBulk, report.PDUs, [], false)
    requires s.Running() && s.Valid() && cfg.Effective() && chunk == s.Chunk()
    modifies table, batch, store`Columns, report`PDUs, report`TruncatedColumns
    ensures State(Current(table, store, report), batch.State(), stillBulk, report.PDUs, failed, failed != []) == React(cfg, s, packet)
  {
    hide Absorbed, State.Chunk;
    stillBulk, failed := useBulk, [];
    report.PDUs := report.PDUs + 1;
    if packet.TransportError? || packet.status == TooBig {
      var ok := batch.Shrink();
      if !ok {
        // One more chance: the same columns by GETNEXT, in batches of the full size again.
        if useBulk {
          stillBulk := false;
          batch.Reset();
        } else {
          failed := [if packet.TransportError? then Transport else TooBigForOne];
        }
      }
    } else if packet.status == NoSuchName {
      var idx := packet.errorIndex;
      if 1 <= idx <= |chunk| {
        table.next := table.next - {chunk[idx - 1]};
      } else {
        failed := [UnusableIndex(idx)];
      }
    } else if packet.status != NoError {
      failed := [BadStatus(packet.status)];
    } else {
      Absorb(packet.variables, chunk, table, store, cfg, report);
      batch.Success();
    }
  }

  /** The result is that of the state machine, after the number of turns that the packet bound allows. */
  method FetchColumns(session: Session, columnOIDs: seq<string>, cfg: FetchConfig, store: ValueStore, report: FetchReport,
                      ghost universe: set<string>)
    returns (errors: seq<FetchError>)
    requires cfg.Effective() && store.Columns == map[] && report.TruncatedColumns == []
    requires Finite(session, universe) && Roots(columnOIDs) <= universe
    modifies store`Columns, report`PDUs, report`TruncatedColumns
    ensures var bound := PduBound(StartUnits(universe, columnOIDs), NewSizer(cfg.oidBatchSize).max, session.supportsGetBulk);
      var t := Run(session, cfg, Start(session, cfg, columnOIDs, old(report.PDUs)), bound + 1);
      && !t.Running()
      && errors == t.errors
      && Walk(t.walk.next, store.Columns, report.TruncatedColumns) == t.walk
      && report.PDUs == t.pdus
  {
    hide Run, PduBound, Finite, React, RequestOf, StartUnits, Roots, CanonicalOID;
    ghost var bound := PduBound(StartUnits(universe, columnOIDs), NewSizer(cfg.oidBatchSize).max, session.supportsGetBulk);
    ghost var pdus := report.PDUs;
    ghost var start := Start(session, cfg, columnOIDs, pdus);
    var table := Prepare(columnOIDs, store);
    var batch := new BatchSizer(cfg.oidBatchSize);
    var useBulk := session.supportsGetBulk;
    errors := [];
    ghost var t, n := start, 0;
    RunUnfolds(session, cfg, start, 0);
    while table.next != map[] && errors == []
      invariant fresh(batch) && fresh(table) && n <= bound + 1
      invariant t == Run(session, cfg, start, n) && t.Valid()
      invariant t == State(Current(table, store, report), batch.State(), useBulk, report.PDUs, errors, errors != [])
      decreases bound + 1 - n
    {
      if n > bound {
        WalkEnds(universe, session, cfg, columnOIDs, pdus, n);
      }
      RunUnfolds(session, cfg, start, n + 1);
      StepKeepsValid(session, cfg, t);
      n := n + 1;
      ghost var before := t;
      t := Step(session, cfg, t);
      if session.cancelled(report.PDUs) {
        errors := [Cancelled];
      } else {
        var chunk, packet := Send(session, cfg, table, batch, useBulk, report.PDUs, before);
        useBulk, errors := Receive(packet, chunk, cfg, table, store, report, batch, useBulk, before);
      }
    }
    FinishedStays(session, cfg, start, n, bound + 1);
  }
}
