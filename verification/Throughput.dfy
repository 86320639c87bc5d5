/** How few packets a poll needs when the device answers everything: what batches and repetitions buy. */
module Throughput {
  import opened Wrappers
  import opened Oid
  import opened Pdu
  import opened Wire
  import opened Arithmetic
  import opened Sizing
  import opened Agent
  import opened Rows
  import opened Walk
  import Columns
  import Scalars
  import Fetch

  /** A v2c device that answers every request, and a GETBULK, if it answers any, with all the rounds it asks for. */
  ghost predicate Generous(session: Session, mib: Mib, dev: Device, bulk: bool) {
    && !dev.v1
    && (forall n :: !session.cancelled(n))
    && forall n, req: Request ::
         if req.GetBulk? then bulk ==> AnswersInFull(mib, dev, req, session.answer(n, req))
         else Answers(mib, dev, req, session.answer(n, req))
  }

  ghost predicate AnswersInFull(mib: Mib, dev: Device, req: Request, r: Response)
    requires req.GetBulk?
  {
    var oids := seq(|req.names|, i requires 0 <= i < |req.names| => CanonicalOID(req.names[i]));
    Answers(mib, dev, req, r) && (CanonicalAll(oids) ==> AllRounds(mib, oids, req.repetitions, r))
  }

  // ----- what one traversal brings -----

  /** The instances that a traversal from `from` to `to` has met. */
  ghost function Met(mib: Mib, from: string, to: string): set<string> {
    set o | o in mib && OIDLess(from, o) && CompareOIDs(o, to) <= 0
  }

  /** The rows that a column has yet to bring. */
  ghost function Pending(mib: Mib, c: string, position: string): set<string> {
    set o | o in mib && Under(c, o) && OIDLess(position, o)
  }

  lemma MetSuccessor(mib: Mib, at: string, s: string, end: string)
    requires Proper(mib) && Canonical(at) && Canonical(end) && IsSuccessor(mib, at, s) && CompareOIDs(s, end) <= 0
    ensures |Met(mib, at, end)| >= 1 + |Met(mib, s, end)|
  {
    hide Canonical, CompareOIDs;
    OrderIsTotal(s, s);
    forall o | o in Met(mib, s, end)
      ensures o in Met(mib, at, end)
    {
      OrderIsTransitive(at, s, o);
    }
    SubsetSize({s} + Met(mib, s, end), Met(mib, at, end));
    assert s !in Met(mib, s, end);
  }

  lemma StaysLast(mib: Mib, at: string, end: string)
    requires Proper(mib) && Canonical(at) && Canonical(end) && IsLast(mib, at) && CompareOIDs(at, end) <= 0
    ensures IsLast(mib, end)
  {
    hide Canonical, CompareOIDs;
    forall x | x in mib
      ensures !OIDLess(end, x)
    {
      if OIDLess(end, x) {
        OrderIsTransitive(at, end, x);
        assert false;
      }
    }
  }

  /** A traversal that was continued n times has met n instances, unless it has come to the last one. */
  lemma {:induction false} TraversalMeets(mib: Mib, at: seq<string>, who: seq<nat>, vars: seq<Variable>, end: seq<string>, k: nat)
    requires Proper(mib) && k < |at| && (forall i :: 0 <= i < |at| ==> Canonical(at[i]))
    requires |who| == |vars| && Interleaves(mib, at, who, vars) && CursorsAfter(at, who, vars) == Some(end)
    ensures |end| == |at| && (IsLast(mib, end[k]) || |Met(mib, at[k], end[k])| >= multiset(who)[k])
    decreases |vars|
  {
    hide Canonical, CanonicalOID, CompareOIDs, IsLast, Met;
    TraversalsMove(mib, at, who, vars, end, k);
    if vars != [] {
      var j, v := who[0], vars[0];
      CanonicalOIDFixes(at[j]);
      if IsLast(mib, at[j]) {
        if j == k {
          StaysLast(mib, at[k], end[k]);
        }
      } else {
        var s :| IsSuccessor(mib, at[j], s) && v == At(mib, s);
        CanonicalOIDFixes(s);
      }
      var moved := Advance(at, j, v);
      TraversalMeets(mib, moved, who[1..], vars[1..], end, k);
      TraversalsMove(mib, moved, who[1..], vars[1..], end, k);
      if j == k && !IsLast(mib, at[k]) {
        MetSuccessor(mib, at[k], moved[k], end[k]);
      }
      assert who == [j] + who[1..];
      assert multiset(who) == multiset{j} + multiset(who[1..]);
    }
  }

  /** So a column whose traversal was continued n times has n rows fewer to bring, or none. */
  lemma ColumnAdvances(mib: Mib, c: string, from: string, to: string, position: string, rounds: nat)
    requires Proper(mib) && Canonical(c) && Canonical(position) && Traversal(mib, c, from, to) && rounds >= 1
    requires Passed(mib, c, from, to, position) && CompareOIDs(from, position) <= 0
    requires IsLast(mib, to) || |Met(mib, from, to)| >= rounds
    ensures Pending(mib, c, position) == {} || |Pending(mib, c, position)| + rounds <= |Pending(mib, c, from)|
  {
    hide Canonical, CompareOIDs, RowIndex;
    TraversalFacts(mib, c, from, to);
    if o :| o in Pending(mib, c, position) {
      OrderIsTransitive(from, position, o);
      OrderIsTotal(position, o);
      OrderIsTotal(to, o);
      OrderIsTotal(o, position);
      forall m | m in Met(mib, from, to)
        ensures m in Pending(mib, c, from) && m !in Pending(mib, c, position)
      {
        OrderIsTransitive(m, to, o);
        SubtreeIsInterval(c, from, m, o);
        OrderIsTotal(m, position);
      }
      forall p | p in Pending(mib, c, position)
        ensures p in Pending(mib, c, from)
      {
        OrderIsTransitive(from, position, p);
      }
      SubsetSize(Met(mib, from, to) + Pending(mib, c, position), Pending(mib, c, from));
    }
  }

  // ----- what one packet brings -----

  /** A variable of a column that is at its end is not accepted. */
  lemma {:induction false} NothingAccepted(mib: Mib, chunk: seq<string>, cap: nat, p: Pass, vars: seq<Variable>)
    requires Proper(mib) && CanonicalAll(chunk) && p.walk.Keyed()
    requires forall c :: c in chunk && c in p.walk.next ==> Canonical(p.walk.next[c]) && Pending(mib, c, p.walk.next[c]) == {}
    requires forall v, c :: v in vars && c in chunk && Under(c, CanonicalOID(v.name)) ==> CanonicalOID(v.name) in mib
    ensures ApplyVariables(chunk, cap, p, vars).walk == p.walk && ApplyVariables(chunk, cap, p, vars).progressed == p.progressed
    decreases |vars|
  {
    hide CanonicalOID, Canonical, Pending, Under, ApplyVariable;
    if vars != [] {
      NotAccepted(mib, chunk, cap, p, vars[0]);
      NothingAccepted(mib, chunk, cap, ApplyVariable(chunk, cap, p, vars[0]), vars[1..]);
    }
  }

  lemma NotAccepted(mib: Mib, chunk: seq<string>, cap: nat, p: Pass, v: Variable)
    requires Proper(mib) && CanonicalAll(chunk) && p.walk.Keyed()
    requires forall c :: c in chunk && c in p.walk.next ==> Canonical(p.walk.next[c]) && Pending(mib, c, p.walk.next[c]) == {}
    requires forall c :: c in chunk && Under(c, CanonicalOID(v.name)) ==> CanonicalOID(v.name) in mib
    ensures var q := ApplyVariable(chunk, cap, p, v); q.walk == p.walk && q.progressed == p.progressed
  {
    hide CanonicalOID, Canonical, CompareOIDs, LongestMatch, RowIndex, Decode, StoreRow;
    var oid := CanonicalOID(v.name);
    LongestMatchIsLongest(chunk, oid);
    var match_ := LongestMatch(chunk, oid);
    if match_.Some? && match_.value in p.walk.next {
      var c, position := match_.value, p.walk.next[match_.value];
      assert oid !in Pending(mib, c, position);
      OrderIsTotal(position, oid);
      OrderIsTotal(c, oid);
      RootBeforeRows(c, oid);
    }
  }

  /** A column's position, and how many rows it has yet to bring after a packet that held all rounds. */
  ghost predicate Advanced(mib: Mib, c: string, before: string, position: string, rounds: nat) {
    Pending(mib, c, position) == {} || |Pending(mib, c, position)| + rounds <= |Pending(mib, c, before)|
  }

  lemma PacketAdvances(mib: Mib, cap: nat, w: Walk, chunk: seq<string>, from: seq<string>, who: seq<nat>, vars: seq<Variable>,
                       end: seq<string>, rounds: nat)
    requires Proper(mib) && WalkOk(mib, cap, w) && w.Keyed() && |chunk| == |from| && rounds >= 1
    requires forall k :: 0 <= k < |chunk| ==> chunk[k] in w.next && from[k] == w.next[chunk[k]]
    requires |who| == |vars| && Interleaves(mib, from, who, vars) && CursorsAfter(from, who, vars) == Some(end)
    requires |end| == |from| && forall k: nat :: k < |from| ==> multiset(who)[k] == rounds || IsLast(mib, end[k])
    ensures var v := Consumed(chunk, cap, w, vars).walk;
      forall c :: c in chunk && c in v.next ==> Advanced(mib, c, w.next[c], v.next[c], rounds)
  {
    hide WalkOk, Canonical, CanonicalOID, CompareOIDs, RowIndex, ApplyVariables, IsLast, Interleaves, Passed, Traversal, Pending, Met;
    PassStarts(mib, cap, w, chunk, from);
    var start := Pass(w, {}, false);
    PassColumns(mib, cap, chunk, from, from, start);
    var last := VariablesKeepFrontier(mib, cap, chunk, from, from, start, who, vars);
    var p := ApplyVariables(chunk, cap, start, vars);
    PassColumns(mib, cap, chunk, from, end, p);
    forall c | c in chunk && c in p.walk.next
      ensures Advanced(mib, c, w.next[c], p.walk.next[c], rounds)
    {
      var k: nat :| k < |chunk| && chunk[k] == c;
      TraversalMeets(mib, from, who, vars, end, k);
      PassPosition(mib, cap, chunk, from, end, p, c);
      ColumnAdvances(mib, c, from[k], end[k], p.walk.next[c], rounds);
    }
  }

  /** A packet makes progress only if some column of the chunk had a row to bring. */
  lemma IdlePacket(mib: Mib, cap: nat, w: Walk, chunk: seq<string>, from: seq<string>, who: seq<nat>, vars: seq<Variable>)
    requires Proper(mib) && WalkOk(mib, cap, w) && w.Keyed() && |chunk| == |from|
    requires forall k :: 0 <= k < |chunk| ==> chunk[k] in w.next && from[k] == w.next[chunk[k]]
    requires |who| == |vars| && Interleaves(mib, from, who, vars)
    requires forall c :: c in chunk ==> Pending(mib, c, w.next[c]) == {}
    ensures !Consumed(chunk, cap, w, vars).progressed
  {
    hide WalkOk, Canonical, CanonicalOID, CompareOIDs, RowIndex, ApplyVariables, Interleaves, Pending;
    PassStarts(mib, cap, w, chunk, from);
    var start := Pass(w, {}, false);
    PassColumns(mib, cap, chunk, from, from, start);
    forall c | c in chunk
      ensures Canonical(c) && Canonical(w.next[c]) && (w.next[c] == c || w.next[c] in mib)
    {
      PositionIsCanonical(mib, cap, w, c);
    }
    var universe := mib.Keys + set o | o in from;
    assert CanonicalAll(from) && CanonicalNames(mib);
    Columns.InterleavedNames(mib, universe, from, who, vars);
    forall v, c | v in vars && c in chunk && Under(c, CanonicalOID(v.name))
      ensures CanonicalOID(v.name) in mib
    {
      if CanonicalOID(v.name) in from {
        var k :| 0 <= k < |from| && from[k] == CanonicalOID(v.name);
        assert from[k] == chunk[k] || from[k] in mib;
      }
    }
    NothingAccepted(mib, chunk, cap, start, vars);
  }

  // ----- the walk -----

  /** Packets that a column of this many rows needs: one for each full set of rounds, and one to see its end. */
  function Need(rows: nat, rounds: nat): (n: nat)
    requires rounds >= 1
    ensures n >= 1
  {
    QuotientGrows(0, rows + rounds - 1, rounds);
    (rows + rounds - 1) / rounds + 1
  }

  lemma NeedShrinks(rows: nat, fewer: nat, rounds: nat)
    requires rounds >= 1
    requires fewer == 0 || fewer + rounds <= rows
    ensures Need(fewer, rounds) == 1 || Need(fewer, rounds) < Need(rows, rounds)
    ensures rows == 0 <==> Need(rows, rounds) == 1
  {
    if fewer == 0 {
      QuotientIs(rounds - 1, rounds, 0);
    } else {
      QuotientShift(fewer + rounds - 1, rounds, 1);
      QuotientGrows(fewer + rounds - 1 + 1 * rounds, rows + rounds - 1, rounds);
    }
    if rows == 0 {
      QuotientIs(rounds - 1, rounds, 0);
    } else {
      QuotientShift(0, rounds, 1);
      QuotientGrows(rounds, rows + rounds - 1, rounds);
    }
  }

  lemma {:induction false} CursorsExist(mib: Mib, at: seq<string>, who: seq<nat>, vars: seq<Variable>)
    requires |who| == |vars| && Interleaves(mib, at, who, vars)
    ensures CursorsAfter(at, who, vars).Some? && |CursorsAfter(at, who, vars).value| == |at|
    decreases |vars|
  {
    hide Continues, CanonicalOID;
    if vars != [] {
      CursorsExist(mib, Advance(at, who[0], vars[0]), who[1..], vars[1..]);
    }
  }

  /** A GETNEXT is one round. */
  lemma NextIsOneRound(mib: Mib, dev: Device, from: seq<string>, r: Response)
    requires !dev.v1 && NextAnswer(mib, dev, from, r)
    ensures AllRounds(mib, from, 1, r)
  {
    hide Continues, IsLast, Interleaves;
    OneRepetition(mib, from, from, r.variables, 0);
    var who := seq(|from| - 0, i requires 0 <= i => 0 + i);
    assert r.variables[0..] == r.variables;
    CursorsExist(mib, from, who, r.variables);
    OnceEach(|from|, who, 1);
    forall k: nat | k < |from|
      ensures multiset(who)[k] == 1
    {
      assert who[k] == k;
    }
  }

  function RoundsOf(cfg: FetchConfig, bulk: bool): nat {
    if bulk then cfg.bulkMaxRepetitions else 1
  }

  /** No column needs more than `m` further packets, and all of them fit in one. */
  ghost predicate OnTime(mib: Mib, cfg: FetchConfig, s: Columns.State, m: nat)
    requires RoundsOf(cfg, s.useBulk) >= 1
  {
    && s.Valid() && !s.stopped && s.errors == []
    && s.sizer.current == s.sizer.max && |s.walk.next| <= s.sizer.max
    && forall c :: c in s.walk.next ==> Need(|Pending(mib, c, s.walk.next[c])|, RoundsOf(cfg, s.useBulk)) <= m
  }

  lemma ChunkIsAll(s: Columns.State)
    requires s.Running() && s.Valid() && |s.walk.next| <= s.sizer.current
    ensures forall c :: c in s.Chunk() <==> c in s.walk.next
  {
    assert |s.walk.next.Keys| == |s.walk.next|;
  }

  lemma {:induction false} VariablesEndOnly(chunk: seq<string>, cap: nat, p: Pass, vars: seq<Variable>)
    requires p.walk.Keyed()
    ensures ApplyVariables(chunk, cap, p, vars).walk.next.Keys <= p.walk.next.Keys
    decreases |vars|
  {
    hide LongestMatch, CanonicalOID, CompareOIDs, Decode;
    if vars != [] {
      VariablesEndOnly(chunk, cap, ApplyVariable(chunk, cap, p, vars[0]), vars[1..]);
    }
  }

  /** What a packet with all rounds does to its columns. */
  lemma FullPacket(mib: Mib, cap: nat, w: Walk, chunk: seq<string>, from: seq<string>, r: Response, rounds: nat)
    requires Proper(mib) && WalkOk(mib, cap, w) && w.Keyed() && |chunk| == |from| && rounds >= 1
    requires forall k :: 0 <= k < |chunk| ==> chunk[k] in w.next && from[k] == w.next[chunk[k]]
    requires AllRounds(mib, from, rounds, r)
    ensures var p := Consumed(chunk, cap, w, r.variables);
      && p.walk.next.Keys <= w.next.Keys
      && (forall c :: c in chunk && c in p.walk.next ==> Advanced(mib, c, w.next[c], p.walk.next[c], rounds))
      && ((forall c :: c in chunk ==> Pending(mib, c, w.next[c]) == {}) ==> !p.progressed)
  {
    hide WalkOk, Canonical, IsLast, Interleaves, ApplyVariables, Pending, Advanced;
    var who: seq<nat>, end: seq<string> :|
      && |who| == |r.variables| && |end| == |from|
      && Interleaves(mib, from, who, r.variables)
      && CursorsAfter(from, who, r.variables) == Some(end)
      && forall k: nat :: k < |from| ==> multiset(who)[k] == rounds || IsLast(mib, end[k]);
    VariablesEndOnly(chunk, cap, Pass(w, {}, false), r.variables);
    PacketAdvances(mib, cap, w, chunk, from, who, r.variables, end, rounds);
    if forall c :: c in chunk ==> Pending(mib, c, w.next[c]) == {} {
      IdlePacket(mib, cap, w, chunk, from, who, r.variables);
    }
  }

  lemma AnsweredInFull(session: Session, mib: Mib, dev: Device, cfg: FetchConfig, s: Columns.State) returns (from: seq<string>)
    requires Proper(mib) && Generous(session, mib, dev, s.useBulk) && WalkOk(mib, Columns.Cap(cfg), s.walk) && s.Running() && s.Valid()
    ensures forall c :: c in s.Chunk() ==> c in s.walk.next
    ensures from == Columns.Positions(s.walk.next, s.Chunk())
    ensures AllRounds(mib, from, RoundsOf(cfg, s.useBulk), session.answer(s.pdus, Columns.RequestOf(cfg, s)))
  {
    hide WalkOk, Canonical, CanonicalOID, Columns.State.Chunk, BulkAnswer, NextAnswer, AllRounds;
    Columns.PositionsAreCanonical(mib, Columns.Cap(cfg), s);
    from := Columns.Positions(s.walk.next, s.Chunk());
    PrefixedNames(from);
    var req := Columns.RequestOf(cfg, s);
    assert seq(|req.names|, i requires 0 <= i < |req.names| => CanonicalOID(req.names[i])) == from;
    if !s.useBulk {
      NextIsOneRound(mib, dev, from, session.answer(s.pdus, req));
    }
  }

  /** A column that is nearer to its end needs a packet less, and never more. */
  lemma AdvancedNeeds(mib: Mib, c: string, before: string, position: string, rounds: nat, m: nat)
    requires rounds >= 1 && Advanced(mib, c, before, position, rounds) && m >= 2
    requires Need(|Pending(mib, c, before)|, rounds) <= m
    ensures Need(|Pending(mib, c, position)|, rounds) <= m - 1
  {
    hide Pending, Need;
    NeedShrinks(|Pending(mib, c, before)|, |Pending(mib, c, position)|, rounds);
  }

  /** The reaction to an error-free packet. */
  lemma ReadOn(cfg: FetchConfig, s: Columns.State, r: Response)
    requires s.Running() && s.Valid() && r.Packet? && r.status == NoError
    ensures var t, p := Columns.React(cfg, s, r), Consumed(s.Chunk(), Columns.Cap(cfg), s.walk, r.variables);
      && t.walk.next == (if p.progressed then p.walk.next else p.walk.next - (set c | c in s.Chunk()))
      && t.sizer == s.sizer.AfterSuccess() && t.useBulk == s.useBulk && t.pdus == s.pdus + 1
      && t.errors == s.errors && t.stopped == s.stopped
  {
    hide Consumed, Columns.State.Chunk;
  }

  /** Every column of the packet gets nearer to its end by one packet. */
  lemma TurnIsOnTime(session: Session, mib: Mib, dev: Device, cfg: FetchConfig, s: Columns.State, m: nat)
    requires Proper(mib) && Generous(session, mib, dev, s.useBulk) && cfg.bulkMaxRepetitions >= 1 && m >= 1
    requires OnTime(mib, cfg, s, m) && WalkOk(mib, Columns.Cap(cfg), s.walk) && s.Running()
    ensures var t := Columns.Step(session, cfg, s);
      t.useBulk == s.useBulk && OnTime(mib, cfg, t, m - 1) && t.pdus == s.pdus + 1 && (m == 1 ==> t.walk.next == map[])
  {
    hide WalkOk, Generous, Canonical, CanonicalOID, Consumed, Pending, Need, Advanced, AllRounds, Proper,
         Columns.Step, Columns.RequestOf, Columns.State.Chunk;
    var r := session.answer(s.pdus, Columns.RequestOf(cfg, s));
    var rounds := RoundsOf(cfg, s.useBulk);
    var from := AnsweredInFull(session, mib, dev, cfg, s);
    ChunkIsAll(s);
    var chunk, w, cap := s.Chunk(), s.walk, Columns.Cap(cfg);
    FullPacket(mib, cap, w, chunk, from, r, rounds);
    TurnIsRead(session, mib, dev, cfg, s);
    var t := Columns.Step(session, cfg, s);
    Rows.SubsetSize(t.walk.next.Keys, w.next.Keys);
    NeedsDrop(mib, w.next, t.walk.next, Consumed(chunk, cap, w, r.variables).progressed, rounds, m);
  }

  lemma TurnIsRead(session: Session, mib: Mib, dev: Device, cfg: FetchConfig, s: Columns.State)
    requires Proper(mib) && Generous(session, mib, dev, s.useBulk) && WalkOk(mib, Columns.Cap(cfg), s.walk) && s.Running() && s.Valid()
    ensures var t, r := Columns.Step(session, cfg, s), session.answer(s.pdus, Columns.RequestOf(cfg, s));
      && r.Packet? && t.Valid() && t.sizer == s.sizer.AfterSuccess() && t.useBulk == s.useBulk && t.pdus == s.pdus + 1
      && t.errors == s.errors && t.stopped == s.stopped
      && var p := Consumed(s.Chunk(), Columns.Cap(cfg), s.walk, r.variables);
         t.walk.next == if p.progressed then p.walk.next else p.walk.next - (set c | c in s.Chunk())
  {
    hide WalkOk, Generous, Proper, Consumed, Columns.React, Columns.RequestOf, Columns.State.Chunk;
    var r := session.answer(s.pdus, Columns.RequestOf(cfg, s));
    var from := AnsweredInFull(session, mib, dev, cfg, s);
    assert r.Packet? && r.status == NoError;
    hide AllRounds;
    ReadOn(cfg, s, r);
    Columns.StepKeepsValid(session, cfg, s);
    Uncancelled(session, mib, dev, s.useBulk, s.pdus);
  }

  lemma NeedsDrop(mib: Mib, before: map<string, string>, after: map<string, string>, progressed: bool, rounds: nat, m: nat)
    requires rounds >= 1 && m >= 1 && after.Keys <= before.Keys
    requires forall c :: c in before ==> Need(|Pending(mib, c, before[c])|, rounds) <= m
    requires forall c :: c in after ==> Advanced(mib, c, before[c], after[c], rounds)
    requires (forall c :: c in before ==> Pending(mib, c, before[c]) == {}) ==> !progressed
    requires !progressed ==> after == map[]
    ensures forall c :: c in after ==> Need(|Pending(mib, c, after[c])|, rounds) <= m - 1
    ensures m == 1 ==> after == map[]
  {
    hide Pending, Need, Advanced;
    if m == 1 {
      forall c | c in before
        ensures Pending(mib, c, before[c]) == {}
      {
        NeedShrinks(|Pending(mib, c, before[c])|, 0, rounds);
      }
    } else {
      forall c | c in after
        ensures Need(|Pending(mib, c, after[c])|, rounds) <= m - 1
      {
        AdvancedNeeds(mib, c, before[c], after[c], rounds, m);
      }
    }
  }

  lemma Uncancelled(session: Session, mib: Mib, dev: Device, bulk: bool, n: nat)
    requires Generous(session, mib, dev, bulk)
    ensures !session.cancelled(n)
  {
  }

  lemma StartsOnTime(mib: Mib, session: Session, cfg: FetchConfig, columnOIDs: seq<string>, pdus: nat, m: nat)
    requires cfg.bulkMaxRepetitions >= 1 && |Columns.Roots(columnOIDs)| <= NewSizer(cfg.oidBatchSize).max
    requires forall c :: c in Columns.Roots(columnOIDs) ==> Need(|Pending(mib, c, c)|, RoundsOf(cfg, session.supportsGetBulk)) <= m
    ensures OnTime(mib, cfg, Columns.Start(session, cfg, columnOIDs, pdus), m)
  {
    hide CanonicalOID, Pending, Need, Columns.Roots;
    var s := Columns.Start(session, cfg, columnOIDs, pdus);
    assert s.walk.next.Keys == Columns.Roots(columnOIDs);
    assert |s.walk.next| == |s.walk.next.Keys|;
  }

  /** After `n` turns of at most `m`. */
  ghost predicate Underway(mib: Mib, cfg: FetchConfig, s: Columns.State, pdus: nat, m: nat, n: nat)
    requires RoundsOf(cfg, s.useBulk) >= 1
  {
    if n < m then OnTime(mib, cfg, s, m - n) && s.pdus <= pdus + n
    else s.walk.next == map[] && s.errors == [] && s.pdus <= pdus + m
  }

  lemma TurnKeepsUnderway(session: Session, mib: Mib, dev: Device, cfg: FetchConfig, s: Columns.State, pdus: nat, m: nat, n: nat)
    requires Proper(mib) && Generous(session, mib, dev, s.useBulk) && cfg.bulkMaxRepetitions >= 1
    requires s.Valid() && WalkOk(mib, Columns.Cap(cfg), s.walk) && Underway(mib, cfg, s, pdus, m, n)
    ensures var t := if s.Running() then Columns.Step(session, cfg, s) else s;
      t.useBulk == s.useBulk && Underway(mib, cfg, t, pdus, m, n + 1)
  {
    hide WalkOk, Generous, Proper, Columns.Step, OnTime;
    if n < m {
      OnTimeRuns(mib, cfg, s, m - n);
      if s.Running() {
        TurnIsOnTime(session, mib, dev, cfg, s, m - n);
        OnTimeRuns(mib, cfg, Columns.Step(session, cfg, s), m - n - 1);
      } else {
        FinishedIsOnTime(mib, cfg, s, m - n, if n + 1 < m then m - (n + 1) else 0);
      }
    }
  }

  lemma OnTimeRuns(mib: Mib, cfg: FetchConfig, s: Columns.State, m: nat)
    requires RoundsOf(cfg, s.useBulk) >= 1 && OnTime(mib, cfg, s, m)
    ensures s.errors == [] && (s.Running() <==> s.walk.next != map[])
  {
  }

  lemma FinishedIsOnTime(mib: Mib, cfg: FetchConfig, s: Columns.State, m: nat, k: nat)
    requires RoundsOf(cfg, s.useBulk) >= 1 && OnTime(mib, cfg, s, m) && s.walk.next == map[]
    ensures OnTime(mib, cfg, s, k)
  {
  }

  lemma {:induction false} RunIsUnderway(session: Session, mib: Mib, dev: Device, cfg: FetchConfig, s: Columns.State, m: nat, n: nat)
    requires Proper(mib) && Honest(session, mib, dev) && Generous(session, mib, dev, s.useBulk) && cfg.bulkMaxRepetitions >= 1
    requires s.Valid() && WalkOk(mib, Columns.Cap(cfg), s.walk) && OnTime(mib, cfg, s, m) && m >= 1
    ensures var t := Columns.Run(session, cfg, s, n);
      t.useBulk == s.useBulk && WalkOk(mib, Columns.Cap(cfg), t.walk) && Underway(mib, cfg, t, s.pdus, m, n)
  {
    hide Underway, OnTime, WalkOk, Generous, Honest, Proper, Columns.Step, Columns.State.Chunk, Columns.State.Running;
    if n == 0 {
      StartsUnderway(mib, cfg, s, m);
    } else {
      RunIsUnderway(session, mib, dev, cfg, s, m, n - 1);
      var t := Columns.Run(session, cfg, s, n - 1);
      TurnKeepsUnderway(session, mib, dev, cfg, t, s.pdus, m, n - 1);
      if t.Running() {
        assert !dev.v1 by { NotV1(session, mib, dev, s.useBulk); }
        Columns.StepKeepsWalk(session, mib, dev, cfg, t);
      }
    }
  }

  lemma UnderwayIsClean(mib: Mib, cfg: FetchConfig, s: Columns.State, pdus: nat, m: nat, n: nat)
    requires RoundsOf(cfg, s.useBulk) >= 1 && Underway(mib, cfg, s, pdus, m, n)
    ensures s.errors == [] && s.pdus <= pdus + m && (n >= m ==> s.walk.next == map[])
  {
    hide Need, Pending;
  }

  lemma NotV1(session: Session, mib: Mib, dev: Device, bulk: bool)
    requires Generous(session, mib, dev, bulk)
    ensures !dev.v1
  {
  }

  lemma StartsUnderway(mib: Mib, cfg: FetchConfig, s: Columns.State, m: nat)
    requires m >= 1 && RoundsOf(cfg, s.useBulk) >= 1 && OnTime(mib, cfg, s, m)
    ensures Underway(mib, cfg, s, s.pdus, m, 0)
  {
  }

  /**
   * Columns that fit one batch are walked together: the packets are those that the longest of them needs alone, its rows
   * divided by the repetitions and one more to see its end, however many columns there are.
   */
  lemma WalkTogether(session: Session, mib: Mib, dev: Device, cfg: FetchConfig, columnOIDs: seq<string>, pdus: nat, m: nat, n: nat)
    requires Proper(mib) && Honest(session, mib, dev) && Generous(session, mib, dev, session.supportsGetBulk) && Columns.Walkable(columnOIDs) && cfg.bulkMaxRepetitions >= 1
    requires |Columns.Roots(columnOIDs)| <= NewSizer(cfg.oidBatchSize).max
    requires m >= 1 && forall c :: c in Columns.Roots(columnOIDs) ==> Need(|Pending(mib, c, c)|, RoundsOf(cfg, session.supportsGetBulk)) <= m
    ensures var t := Columns.Run(session, cfg, Columns.Start(session, cfg, columnOIDs, pdus), n);
      (n >= m ==> !t.Running()) && t.pdus <= pdus + m && t.errors == []
  {
    hide Columns.Run, Generous, Honest, Canonical, WalkOk, OnTime, Need, Pending;
    StartsOnTime(mib, session, cfg, columnOIDs, pdus, m);
    Columns.StartIsOk(mib, session, cfg, columnOIDs, pdus);
    RunIsUnderway(session, mib, dev, cfg, Columns.Start(session, cfg, columnOIDs, pdus), m, n);
    UnderwayIsClean(mib, cfg, Columns.Run(session, cfg, Columns.Start(session, cfg, columnOIDs, pdus), n), pdus, m, n);
  }

  // ----- scalars -----

  /** Packets for this many OIDs in full batches. */
  function Batches(count: nat, batch: nat): nat
    requires batch >= 1
  {
    QuotientGrows(0, count + batch - 1, batch);
    (count + batch - 1) / batch
  }

  lemma BatchesShrink(count: nat, batch: nat)
    requires batch >= 1
    ensures count == 0 ==> Batches(count, batch) == 0
    ensures count > 0 ==> Batches(count, batch) == 1 + Batches(if count < batch then 0 else count - batch, batch)
  {
    QuotientIs(batch - 1, batch, 0);
    if 0 < count < batch {
      QuotientIs(count + batch - 1, batch, 1);
    } else if count > 0 {
      QuotientShift(count - batch + batch - 1, batch, 1);
    }
  }

  /** A batch is read, and that is a success for the next one. */
  lemma BatchIsRead(session: Session, mib: Mib, dev: Device, bulk: bool, s: Scalars.State)
    requires Generous(session, mib, dev, bulk) && s.Running() && s.sizer.Valid()
    ensures var t := Scalars.Step(session, s);
      t.sizer == s.sizer.AfterSuccess() && !t.stopped && t.remaining == s.remaining[s.Size()..] && t.pdus == s.pdus + 1
  {
    var r := session.answer(s.pdus, s.Request());
    assert Answers(mib, dev, s.Request(), r);
    assert r.Packet? && r.status == NoError;
    hide Scalars.Record, Generous, Answers, Scalars.State.Request;
  }

  /** Packets sent and packets to come add up to the same all the way. */
  lemma {:induction false} ScalarRunIsThrifty(session: Session, mib: Mib, dev: Device, bulk: bool, oids: seq<string>, batchSize: int, n: nat)
    requires Generous(session, mib, dev, bulk)
    ensures var t, batch := Scalars.Run(session, Scalars.Start(oids, batchSize), n), NewSizer(batchSize).max;
      && t.sizer.current == batch && !t.stopped
      && t.pdus + Batches(|t.remaining|, batch) == Batches(|oids|, batch)
  {
    hide Generous, Scalars.Step, Batches;
    if n > 0 {
      ScalarRunIsThrifty(session, mib, dev, bulk, oids, batchSize, n - 1);
      var t := Scalars.Run(session, Scalars.Start(oids, batchSize), n - 1);
      if t.Running() {
        BatchIsRead(session, mib, dev, bulk, t);
        BatchesShrink(|t.remaining|, t.sizer.max);
      }
    }
  }

  /** The scalars of a device that answers everything take exactly as many packets as there are batches. */
  lemma ScalarPackets(session: Session, mib: Mib, dev: Device, bulk: bool, oids: seq<string>, batchSize: int)
    requires Generous(session, mib, dev, bulk)
    ensures Scalars.Final(session, oids, batchSize).pdus == Batches(|oids|, NewSizer(batchSize).max)
  {
    hide Generous, Scalars.Run, Batches;
    var batch := NewSizer(batchSize).max;
    var n := Scalars.PduBound(|oids|, batch) + 1;
    ScalarRunIsThrifty(session, mib, dev, bulk, oids, batchSize, n);
    Scalars.ScalarLoopEnds(session, oids, batchSize, n);
    BatchesShrink(0, batch);
  }

  /** A whole poll: its scalars in full batches, and its columns together. */
  lemma PollPackets(session: Session, mib: Mib, dev: Device, scalarOIDs: seq<string>, columnOIDs: seq<string>, config: FetchConfig,
                    universe: set<string>, m: nat)
    requires Proper(mib) && Honest(session, mib, dev) && Generous(session, mib, dev, session.supportsGetBulk) && Columns.Walkable(columnOIDs)
    requires |Columns.Roots(columnOIDs)| <= config.BatchSize()
    requires m >= 1 && forall c :: c in Columns.Roots(columnOIDs) ==>
      Need(|Pending(mib, c, c)|, if session.supportsGetBulk then config.Repetitions() else 1) <= m
    ensures Fetch.Polled(session, scalarOIDs, columnOIDs, config, universe).pdus <= Batches(|scalarOIDs|, config.BatchSize()) + m
  {
    hide Generous, Columns.Run, Scalars.Final, Batches, Need, Pending, Proper, Columns.Walkable, Columns.Roots;
    var cfg := config.WithDefaults();
    var pdus := Scalars.Final(session, scalarOIDs, cfg.oidBatchSize).pdus;
    ScalarPackets(session, mib, dev, session.supportsGetBulk, scalarOIDs, cfg.oidBatchSize);
    WalkTogether(session, mib, dev, cfg, columnOIDs, pdus, m, Fetch.WalkTurns(session, columnOIDs, cfg, universe));
  }
}
