/** How batches shrink, recover and fall back over a run of the loops of internal/snmp/fetch.go. */
module Recovery {
  import opened Oid
  import opened Wire
  import opened Arithmetic
  import opened Sizing
  import opened Agent
  import opened Walk
  import opened Throughput
  import Columns
  import Scalars

  // ----- the batch hears nothing but how its packets fared -----

  datatype Outcome = Answered | Declined | Otherwise

  predicate Declines(r: Response) {
    r.TransportError? || r.status == TooBig
  }

  function OutcomeOf(r: Response): Outcome {
    if Declines(r) then Declined else if r.status == NoError then Answered else Otherwise
  }

  /** A batch that is told some outcomes, one after another; refusals of a single OID are not its concern. */
  function Told(s: Sizer, outcomes: seq<Outcome>): Sizer {
    if outcomes == [] then s
    else
      var before := Told(s, outcomes[..|outcomes| - 1]);
      match outcomes[|outcomes| - 1]
      case Answered => before.AfterSuccess()
      case Declined => if before.CanShrink() then before.Shrunk() else before
      case Otherwise => before
  }

  lemma ToldOneMore(s: Sizer, outcomes: seq<Outcome>, o: Outcome)
    ensures Told(s, outcomes + [o]) == match o
      case Answered => Told(s, outcomes).AfterSuccess()
      case Declined => if Told(s, outcomes).CanShrink() then Told(s, outcomes).Shrunk() else Told(s, outcomes)
      case Otherwise => Told(s, outcomes)
  {
    assert (outcomes + [o])[..|outcomes|] == outcomes;
  }

  /** How the first `n` packets of a scalar loop fared. */
  ghost function ScalarOutcomes(session: Session, s: Scalars.State, n: nat): seq<Outcome>
    requires s.sizer.Valid()
  {
    if n == 0 then []
    else
      var before, t := ScalarOutcomes(session, s, n - 1), Scalars.Run(session, s, n - 1);
      if t.Running() && !session.cancelled(t.pdus) then before + [OutcomeOf(session.answer(t.pdus, t.Request()))] else before
  }

  lemma ScalarTurnTells(session: Session, s: Scalars.State)
    requires s.sizer.Valid() && s.Running()
    ensures var t, r := Scalars.Step(session, s), session.answer(s.pdus, s.Request());
      t.sizer ==
        if session.cancelled(s.pdus) then s.sizer
        else match OutcomeOf(r)
          case Answered => s.sizer.AfterSuccess()
          case Declined => if s.sizer.CanShrink() then s.sizer.Shrunk() else s.sizer
          case Otherwise => s.sizer
  {
    hide Scalars.Record, Scalars.State.Chunk, Scalars.State.Request;
  }

  /** Over any run of the scalar loop the batch is what the outcomes so far make of it: noSuchName counts for nothing. */
  lemma {:induction false} ScalarBatchFollows(session: Session, s: Scalars.State, n: nat)
    requires s.sizer.Valid()
    ensures Scalars.Run(session, s, n).sizer == Told(s.sizer, ScalarOutcomes(session, s, n))
  {
    hide Told, Scalars.Step, OutcomeOf, Scalars.State.Request;
    if n == 0 {
      ToldNothing(s.sizer);
    } else {
      ScalarBatchFollows(session, s, n - 1);
      var t := Scalars.Run(session, s, n - 1);
      if t.Running() {
        ScalarTurnTells(session, t);
        ToldOneMore(s.sizer, ScalarOutcomes(session, s, n - 1), OutcomeOf(session.answer(t.pdus, t.Request())));
      }
    }
  }

  lemma ToldNothing(s: Sizer)
    ensures Told(s, []) == s
  {
  }

  /** How the first `n` packets of a walk fared. */
  ghost function WalkOutcomes(session: Session, cfg: FetchConfig, s: Columns.State, n: nat): seq<Outcome>
    requires s.Valid()
  {
    if n == 0 then []
    else
      var before, t := WalkOutcomes(session, cfg, s, n - 1), Columns.Run(session, cfg, s, n - 1);
      if t.Running() && !session.cancelled(t.pdus) then before + [OutcomeOf(session.answer(t.pdus, Columns.RequestOf(cfg, t)))] else before
  }

  lemma WalkTurnTells(session: Session, cfg: FetchConfig, s: Columns.State)
    requires s.Valid() && s.Running()
    ensures var t, r := Columns.Step(session, cfg, s), session.answer(s.pdus, Columns.RequestOf(cfg, s));
      && (session.cancelled(s.pdus) ==> t.sizer == s.sizer)
      && (!session.cancelled(s.pdus) && t.useBulk == s.useBulk ==> t.sizer == match OutcomeOf(r)
            case Answered => s.sizer.AfterSuccess()
            case Declined => if s.sizer.CanShrink() then s.sizer.Shrunk() else s.sizer
            case Otherwise => s.sizer)
  {
    hide Columns.Absorbed, Columns.RequestOf, Columns.State.Chunk;
  }

  /** So is the batch of a walk, up to the fallback to GETNEXT, which starts it anew. */
  lemma {:induction false} WalkBatchFollows(session: Session, cfg: FetchConfig, s: Columns.State, n: nat)
    requires s.Valid() && Columns.Run(session, cfg, s, n).useBulk == s.useBulk
    ensures Columns.Run(session, cfg, s, n).sizer == Told(s.sizer, WalkOutcomes(session, cfg, s, n))
  {
    hide Told, Columns.Step, OutcomeOf;
    if n == 0 {
      ToldNothing(s.sizer);
    } else {
      var t := Columns.Run(session, cfg, s, n - 1);
      BulkIsNeverTakenUp(session, cfg, s, n - 1);
      if t.Running() {
        BulkIsNotTakenUp(session, cfg, t);
      }
      WalkBatchFollows(session, cfg, s, n - 1);
      if t.Running() {
        WalkTurnTells(session, cfg, t);
        ToldOneMore(s.sizer, WalkOutcomes(session, cfg, s, n - 1), OutcomeOf(session.answer(t.pdus, Columns.RequestOf(cfg, t))));
      }
    }
  }

  lemma BulkIsNotTakenUp(session: Session, cfg: FetchConfig, s: Columns.State)
    requires s.Valid() && s.Running()
    ensures !s.useBulk ==> !Columns.Step(session, cfg, s).useBulk
  {
    hide Columns.Absorbed, Columns.RequestOf, Columns.State.Chunk;
  }

  /** GETBULK is given up for good. */
  lemma {:induction false} BulkIsNeverTakenUp(session: Session, cfg: FetchConfig, s: Columns.State, n: nat)
    requires s.Valid()
    ensures !s.useBulk ==> !Columns.Run(session, cfg, s, n).useBulk
  {
    hide Columns.Step;
    if n > 0 {
      BulkIsNeverTakenUp(session, cfg, s, n - 1);
      var t := Columns.Run(session, cfg, s, n - 1);
      if t.Running() {
        BulkIsNotTakenUp(session, cfg, t);
      }
    }
  }

  // ----- while everything is answered the batch grows back -----

  /** After `n` answered packets, the scalar batch is that of `n` successes in a row. */
  lemma {:induction false} ScalarBatchRecovers(session: Session, mib: Mib, dev: Device, bulk: bool, s: Scalars.State, n: nat)
    requires Generous(session, mib, dev, bulk) && s.sizer.Valid() && !s.stopped
    ensures var t := Scalars.Run(session, s, n); !t.stopped && (t.Running() ==> t.sizer == Succeed(s.sizer, n))
  {
    hide Generous, Scalars.Step;
    if n > 0 {
      ScalarBatchRecovers(session, mib, dev, bulk, s, n - 1);
      var t := Scalars.Run(session, s, n - 1);
      if t.Running() {
        BatchIsRead(session, mib, dev, bulk, t);
      }
    }
  }

  /** And so is the batch of the walk. */
  lemma {:induction false} WalkBatchRecovers(session: Session, mib: Mib, dev: Device, cfg: FetchConfig, s: Columns.State, n: nat)
    requires Generous(session, mib, dev, s.useBulk) && s.Valid() && !s.stopped
    ensures var t := Columns.Run(session, cfg, s, n); !t.stopped && t.useBulk == s.useBulk && (t.Running() ==> t.sizer == Succeed(s.sizer, n))
  {
    hide Generous, Columns.Step;
    if n > 0 {
      WalkBatchRecovers(session, mib, dev, cfg, s, n - 1);
      var t := Columns.Run(session, cfg, s, n - 1);
      if t.Running() {
        WalkIsRead(session, mib, dev, cfg, t);
      }
    }
  }

  lemma WalkIsRead(session: Session, mib: Mib, dev: Device, cfg: FetchConfig, s: Columns.State)
    requires Generous(session, mib, dev, s.useBulk) && s.Running() && s.Valid()
    ensures var t := Columns.Step(session, cfg, s); t.sizer == s.sizer.AfterSuccess() && t.useBulk == s.useBulk && !t.stopped
  {
    hide AllRounds, Interleaves, Continues, CanonicalOID, Columns.State.Chunk;
    var req := Columns.RequestOf(cfg, s);
    var r := session.answer(s.pdus, req);
    assert Answers(mib, dev, req, r);
    assert r.Packet? && r.status == NoError;
    Uncancelled(session, mib, dev, s.useBulk, s.pdus);
    hide Generous, Answers, Columns.RequestOf;
    ReadOn(cfg, s, r);
  }

  // ----- while everything is refused it halves -----

  ghost predicate RefusesAll(session: Session) {
    (forall n :: !session.cancelled(n)) && forall n, req: Request :: Declines(session.answer(n, req))
  }

  /** Each refused GET halves the batch and costs nothing else, as long as it can be halved. */
  lemma {:induction false} ScalarBatchHalves(session: Session, s: Scalars.State, n: nat)
    requires RefusesAll(session) && s.sizer.Valid() && s.Running()
    requires forall k: nat :: k < n ==> Halve(s.sizer, k).CanShrink()
    ensures Scalars.Run(session, s, n) == s.(sizer := Halve(s.sizer, n), pdus := s.pdus + n)
  {
    hide Scalars.Step, RefusesAll;
    if n > 0 {
      ScalarBatchHalves(session, s, n - 1);
      GetIsRefused(session, Scalars.Run(session, s, n - 1));
    }
  }

  lemma GetIsRefused(session: Session, s: Scalars.State)
    requires RefusesAll(session) && s.sizer.Valid() && s.Running() && s.sizer.CanShrink()
    ensures Scalars.Step(session, s) == s.(sizer := s.sizer.Shrunk(), pdus := s.pdus + 1)
  {
    hide Scalars.Record, Scalars.State.Request;
  }

  /** GETBULK never works. */
  ghost predicate RefusesBulk(session: Session) {
    (forall n :: !session.cancelled(n)) && forall n, req: Request :: req.GetBulk? ==> Declines(session.answer(n, req))
  }

  lemma BulkIsRefused(session: Session, cfg: FetchConfig, s: Columns.State)
    requires RefusesBulk(session) && s.Valid() && s.Running() && s.useBulk
    ensures Columns.Step(session, cfg, s) ==
      if s.sizer.CanShrink() then s.(sizer := s.sizer.Shrunk(), pdus := s.pdus + 1)
      else s.(useBulk := false, sizer := s.sizer.AfterReset(), pdus := s.pdus + 1)
  {
    hide Columns.Absorbed, Columns.State.Chunk;
  }

  lemma {:induction false} WalkBatchHalves(session: Session, cfg: FetchConfig, s: Columns.State, n: nat)
    requires RefusesBulk(session) && s.Valid() && s.Running() && s.useBulk
    requires forall k: nat :: k < n ==> Halve(s.sizer, k).CanShrink()
    ensures Columns.Run(session, cfg, s, n) == s.(sizer := Halve(s.sizer, n), pdus := s.pdus + n)
  {
    hide Columns.Step, RefusesBulk;
    if n > 0 {
      WalkBatchHalves(session, cfg, s, n - 1);
      BulkIsRefused(session, cfg, Columns.Run(session, cfg, s, n - 1));
    }
  }

  lemma {:induction false} Log2Is(n: nat)
    requires n >= 1
    ensures Pow2(Log2(n)) <= n < 2 * Pow2(Log2(n))
  {
    if n > 1 {
      Log2Is(n / 2);
    }
  }

  /** A batch of b OIDs can be halved log2(b) times, and then holds one. */
  lemma HalvesLog2Times(s: Sizer, k: nat)
    requires s.Valid() && k <= Log2(s.current)
    ensures Halve(s, k).CanShrink() <==> k < Log2(s.current)
  {
    var b := s.current;
    Log2Is(b);
    RefusalsHalve(s, k);
    Quotient(b, Pow2(k));
    if k < Log2(b) {
      Pow2Grows(k + 1, Log2(b));
      if b / Pow2(k) < 2 {
        ProductGrows(b / Pow2(k), 1, Pow2(k));
      }
    } else if b / Pow2(k) >= 2 {
      ProductGrows(2, b / Pow2(k), Pow2(k));
    }
  }

  lemma {:induction false} RunOn(session: Session, cfg: FetchConfig, s: Columns.State, n: nat, m: nat)
    requires s.Valid()
    ensures Columns.Run(session, cfg, s, n + m) == Columns.Run(session, cfg, Columns.Run(session, cfg, s, n), m)
  {
    hide Columns.Step;
    if m > 0 {
      RunOn(session, cfg, s, n, m - 1);
    }
  }

  /** After log2(batch) + 1 refused GETBULKs the walk starts over by GETNEXT, with full batches and nothing lost. */
  lemma FallsBackToNext(session: Session, cfg: FetchConfig, s: Columns.State)
    requires RefusesBulk(session) && s.Valid() && s.Running() && s.useBulk
    ensures var n := Log2(s.sizer.current) + 1;
      Columns.Run(session, cfg, s, n) == s.(useBulk := false, sizer := s.sizer.AfterReset(), pdus := s.pdus + n)
  {
    hide Columns.Step, RefusesBulk, Log2;
    var n := Log2(s.sizer.current);
    forall k: nat | k <= n
      ensures Halve(s.sizer, k).CanShrink() <==> k < n
    {
      HalvesLog2Times(s.sizer, k);
    }
    WalkBatchHalves(session, cfg, s, n);
    var t := Columns.Run(session, cfg, s, n);
    BulkIsRefused(session, cfg, t);
    RefusalsHalve(s.sizer, n);
  }

  lemma StartsWalking(session: Session, cfg: FetchConfig, columnOIDs: seq<string>, pdus: nat)
    requires columnOIDs != []
    ensures Columns.Start(session, cfg, columnOIDs, pdus).Running()
  {
    hide CanonicalOID;
    assert CanonicalOID(columnOIDs[0]) in Columns.Roots(columnOIDs);
    assert CanonicalOID(columnOIDs[0]) in Columns.Start(session, cfg, columnOIDs, pdus).walk.next;
  }

  lemma StartsPlainly(session: Session, cfg: FetchConfig, columnOIDs: seq<string>, pdus: nat)
    ensures var s := Columns.Start(session, cfg, columnOIDs, pdus); s.useBulk == session.supportsGetBulk && s.pdus == pdus
  {
  }

  lemma NothingRuns(s: Columns.State)
    ensures s.walk.next == map[] ==> !s.Running()
  {
  }

  /** What is left when GETBULK has failed is a walk that starts by GETNEXT. */
  lemma StartsOver(session: Session, cfg: FetchConfig, columnOIDs: seq<string>, pdus: nat)
    requires RefusesBulk(session) && session.supportsGetBulk && columnOIDs != []
    ensures var wasted := Log2(NewSizer(cfg.oidBatchSize).max) + 1;
      Columns.Run(session, cfg, Columns.Start(session, cfg, columnOIDs, pdus), wasted) ==
      Columns.Start(Session(session.answer, session.cancelled, false), cfg, columnOIDs, pdus + wasted)
  {
    hide Columns.Run, RefusesBulk, Log2, CanonicalOID;
    StartsWalking(session, cfg, columnOIDs, pdus);
    FallsBackToNext(session, cfg, Columns.Start(session, cfg, columnOIDs, pdus));
  }

  /**
   * A device without GETBULK that answers GETNEXT: beside the log2(batch) + 1 packets that find this out, columns that fit
   * one batch take the packets that the longest of them needs by GETNEXT.
   */
  lemma WalkWithoutBulk(session: Session, mib: Mib, dev: Device, cfg: FetchConfig, columnOIDs: seq<string>, pdus: nat, m: nat, n: nat)
    requires Proper(mib) && Honest(session, mib, dev) && Generous(session, mib, dev, false) && RefusesBulk(session)
    requires session.supportsGetBulk && Columns.Walkable(columnOIDs) && cfg.bulkMaxRepetitions >= 1
    requires columnOIDs != [] && |Columns.Roots(columnOIDs)| <= NewSizer(cfg.oidBatchSize).max
    requires m >= 1 && forall c :: c in Columns.Roots(columnOIDs) ==> Need(|Pending(mib, c, c)|, 1) <= m
    ensures var wasted := Log2(NewSizer(cfg.oidBatchSize).max) + 1;
      var t := Columns.Run(session, cfg, Columns.Start(session, cfg, columnOIDs, pdus), wasted + n);
      (n >= m ==> !t.Running()) && t.pdus <= pdus + wasted + m && t.errors == []
  {
    hide Columns.Run, Generous, Honest, RefusesBulk, Canonical, WalkOk, OnTime, Underway, Need, Pending, Log2, Proper,
         Columns.Walkable, Columns.Start, Columns.Roots, Columns.State.Running;
    var s := Columns.Start(session, cfg, columnOIDs, pdus);
    var wasted := Log2(NewSizer(cfg.oidBatchSize).max) + 1;
    StartsOver(session, cfg, columnOIDs, pdus);
    var direct := Session(session.answer, session.cancelled, false);
    var t := Columns.Start(direct, cfg, columnOIDs, pdus + wasted);
    StartsOnTime(mib, direct, cfg, columnOIDs, pdus + wasted, m);
    Columns.StartIsOk(mib, direct, cfg, columnOIDs, pdus + wasted);
    StartsPlainly(direct, cfg, columnOIDs, pdus + wasted);
    RunIsUnderway(session, mib, dev, cfg, t, m, n);
    RunOn(session, cfg, s, wasted, n);
    var end := Columns.Run(session, cfg, t, n);
    UnderwayIsClean(mib, cfg, end, t.pdus, m, n);
    assert n >= m ==> !end.Running() by { NothingRuns(end); }
  }
}
