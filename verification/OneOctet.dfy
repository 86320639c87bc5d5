/**
 * The one-octet error index of SNMPv1. It names every variable of a request of at most 255; beyond that a correct agent
 * can no longer say which variable failed the request, and the loops of internal/snmp/fetch.go act on the wrong one.
 */
module OneOctet {
  import opened Collections
  import opened Order
  import opened Oid
  import opened Wrappers
  import opened Pdu
  import opened Wire
  import opened Sizing
  import opened Agent
  import Scalars
  import Columns
  import Walk

  // ----- scalars -----

  /** A device that holds exactly these, each readable. */
  function Holding(oids: seq<string>): Mib {
    map o | o in oids :: Cell(Integer, Whole(0))
  }

  ghost function CorrectSession(mib: Mib, dev: Device): (session: Session)
    requires Proper(mib)
    ensures Serves(session, mib, dev)
  {
    hide Answers;
    Session((n: nat, req) => CorrectAnswer(mib, dev, req), n => false, false)
  }

  lemma FirstOf256(oids: seq<string>, chunk: seq<string>)
    requires Distinct(oids) && |chunk| >= 256 && chunk <= oids
    ensures FirstAbsent(Holding(oids[..255]), chunk) == Some(255)
  {
    var mib := Holding(oids[..255]);
    assert oids[255] !in oids[..255];
    assert chunk[..255] == oids[..255];
    FirstAbsentIs(mib, chunk, 255);
  }

  lemma NamesTheFirst(mib: Mib, dev: Device, req: Request, i: nat)
    requires Proper(mib) && dev.v1 && req.Get?
    requires FirstAbsent(mib, seq(|req.names|, k requires 0 <= k < |req.names| => CanonicalOID(req.names[k]))) == Some(i)
    ensures CorrectAnswer(mib, dev, req) == Packet(NoSuchName, (i + 1) % 256, [])
  {
    hide CanonicalOID, FirstAbsent, Answers, Proper;
  }

  lemma WrappedIndexFails(s: Scalars.State, r: Response)
    requires s.Running() && s.sizer.Valid() && r == Packet(NoSuchName, 0, [])
    ensures Scalars.React(s, r).errors == s.errors + [UnusableIndex(0)]
  {
    hide Scalars.Record;
  }

  /** The 256th of the OIDs is the only absent one of the first request, and its index wraps to zero. */
  lemma TheWrappedIndex(oids: seq<string>, batchSize: int, dev: Device)
    requires Distinct(oids) && CanonicalAll(oids) && dev.v1 && !IndexFits(batchSize, |oids|)
    ensures Proper(Holding(oids[..255]))
    ensures Scalars.Run(CorrectSession(Holding(oids[..255]), dev), Scalars.Start(oids, batchSize), 1).errors == [UnusableIndex(0)]
  {
    hide Canonical, CanonicalOID, FirstAbsent, CorrectAnswer, Scalars.React, Proper;
    var s := Scalars.Start(oids, batchSize);
    var mib := Holding(oids[..255]);
    HoldingIsProper(oids[..255], oids);
    FirstOf256(oids, s.Chunk());
    hide Holding;
    Scalars.RequestNamesChunk(s);
    var session, req := CorrectSession(mib, dev), s.Request();
    hide Scalars.State.Chunk, Scalars.State.Request;
    NamesTheFirst(mib, dev, req, 255);
    WrappedIndexFails(s, Packet(NoSuchName, 0, []));
    Scalars.RunUnfolds(session, s, 0);
    Scalars.RunUnfolds(session, s, 1);
    hide Scalars.Run;
    assert session.answer(0, req) == Packet(NoSuchName, 0, []);
  }

  lemma HoldingIsProper(part: seq<string>, oids: seq<string>)
    requires CanonicalAll(oids) && forall o :: o in part ==> o in oids
    ensures Proper(Holding(part))
  {
    hide Canonical;
  }

  lemma StepKeepsErrors(session: Session, s: Scalars.State)
    requires s.Running() && s.sizer.Valid()
    ensures s.errors <= Scalars.Step(session, s).errors
  {
    hide Scalars.Record, Scalars.State.Chunk, Scalars.State.Request;
  }

  lemma {:induction false} ErrorsStay(session: Session, s: Scalars.State, n: nat, m: nat)
    requires s.sizer.Valid() && n <= m
    ensures Scalars.Run(session, s, n).errors <= Scalars.Run(session, s, m).errors
    decreases m - n
  {
    hide Scalars.Step;
    if n < m {
      ErrorsStay(session, s, n, m - 1);
      if Scalars.Run(session, s, m - 1).Running() {
        StepKeepsErrors(session, Scalars.Run(session, s, m - 1));
      }
    }
  }

  /** Every v1 device that serves is read exactly. */
  ghost predicate ScalarsReadExactly(oids: seq<string>, batchSize: int, dev: Device) {
    forall session, mib, n: nat :: Proper(mib) && Serves(session, mib, dev) && n > Scalars.PduBound(|oids|, NewSizer(batchSize).max) ==>
      Scalars.Exact(mib, dev, oids, Scalars.Run(session, Scalars.Start(oids, batchSize), n))
  }

  /**
   * SNMPv1 scalars are read exactly from every device that serves if and only if the batch or the request has at most
   * 255 OIDs, and it makes no difference which absent variable the agents name.
   */
  lemma V1ScalarsExactIff(oids: seq<string>, batchSize: int, dev: Device)
    requires Distinct(oids) && CanonicalAll(oids) && dev.v1
    ensures ScalarsReadExactly(oids, batchSize, dev) <==> IndexFits(batchSize, |oids|)
  {
    hide Serves, Proper, CanonicalAll, Distinct, Scalars.Exact, Scalars.Run, Scalars.PduBound, IndexFits;
    if IndexFits(batchSize, |oids|) {
      forall session, mib, n: nat | Proper(mib) && Serves(session, mib, dev) && n > Scalars.PduBound(|oids|, NewSizer(batchSize).max)
        ensures Scalars.Exact(mib, dev, oids, Scalars.Run(session, Scalars.Start(oids, batchSize), n))
      {
        Scalars.ScalarsAreExact(session, mib, dev, oids, batchSize, n);
      }
    } else {
      V1ScalarsGoWrong(oids, batchSize, dev);
    }
  }

  lemma V1ScalarsGoWrong(oids: seq<string>, batchSize: int, dev: Device)
    requires Distinct(oids) && CanonicalAll(oids) && dev.v1 && !IndexFits(batchSize, |oids|)
    ensures !ScalarsReadExactly(oids, batchSize, dev)
  {
    assert |oids| >= 256;
    hide Serves, Proper, CanonicalAll, Distinct, Scalars.Run, Scalars.PduBound, IndexFits, Holding, CorrectSession;
    TheWrappedIndex(oids, batchSize, dev);
    var mib := Holding(oids[..255]);
    var session, s, n := CorrectSession(mib, dev), Scalars.Start(oids, batchSize), Scalars.PduBound(|oids|, NewSizer(batchSize).max) + 1;
    ErrorsStay(session, s, 1, n);
    assert !Scalars.Exact(mib, dev, oids, Scalars.Run(session, s, n));
    hide Scalars.Exact;
    assert Serves(session, mib, dev);
  }

  // ----- columns -----

  /** A device without instances names the 256th variable whenever a request has that many. */
  ghost function EmptyAnswer(dev: Device, req: Request): (r: Response)
    requires dev.v1
    ensures Answers(map[], dev, req, r)
  {
    hide CanonicalOID, CorrectAnswer;
    if req.GetNext? && |req.names| >= 256 then
      var oids := seq(|req.names|, i requires 0 <= i < |req.names| => CanonicalOID(req.names[i]));
      assert IsLast(map[], oids[255]);
      Packet(NoSuchName, 0, [])
    else
      CorrectAnswer(map[], dev, req)
  }

  ghost function EmptySession(dev: Device): (session: Session)
    requires dev.v1
    ensures Serves(session, map[], dev)
  {
    hide Answers;
    Session((n: nat, req: Request) => EmptyAnswer(dev, req), n => false, false)
  }

  lemma FullChunk(session: Session, columnOIDs: seq<string>, cfg: FetchConfig, pdus: nat)
    requires !IndexFits(cfg.oidBatchSize, |Columns.Roots(columnOIDs)|)
    ensures var s := Columns.Start(session, cfg, columnOIDs, pdus); s.Running() && |s.Chunk()| >= 256
  {
    hide CanonicalOID, Columns.Roots;
    assert Columns.Start(session, cfg, columnOIDs, pdus).walk.next.Keys == Columns.Roots(columnOIDs);
  }

  lemma WrappedIndexEndsTheWalk(cfg: FetchConfig, s: Columns.State, r: Response)
    requires s.Running() && s.Valid() && r == Packet(NoSuchName, 0, [])
    ensures Columns.React(cfg, s, r).errors == s.errors + [UnusableIndex(0)]
  {
    hide Columns.Absorbed, Columns.State.Chunk;
  }

  lemma EmptyDeviceFails(columnOIDs: seq<string>, cfg: FetchConfig, dev: Device, pdus: nat)
    requires dev.v1 && !IndexFits(cfg.oidBatchSize, |Columns.Roots(columnOIDs)|)
    ensures
      var session := EmptySession(dev);
      Columns.Run(session, cfg, Columns.Start(session, cfg, columnOIDs, pdus), 1).errors == [UnusableIndex(0)]
  {
    hide CanonicalOID, Columns.Roots, CorrectAnswer, Columns.React, Columns.State.Chunk, IndexFits;
    var session := EmptySession(dev);
    var s := Columns.Start(session, cfg, columnOIDs, pdus);
    FullChunk(session, columnOIDs, cfg, pdus);
    WrappedIndexEndsTheWalk(cfg, s, Packet(NoSuchName, 0, []));
    Columns.RunUnfolds(session, cfg, s, 0);
    Columns.RunUnfolds(session, cfg, s, 1);
    hide Columns.Run;
    assert session.answer(pdus, Columns.RequestOf(cfg, s)) == Packet(NoSuchName, 0, []);
  }

  lemma WalkStepKeepsErrors(session: Session, cfg: FetchConfig, s: Columns.State)
    requires s.Running() && s.Valid()
    ensures s.errors <= Columns.Step(session, cfg, s).errors
  {
    hide Columns.Absorbed, Columns.RequestOf, Columns.State.Chunk;
  }

  lemma {:induction false} WalkErrorsStay(session: Session, cfg: FetchConfig, s: Columns.State, n: nat, m: nat)
    requires s.Valid() && n <= m
    ensures Columns.Run(session, cfg, s, n).errors <= Columns.Run(session, cfg, s, m).errors
    decreases m - n
  {
    hide Columns.Step;
    if n < m {
      WalkErrorsStay(session, cfg, s, n, m - 1);
      if Columns.Run(session, cfg, s, m - 1).Running() {
        WalkStepKeepsErrors(session, cfg, Columns.Run(session, cfg, s, m - 1));
      }
    }
  }

  ghost predicate ColumnsReadExactly(columnOIDs: seq<string>, cfg: FetchConfig, dev: Device)
    requires Columns.Walkable(columnOIDs)
  {
    forall session, mib, n: nat :: Proper(mib) && Serves(session, mib, dev) && n >= Columns.EnoughTurns(session, mib, cfg, columnOIDs) ==>
      var t := Columns.Run(session, cfg, Columns.Start(session, cfg, columnOIDs, 0), n);
      t.errors == [] && Columns.Exact(mib, Columns.Cap(cfg), Columns.Roots(columnOIDs), t.walk.columns, t.walk.truncated)
  }

  /**
   * SNMPv1 columns are read exactly from every device that serves if and only if the batch, or the number of different
   * columns, is at most 255.
   */
  lemma V1ColumnsExactIff(columnOIDs: seq<string>, cfg: FetchConfig, dev: Device)
    requires Columns.Walkable(columnOIDs) && dev.v1 && cfg.bulkMaxRepetitions >= 1
    ensures ColumnsReadExactly(columnOIDs, cfg, dev) <==> IndexFits(cfg.oidBatchSize, |Columns.Roots(columnOIDs)|)
  {
    hide Serves, Proper, Canonical, Columns.Exact, Columns.Run, Columns.EnoughTurns, Columns.Roots, IndexFits, Walk.NonNested;
    if IndexFits(cfg.oidBatchSize, |Columns.Roots(columnOIDs)|) {
      forall session, mib, n: nat | Proper(mib) && Serves(session, mib, dev) && n >= Columns.EnoughTurns(session, mib, cfg, columnOIDs)
        ensures var t := Columns.Run(session, cfg, Columns.Start(session, cfg, columnOIDs, 0), n);
          t.errors == [] && Columns.Exact(mib, Columns.Cap(cfg), Columns.Roots(columnOIDs), t.walk.columns, t.walk.truncated)
      {
        Columns.WalkIsExact(session, mib, dev, cfg, columnOIDs, 0, n);
      }
    } else {
      V1ColumnsGoWrong(columnOIDs, cfg, dev);
    }
  }

  lemma V1ColumnsGoWrong(columnOIDs: seq<string>, cfg: FetchConfig, dev: Device)
    requires Columns.Walkable(columnOIDs) && dev.v1 && !IndexFits(cfg.oidBatchSize, |Columns.Roots(columnOIDs)|)
    ensures !ColumnsReadExactly(columnOIDs, cfg, dev)
  {
    hide Serves, Canonical, Columns.Exact, Columns.Run, Columns.EnoughTurns, Columns.Roots, IndexFits, EmptySession;
    var session := EmptySession(dev);
    var s, n := Columns.Start(session, cfg, columnOIDs, 0), Columns.EnoughTurns(session, map[], cfg, columnOIDs) + 1;
    EmptyDeviceFails(columnOIDs, cfg, dev, 0);
    WalkErrorsStay(session, cfg, s, 1, n);
    assert Proper(map[]) && Serves(session, map[], dev);
    assert Columns.Run(session, cfg, s, n).errors != [];
  }

  // ----- an input for which it happens -----

  /** 2, 1.2, 1.1.2 and so on: canonical, all different, none below another. */
  function Rung(i: nat): string {
    if i == 0 then "2" else "1" + "." + Rung(i - 1)
  }

  function Ladder(n: nat): (oids: seq<string>)
    ensures |oids| == n && forall i :: 0 <= i < n ==> oids[i] == Rung(i)
  {
    seq(n, i requires 0 <= i => Rung(i))
  }

  lemma OneDigitArcs()
    ensures CanonicalArc("1") && CanonicalArc("2")
  {
    assert "1"[..0] == "" && "2"[..0] == "";
  }

  lemma {:induction false} RungIsCanonical(i: nat)
    ensures Canonical(Rung(i)) && |Rung(i)| == 2 * i + 1
  {
    OneDigitArcs();
    SplitSingle("1");
    SplitSingle("2");
    if i > 0 {
      RungIsCanonical(i - 1);
      SplitConcat("1", Rung(i - 1));
    }
    hide Split, CanonicalArc;
  }

  lemma {:induction false} RungsDoNotNest(i: nat, j: nat, index: string)
    ensures Rung(i) + ("." + index) != Rung(j)
    decreases i
  {
    var above, below := Rung(i) + ("." + index), Rung(j);
    if i > 0 && j > 0 {
      RungsDoNotNest(i - 1, j - 1, index);
      assert above[2..] == Rung(i - 1) + ("." + index) && below[2..] == Rung(j - 1);
    } else if i == 0 && j == 0 {
      assert |above| > |below|;
    } else {
      assert above[0] != below[0];
    }
  }

  lemma {:induction false} SizeOfDistinct<T>(s: seq<T>)
    requires Distinct(s)
    ensures |set x | x in s| == |s|
  {
    var all := set x | x in s;
    if s != [] {
      var n := |s| - 1;
      var init := set x | x in s[..n];
      SizeOfDistinct(s[..n]);
      assert s == s[..n] + [s[n]];
      assert all == init + {s[n]};
      assert s[n] !in s[..n];
    }
  }

  lemma LadderIsAskable(n: nat)
    ensures CanonicalAll(Ladder(n)) && Distinct(Ladder(n))
    ensures Columns.Walkable(Ladder(n)) && |Columns.Roots(Ladder(n))| == n
  {
    hide Canonical, CanonicalOID, Rung;
    var oids := Ladder(n);
    forall i: nat
      ensures Canonical(Rung(i)) && |Rung(i)| == 2 * i + 1 && CanonicalOID(Rung(i)) == Rung(i)
    {
      RungIsCanonical(i);
      CanonicalOIDFixes(Rung(i));
    }
    SizeOfDistinct(oids);
    assert forall o :: o in oids ==> CanonicalOID(o) == o;
    assert Columns.Roots(oids) == set o | o in oids;
    forall c, d | c in oids && d in oids
      ensures !Under(c, d)
    {
      var i: nat :| i < n && c == Rung(i);
      var j: nat :| j < n && d == Rung(j);
      if Under(c, d) {
        RowIndexSplits(c, d, RowIndex(c, d).value);
        RungsDoNotNest(i, j, RowIndex(c, d).value);
        SeqAssociative(c, ".", RowIndex(c, d).value);
      }
    }
  }

  /** Batches of 256 and 256 OIDs: one packet is enough to fail, for scalars as for columns. */
  lemma TwoHundredFiftySixFail(dev: Device, cap: int)
    requires dev.v1
    ensures
      var oids, cfg := Ladder(256), FetchConfig(256, 10, cap);
      && Proper(Holding(oids[..255])) && Columns.Walkable(oids)
      && Scalars.Run(CorrectSession(Holding(oids[..255]), dev), Scalars.Start(oids, 256), 1).errors == [UnusableIndex(0)]
      && Columns.Run(EmptySession(dev), cfg, Columns.Start(EmptySession(dev), cfg, oids, 0), 1).errors == [UnusableIndex(0)]
  {
    LadderIsAskable(256);
    hide Ladder, CanonicalAll, Distinct, Canonical, Columns.Roots, Scalars.Run, Columns.Run, Walk.NonNested, EmptySession, Holding, CorrectSession;
    TheWrappedIndex(Ladder(256), 256, dev);
    EmptyDeviceFails(Ladder(256), FetchConfig(256, 10, cap), dev, 0);
  }
}
