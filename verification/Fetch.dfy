/** Fetch of internal/snmp/fetch.go: one poll's scalars and columns. */
module Fetch {
  import opened Oid
  import opened Pdu
  import opened Wire
  import opened Sizing
  import opened Agent
  import Scalars
  import Columns

  /** What one poll brings back. */
  datatype Poll = Poll(scalars: map<string, Value>, missing: seq<string>,
                       columns: map<string, map<string, Value>>, truncated: seq<string>,
                       pdus: nat, errors: seq<FetchError>)

  ghost predicate Bounded(session: Session, columnOIDs: seq<string>, universe: set<string>) {
    Columns.Finite(session, universe) && Columns.Roots(columnOIDs) <= universe
  }

  ghost function WalkTurns(session: Session, columnOIDs: seq<string>, cfg: FetchConfig, universe: set<string>): nat {
    Columns.PduBound(Columns.StartUnits(universe, columnOIDs), NewSizer(cfg.oidBatchSize).max, session.supportsGetBulk) + 1
  }

  /** Where the walk ends, when it starts after `pdus` packets. */
  ghost function WalkEnd(session: Session, columnOIDs: seq<string>, cfg: FetchConfig, pdus: nat, universe: set<string>): Columns.State {
    Columns.Run(session, cfg, Columns.Start(session, cfg, columnOIDs, pdus), WalkTurns(session, columnOIDs, cfg, universe))
  }

  /** The two loops' final states, put together. */
  ghost function Polled(session: Session, scalarOIDs: seq<string>, columnOIDs: seq<string>, config: FetchConfig, universe: set<string>): Poll {
    var cfg := config.WithDefaults();
    var s := Scalars.Final(session, scalarOIDs, cfg.oidBatchSize);
    var c := WalkEnd(session, columnOIDs, cfg, s.pdus, universe);
    Poll(s.scalars, s.missing, c.walk.columns, c.walk.truncated, c.pdus, s.errors + c.errors)
  }

  lemma {:induction false} NothingToWalk(session: Session, cfg: FetchConfig, pdus: nat, n: nat)
    ensures Columns.Run(session, cfg, Columns.Start(session, cfg, [], pdus), n) == Columns.Start(session, cfg, [], pdus)
    ensures var w := Columns.Start(session, cfg, [], pdus).walk; w.next == map[] && w.columns == map[] && w.truncated == []
  {
    hide Columns.Step;
    assert Columns.Roots([]) == {};
    if n > 0 {
      NothingToWalk(session, cfg, pdus, n - 1);
    }
  }

  lemma {:induction false} NothingToGet(session: Session, batchSize: int, n: nat)
    ensures Scalars.Run(session, Scalars.Start([], batchSize), n) == Scalars.Start([], batchSize)
  {
    hide Scalars.Step;
    if n > 0 {
      NothingToGet(session, batchSize, n - 1);
    }
  }

  method Fetch(session: Session, scalarOIDs: seq<string>, columnOIDs: seq<string>, config: FetchConfig, ghost universe: set<string>)
    returns (store: ValueStore, report: FetchReport, errors: seq<FetchError>)
    requires Bounded(session, columnOIDs, universe)
    ensures fresh(store) && fresh(report)
    ensures Poll(store.Scalars, report.MissingOIDs, store.Columns, report.TruncatedColumns, report.PDUs, errors) ==
            Polled(session, scalarOIDs, columnOIDs, config, universe)
  {
    hide Scalars.Run, Columns.Run, Columns.PduBound, Columns.StartUnits, Columns.Finite;
    var cfg := config.WithDefaults();
    store := new ValueStore();
    report := new FetchReport();
    errors := [];
    if |scalarOIDs| > 0 {
      errors := Scalars.FetchScalars(session, scalarOIDs, cfg, store, report);
    } else {
      NothingToGet(session, cfg.oidBatchSize, Scalars.PduBound(0, NewSizer(cfg.oidBatchSize).max) + 1);
    }
    if |columnOIDs| > 0 {
      var walkErrors := Columns.FetchColumns(session, columnOIDs, cfg, store, report, universe);
      errors := errors + walkErrors;
    } else {
      NothingToWalk(session, cfg, report.PDUs, WalkTurns(session, columnOIDs, cfg, universe));
    }
  }

  /** The request is for canonical OIDs and for columns that do not nest; a v1 agent can name each of them. */
  ghost predicate Askable(scalarOIDs: seq<string>, columnOIDs: seq<string>, config: FetchConfig, dev: Device) {
    && CanonicalAll(scalarOIDs)
    && Columns.Walkable(columnOIDs)
    && dev.CanName(config.BatchSize(), |scalarOIDs|)
    && dev.CanName(config.BatchSize(), |Columns.Roots(columnOIDs)|)
  }

  /** A device that serves the poll is always bounded. */
  lemma HonestIsBounded(session: Session, mib: Mib, dev: Device, columnOIDs: seq<string>)
    requires Proper(mib) && Honest(session, mib, dev) && Columns.Walkable(columnOIDs)
    ensures Bounded(session, columnOIDs, Columns.Names(mib, columnOIDs))
  {
    hide Honest, Columns.Finite, Columns.Roots;
    Columns.HonestIsFinite(session, mib, dev, columnOIDs);
  }

  lemma ScalarsEndExact(session: Session, mib: Mib, dev: Device, scalarOIDs: seq<string>, batchSize: int)
    requires Proper(mib) && Serves(session, mib, dev) && CanonicalAll(scalarOIDs) && dev.CanName(batchSize, |scalarOIDs|)
    ensures Scalars.Exact(mib, dev, scalarOIDs, Scalars.Final(session, scalarOIDs, batchSize))
  {
    hide Proper, Serves, CanonicalAll, Device.CanName, Scalars.Exact, Scalars.Run;
    Scalars.ScalarsAreExact(session, mib, dev, scalarOIDs, batchSize, Scalars.PduBound(|scalarOIDs|, NewSizer(batchSize).max) + 1);
  }

  lemma WalkEndsExact(session: Session, mib: Mib, dev: Device, columnOIDs: seq<string>, cfg: FetchConfig, pdus: nat)
    requires Proper(mib) && Serves(session, mib, dev) && Columns.Walkable(columnOIDs)
    requires dev.CanName(cfg.oidBatchSize, |Columns.Roots(columnOIDs)|) && cfg.bulkMaxRepetitions >= 1
    ensures var c := WalkEnd(session, columnOIDs, cfg, pdus, Columns.Names(mib, columnOIDs));
      c.errors == [] && Columns.Exact(mib, Columns.Cap(cfg), Columns.Roots(columnOIDs), c.walk.columns, c.walk.truncated)
  {
    hide Proper, Serves, Canonical, Device.CanName, Columns.Run, Columns.Roots, Columns.Exact, Columns.PduBound;
    Columns.WalkIsExact(session, mib, dev, cfg, columnOIDs, pdus, WalkTurns(session, columnOIDs, cfg, Columns.Names(mib, columnOIDs)));
  }

  /** One poll of a device that serves: no error, and exactly the device's values for what was asked. */
  lemma PollIsExact(session: Session, mib: Mib, dev: Device, scalarOIDs: seq<string>, columnOIDs: seq<string>, config: FetchConfig)
    requires Proper(mib) && Serves(session, mib, dev) && Askable(scalarOIDs, columnOIDs, config, dev)
    ensures var p := Polled(session, scalarOIDs, columnOIDs, config, Columns.Names(mib, columnOIDs));
      && p.errors == []
      && p.scalars == Scalars.Stored(mib, scalarOIDs)
      && multiset(p.missing) == multiset(Scalars.Reported(mib, dev, scalarOIDs))
      && (dev.InOrder() ==> p.missing == Scalars.Reported(mib, dev, scalarOIDs))
      && Columns.Exact(mib, config.RowCap(), Columns.Roots(columnOIDs), p.columns, p.truncated)
  {
    hide Proper, Serves, CanonicalAll, Canonical, Device.CanName, Device.InOrder, WalkEnd, Scalars.Final, Scalars.Stored, Scalars.Reported,
         Columns.Exact, Columns.Names, Columns.Roots;
    var cfg := config.WithDefaults();
    var s := Scalars.Final(session, scalarOIDs, cfg.oidBatchSize);
    ScalarsEndExact(session, mib, dev, scalarOIDs, cfg.oidBatchSize);
    WalkEndsExact(session, mib, dev, columnOIDs, cfg, s.pdus);
  }

  lemma ScalarsEndSound(session: Session, mib: Mib, dev: Device, scalarOIDs: seq<string>, batchSize: int)
    requires Proper(mib) && Honest(session, mib, dev) && CanonicalAll(scalarOIDs) && dev.CanName(batchSize, |scalarOIDs|)
    ensures var s, stored := Scalars.Final(session, scalarOIDs, batchSize), Scalars.Stored(mib, scalarOIDs);
      && (forall o :: o in s.scalars ==> o in stored && s.scalars[o] == stored[o])
      && multiset(s.missing) <= multiset(Scalars.Reported(mib, dev, scalarOIDs))
  {
    hide Proper, Honest, CanonicalAll, Device.CanName, Scalars.Run, Scalars.Stored, Scalars.Reported;
    Scalars.ScalarsAreSound(session, mib, dev, scalarOIDs, batchSize, Scalars.PduBound(|scalarOIDs|, NewSizer(batchSize).max) + 1);
  }

  lemma WalkEndsSound(session: Session, mib: Mib, dev: Device, columnOIDs: seq<string>, cfg: FetchConfig, pdus: nat)
    requires Proper(mib) && Honest(session, mib, dev) && Columns.Walkable(columnOIDs)
    requires dev.CanName(cfg.oidBatchSize, |Columns.Roots(columnOIDs)|) && cfg.bulkMaxRepetitions >= 1
    ensures var columns := WalkEnd(session, columnOIDs, cfg, pdus, Columns.Names(mib, columnOIDs)).walk.columns;
      && columns.Keys == Columns.Roots(columnOIDs)
      && (forall c :: c in Columns.Roots(columnOIDs) ==> Columns.HoldsPrefix(mib, c, columns[c]))
  {
    hide Proper, Honest, Canonical, Device.CanName, Columns.Run, Columns.Roots, Columns.HoldsPrefix, Columns.Exact, Columns.PduBound;
    Columns.WalkIsSound(session, mib, dev, cfg, columnOIDs, pdus, WalkTurns(session, columnOIDs, cfg, Columns.Names(mib, columnOIDs)));
  }

  /** Around correct answers any failure may occur; what is stored is still true, and what is reported is still not there. */
  lemma PollIsSound(session: Session, mib: Mib, dev: Device, scalarOIDs: seq<string>, columnOIDs: seq<string>, config: FetchConfig)
    requires Proper(mib) && Honest(session, mib, dev) && Askable(scalarOIDs, columnOIDs, config, dev)
    ensures var p := Polled(session, scalarOIDs, columnOIDs, config, Columns.Names(mib, columnOIDs));
      && (forall o :: o in p.scalars ==> o in Scalars.Stored(mib, scalarOIDs) && p.scalars[o] == Scalars.Stored(mib, scalarOIDs)[o])
      && multiset(p.missing) <= multiset(Scalars.Reported(mib, dev, scalarOIDs))
      && p.columns.Keys == Columns.Roots(columnOIDs)
      && (forall c :: c in Columns.Roots(columnOIDs) ==> Columns.HoldsPrefix(mib, c, p.columns[c]))
  {
    hide Proper, Honest, CanonicalAll, Canonical, Device.CanName, WalkEnd, Scalars.Final, Scalars.Stored, Scalars.Reported,
         Columns.HoldsPrefix, Columns.Names, Columns.Roots;
    var cfg := config.WithDefaults();
    ScalarsEndSound(session, mib, dev, scalarOIDs, cfg.oidBatchSize);
    WalkEndsSound(session, mib, dev, columnOIDs, cfg, Scalars.Final(session, scalarOIDs, cfg.oidBatchSize).pdus);
  }
}
