/** Dropping unimplemented OIDs: MarkMissing and FetchOIDs of internal/profile/compile.go across the polls of receiver.go. */
module Pruning {
  import opened Oid
  import opened Wire
  import opened Agent
  import Scalars
  import Columns
  import opened Rows
  import opened Fetch

  function Filter(oids: seq<string>, missing: set<string>): seq<string> {
    if oids == [] then []
    else (if oids[0] in missing then [] else [oids[0]]) + Filter(oids[1..], missing)
  }

  class Compiled {
    const scalarOIDs: seq<string>
    const columnOIDs: seq<string>
    var missing: set<string>

    constructor (scalarOIDs: seq<string>, columnOIDs: seq<string>)
      ensures this.scalarOIDs == scalarOIDs && this.columnOIDs == columnOIDs && missing == {}
    {
      this.scalarOIDs, this.columnOIDs, missing := scalarOIDs, columnOIDs, {};
    }

    method MarkMissing(oids: seq<string>)
      modifies this
      ensures missing == old(missing) + Marked(oids)
    {
      hide CanonicalOID;
      var i := 0;
      while i < |oids|
        invariant 0 <= i <= |oids|
        invariant missing == old(missing) + Marked(oids[..i])
      {
        assert oids[..i + 1] == oids[..i] + [oids[i]];
        assert Marked(oids[..i + 1]) == Marked(oids[..i]) + {CanonicalOID(oids[i])};
        missing := missing + {CanonicalOID(oids[i])};
        i := i + 1;
      }
      assert oids[..i] == oids;
    }

    method FilterOut(oids: seq<string>) returns (out: seq<string>)
      ensures out == Filter(oids, missing)
    {
      out := [];
      var i := 0;
      while i < |oids|
        invariant 0 <= i <= |oids|
        invariant out + Filter(oids[i..], missing) == Filter(oids, missing)
      {
        assert oids[i..][1..] == oids[i + 1..];
        if oids[i] !in missing {
          out := out + [oids[i]];
        }
        i := i + 1;
      }
    }

    /** Both lists without what has been marked. */
    method FetchOIDs() returns (scalars: seq<string>, columns: seq<string>)
      ensures scalars == Filter(scalarOIDs, missing) && columns == Filter(columnOIDs, missing)
    {
      if |missing| == 0 {
        FilterNothing(scalarOIDs, missing);
        FilterNothing(columnOIDs, missing);
        return scalarOIDs, columnOIDs;
      }
      scalars := FilterOut(scalarOIDs);
      columns := FilterOut(columnOIDs);
    }
  }

  function Marked(oids: seq<string>): set<string> {
    set o | o in oids :: CanonicalOID(o)
  }

  lemma {:induction false} FilterNothing(oids: seq<string>, missing: set<string>)
    requires forall o :: o in oids ==> o !in missing
    ensures Filter(oids, missing) == oids
  {
    if oids != [] {
      FilterNothing(oids[1..], missing);
    }
  }

  lemma {:induction false} FilterKeeps(oids: seq<string>, missing: set<string>)
    ensures forall o :: o in Filter(oids, missing) <==> o in oids && o !in missing
    ensures Filter(oids, missing) == oids ==> forall o :: o in oids ==> o !in missing
  {
    if oids != [] {
      FilterKeeps(oids[1..], missing);
      assert oids == [oids[0]] + oids[1..];
    }
  }

  /** Each OID stays or goes by itself, and what stays keeps its order. */
  lemma {:induction false} FilterKeepsOrder(a: seq<string>, b: seq<string>, missing: set<string>)
    ensures Filter(a + b, missing) == Filter(a, missing) + Filter(b, missing)
    ensures forall o :: Filter([o], missing) == if o in missing then [] else [o]
  {
    if a == [] {
      assert a + b == b;
    } else {
      assert (a + b)[1..] == a[1..] + b;
      FilterKeepsOrder(a[1..], b, missing);
    }
  }

  lemma {:induction false} ReportedAre(mib: Mib, dev: Device, oids: seq<string>)
    ensures forall o :: o in Scalars.Reported(mib, dev, oids) <==> o in oids && dev.Denies(mib, o)
  {
    hide Device.Denies;
    if oids != [] {
      ReportedAre(mib, dev, oids[1..]);
      assert oids == [oids[0]] + oids[1..];
    }
  }

  // ----- a device polled again and again -----

  /** The k-th poll talks to the device through `sessions(k)`, when it holds the instances `mibs(k)`. */
  datatype History = History(sessions: nat -> Session, mibs: nat -> Mib, dev: Device)

  /** Instances may come and go between polls; what the device implements stays. */
  ghost predicate Plausible(h: History) {
    forall k :: Proper(h.mibs(k)) && Consistent(h.mibs(k), h.dev)
  }

  ghost function PollAt(h: History, k: nat, scalarOIDs: seq<string>, columnOIDs: seq<string>, config: FetchConfig): Poll {
    Polled(h.sessions(k), scalarOIDs, columnOIDs, config, Columns.Names(h.mibs(k), columnOIDs))
  }

  /** What has been marked missing before the k-th poll. */
  ghost function MissingBefore(h: History, k: nat, scalarOIDs: seq<string>, columnOIDs: seq<string>, config: FetchConfig): set<string> {
    if k == 0 then {}
    else
      var missing := MissingBefore(h, k - 1, scalarOIDs, columnOIDs, config);
      missing + Marked(PollAt(h, k - 1, Filter(scalarOIDs, missing), Filter(columnOIDs, missing), config).missing)
  }

  lemma {:induction false} FilterIsShorter(oids: seq<string>, missing: set<string>)
    ensures |Filter(oids, missing)| <= |oids|
  {
    if oids != [] {
      FilterIsShorter(oids[1..], missing);
    }
  }

  lemma FilterIsAskable(scalarOIDs: seq<string>, columnOIDs: seq<string>, config: FetchConfig, dev: Device, missing: set<string>)
    requires Askable(scalarOIDs, columnOIDs, config, dev)
    ensures Askable(Filter(scalarOIDs, missing), Filter(columnOIDs, missing), config, dev)
  {
    hide Canonical, CanonicalOID, Under, Filter;
    FilterKeeps(scalarOIDs, missing);
    FilterKeeps(columnOIDs, missing);
    FilterIsShorter(scalarOIDs, missing);
    assert Columns.Roots(Filter(columnOIDs, missing)) <= Columns.Roots(columnOIDs);
    SubsetSize(Columns.Roots(Filter(columnOIDs, missing)), Columns.Roots(columnOIDs));
  }

  lemma MarkedCanonical(oids: seq<string>)
    requires CanonicalAll(oids)
    ensures forall o :: o in Marked(oids) <==> o in oids
  {
    hide Canonical, CanonicalOID;
    forall o | o in oids
      ensures CanonicalOID(o) == o
    {
      CanonicalOIDFixes(o);
    }
  }

  /** However an OID is spelled when it is marked, it is its canonical form that is pruned. */
  lemma SpellingIsTheSame(written: string, oid: string)
    requires Canonical(oid) && (TrimsTo(written, oid) || TrimsTo(written, "." + oid))
    ensures Marked([written]) == {oid}
  {
    hide CanonicalOID, Canonical, TrimsTo;
    TrimmedIsCanonical(written, oid);
  }

  /** Around any failures, one poll marks only asked scalars that the device denies. */
  lemma PollMarksOnlyDenied(h: History, k: nat, asked: seq<string>, columnOIDs: seq<string>, config: FetchConfig)
    requires Proper(h.mibs(k)) && Honest(h.sessions(k), h.mibs(k), h.dev) && Askable(asked, columnOIDs, config, h.dev)
    ensures forall o :: o in Marked(PollAt(h, k, asked, columnOIDs, config).missing) ==> o in asked && h.dev.Denies(h.mibs(k), o)
  {
    hide Honest, Polled, Canonical, CanonicalOID, Columns.Walkable, Scalars.Stored, Scalars.Reported, Columns.HoldsPrefix, Columns.Roots, Proper, Device.Denies, Device.CanName;
    PollIsSound(h.sessions(k), h.mibs(k), h.dev, asked, columnOIDs, config);
    ReportedAre(h.mibs(k), h.dev, asked);
    var missing := PollAt(h, k, asked, columnOIDs, config).missing;
    forall o | o in missing
      ensures o in asked && h.dev.Denies(h.mibs(k), o)
    {
      assert multiset(missing)[o] > 0;
      assert o in multiset(Scalars.Reported(h.mibs(k), h.dev, asked));
    }
    MarkedCanonical(missing);
  }

  /** Some earlier poll found the OID denied. */
  ghost predicate DeniedBefore(h: History, k: nat, o: string) {
    exists j :: 0 <= j < k && h.dev.Denies(h.mibs(j), o)
  }

  lemma DeniedBeforeNext(h: History, k: nat, o: string)
    ensures DeniedBefore(h, k + 1, o) <==> DeniedBefore(h, k, o) || h.dev.Denies(h.mibs(k), o)
  {
    hide Device.Denies;
  }

  /** Whatever fails in whichever poll: a pruned OID was asked as a scalar and denied by the device at the time. */
  lemma {:induction false} OnlyDeniedIsPruned(h: History, k: nat, scalarOIDs: seq<string>, columnOIDs: seq<string>, config: FetchConfig)
    requires Plausible(h) && Askable(scalarOIDs, columnOIDs, config, h.dev)
    requires forall j :: 0 <= j < k ==> Honest(h.sessions(j), h.mibs(j), h.dev)
    ensures forall o :: o in MissingBefore(h, k, scalarOIDs, columnOIDs, config) ==> o in scalarOIDs && DeniedBefore(h, k, o)
  {
    hide Honest, Askable, PollAt, Marked, Filter, Proper, Consistent, DeniedBefore, Device.Denies;
    if k > 0 {
      OnlyDeniedIsPruned(h, k - 1, scalarOIDs, columnOIDs, config);
      var missing := MissingBefore(h, k - 1, scalarOIDs, columnOIDs, config);
      FilterIsAskable(scalarOIDs, columnOIDs, config, h.dev, missing);
      FilterKeeps(scalarOIDs, missing);
      assert Proper(h.mibs(k - 1));
      PollMarksOnlyDenied(h, k - 1, Filter(scalarOIDs, missing), Filter(columnOIDs, missing), config);
      forall o
        ensures DeniedBefore(h, k, o) <==> DeniedBefore(h, k - 1, o) || h.dev.Denies(h.mibs(k - 1), o)
      {
        DeniedBeforeNext(h, k - 1, o);
      }
    }
  }

  /** So over v2c no implemented object is ever pruned, however its instances come and go and whatever fails. */
  lemma ImplementedIsNeverPruned(h: History, k: nat, scalarOIDs: seq<string>, columnOIDs: seq<string>, config: FetchConfig)
    requires Plausible(h) && Askable(scalarOIDs, columnOIDs, config, h.dev) && !h.dev.v1
    requires forall j :: 0 <= j < k ==> Honest(h.sessions(j), h.mibs(j), h.dev)
    ensures forall o :: o in MissingBefore(h, k, scalarOIDs, columnOIDs, config) ==> !h.dev.Implements(o)
  {
    hide Honest, Askable, MissingBefore, Device.Implements;
    OnlyDeniedIsPruned(h, k, scalarOIDs, columnOIDs, config);
  }

  ghost predicate FaultFree(h: History) {
    forall k :: Serves(h.sessions(k), h.mibs(k), h.dev)
  }

  /** A fault-free poll marks exactly the asked scalars that the device denies. */
  lemma PollMarksDenied(h: History, k: nat, asked: seq<string>, columnOIDs: seq<string>, config: FetchConfig)
    requires Proper(h.mibs(k)) && FaultFree(h) && Askable(asked, columnOIDs, config, h.dev)
    ensures forall o :: o in Marked(PollAt(h, k, asked, columnOIDs, config).missing) <==> o in asked && h.dev.Denies(h.mibs(k), o)
  {
    hide Serves, Polled, Canonical, CanonicalOID, Columns.Walkable, Scalars.Stored, Scalars.Reported, Columns.Exact, Columns.Roots, Proper, Device.Denies, Device.CanName;
    assert Serves(h.sessions(k), h.mibs(k), h.dev);
    PollIsExact(h.sessions(k), h.mibs(k), h.dev, asked, columnOIDs, config);
    ReportedAre(h.mibs(k), h.dev, asked);
    var missing, reported := PollAt(h, k, asked, columnOIDs, config).missing, Scalars.Reported(h.mibs(k), h.dev, asked);
    forall o
      ensures o in missing <==> o in reported
    {
      assert o in missing <==> o in multiset(missing);
      assert o in reported <==> o in multiset(reported);
    }
    MarkedCanonical(missing);
  }

  /**
   * On a fault-free device an OID is pruned exactly when an earlier poll found it denied: for v1, when it had no
   * instance at any one of them.
   */
  lemma {:induction false} PrunedExactlyWhenDenied(h: History, k: nat, scalarOIDs: seq<string>, columnOIDs: seq<string>, config: FetchConfig)
    requires Plausible(h) && FaultFree(h) && Askable(scalarOIDs, columnOIDs, config, h.dev)
    ensures forall o :: o in MissingBefore(h, k, scalarOIDs, columnOIDs, config) <==> o in scalarOIDs && DeniedBefore(h, k, o)
  {
    hide Askable, FaultFree, PollAt, Marked, Filter, Proper, Consistent, DeniedBefore, Device.Denies;
    if k > 0 {
      PrunedExactlyWhenDenied(h, k - 1, scalarOIDs, columnOIDs, config);
      var missing := MissingBefore(h, k - 1, scalarOIDs, columnOIDs, config);
      FilterKeeps(scalarOIDs, missing);
      FilterIsAskable(scalarOIDs, columnOIDs, config, h.dev, missing);
      assert Proper(h.mibs(k - 1));
      PollMarksDenied(h, k - 1, Filter(scalarOIDs, missing), Filter(columnOIDs, missing), config);
      forall o
        ensures DeniedBefore(h, k, o) <==> DeniedBefore(h, k - 1, o) || h.dev.Denies(h.mibs(k - 1), o)
      {
        DeniedBeforeNext(h, k - 1, o);
      }
    } else {
      assert forall o :: !DeniedBefore(h, 0, o) by {
        NothingDeniedYet(h);
      }
    }
  }

  lemma NothingDeniedYet(h: History)
    ensures forall o :: !DeniedBefore(h, 0, o)
  {
  }

  /** Over v2c that settles after one poll: exactly the scalars of unimplemented objects are pruned, for good. */
  lemma PruningSettlesAtOnce(h: History, k: nat, scalarOIDs: seq<string>, columnOIDs: seq<string>, config: FetchConfig)
    requires Plausible(h) && FaultFree(h) && Askable(scalarOIDs, columnOIDs, config, h.dev) && !h.dev.v1
    ensures MissingBefore(h, k, scalarOIDs, columnOIDs, config) == if k == 0 then {} else set o | o in scalarOIDs && !h.dev.Implements(o)
  {
    hide Askable, FaultFree, MissingBefore, Device.Implements, Proper;
    PrunedExactlyWhenDenied(h, k, scalarOIDs, columnOIDs, config);
    if k > 0 {
      forall o
        ensures DeniedBefore(h, k, o) <==> !h.dev.Implements(o)
      {
        assert Consistent(h.mibs(0), h.dev);
        assert h.dev.Denies(h.mibs(0), o) <==> !h.dev.Implements(o);
      }
    } else {
      NothingDeniedYet(h);
    }
  }

  /**
   * What pruning changes. With no OID asked both as a scalar and as a column, a poll of the pruned lists reads the same
   * columns as one of the full lists, and the same scalars exactly when no pruned OID has a readable value by now. An
   * OID is still asked for exactly while no poll has found it denied.
   */
  lemma PrunedPollStoresSame(h: History, k: nat, scalarOIDs: seq<string>, columnOIDs: seq<string>, config: FetchConfig)
    requires Plausible(h) && FaultFree(h) && Askable(scalarOIDs, columnOIDs, config, h.dev)
    requires forall o :: o in scalarOIDs ==> o !in columnOIDs
    ensures var missing := MissingBefore(h, k, scalarOIDs, columnOIDs, config);
      var scalars, columns := Filter(scalarOIDs, missing), Filter(columnOIDs, missing);
      var pruned, full := PollAt(h, k, scalars, columns, config), PollAt(h, k, scalarOIDs, columnOIDs, config);
      && (pruned.scalars == full.scalars <==> forall o :: o in missing ==> o !in Scalars.Stored(h.mibs(k), scalarOIDs))
      && pruned.columns == full.columns
      && pruned.errors == full.errors == []
      && (forall c :: c in pruned.truncated <==> c in full.truncated)
      && (forall o :: o in scalarOIDs ==> (o in scalars <==> !DeniedBefore(h, k, o)))
      && columns == columnOIDs
  {
    hide Serves, Polled, Canonical, CanonicalOID, Columns.Walkable, Scalars.Stored, Scalars.Reported, Columns.Roots, Proper, DeniedBefore, Consistent, Device.CanName;
    PrunedExactlyWhenDenied(h, k, scalarOIDs, columnOIDs, config);
    var missing := MissingBefore(h, k, scalarOIDs, columnOIDs, config);
    FilterKeeps(scalarOIDs, missing);
    FilterNothing(columnOIDs, missing);
    FilterIsAskable(scalarOIDs, columnOIDs, config, h.dev, missing);
    assert Serves(h.sessions(k), h.mibs(k), h.dev) && Proper(h.mibs(k));
    PollIsExact(h.sessions(k), h.mibs(k), h.dev, Filter(scalarOIDs, missing), columnOIDs, config);
    PollIsExact(h.sessions(k), h.mibs(k), h.dev, scalarOIDs, columnOIDs, config);
    StoredOfFilter(h.mibs(k), scalarOIDs, missing);
  }

  /** Leaving out OIDs leaves every stored value exactly when none of them had one. */
  lemma StoredOfFilter(mib: Mib, oids: seq<string>, missing: set<string>)
    ensures Scalars.Stored(mib, Filter(oids, missing)) == Scalars.Stored(mib, oids) <==> forall o :: o in missing ==> o !in Scalars.Stored(mib, oids)
  {
    hide Reading, Filter;
    FilterKeeps(oids, missing);
    var kept, all := Scalars.Stored(mib, Filter(oids, missing)), Scalars.Stored(mib, oids);
    assert forall o :: o in kept <==> o in all && o !in missing;
    assert forall o :: o in kept ==> kept[o] == all[o];
  }

  /** Over v2c pruning is transparent: no pruned OID ever gets a value. */
  lemma PruningIsTransparent(h: History, k: nat, scalarOIDs: seq<string>, columnOIDs: seq<string>, config: FetchConfig)
    requires Plausible(h) && FaultFree(h) && Askable(scalarOIDs, columnOIDs, config, h.dev) && !h.dev.v1
    requires forall o :: o in scalarOIDs ==> o !in columnOIDs
    ensures var missing := MissingBefore(h, k, scalarOIDs, columnOIDs, config);
      var pruned := PollAt(h, k, Filter(scalarOIDs, missing), Filter(columnOIDs, missing), config);
      var full := PollAt(h, k, scalarOIDs, columnOIDs, config);
      && pruned.scalars == full.scalars && pruned.columns == full.columns
      && (forall o :: o in scalarOIDs ==> (o in Filter(scalarOIDs, missing) <==> k == 0 || h.dev.Implements(o)))
  {
    hide FaultFree, Askable, PollAt, MissingBefore, Filter, Proper, Device.Implements, Reading;
    PrunedPollStoresSame(h, k, scalarOIDs, columnOIDs, config);
    PruningSettlesAtOnce(h, k, scalarOIDs, columnOIDs, config);
    FilterKeeps(scalarOIDs, MissingBefore(h, k, scalarOIDs, columnOIDs, config));
    assert Consistent(h.mibs(k), h.dev);
  }

  /** Without that separation the columns survive exactly when no column is also a scalar that has been denied. */
  lemma ColumnsSurvivePruning(h: History, k: nat, scalarOIDs: seq<string>, columnOIDs: seq<string>, config: FetchConfig)
    requires Plausible(h) && FaultFree(h) && Askable(scalarOIDs, columnOIDs, config, h.dev)
    ensures var missing := MissingBefore(h, k, scalarOIDs, columnOIDs, config);
      Filter(columnOIDs, missing) == columnOIDs <==> forall c :: c in columnOIDs && c in scalarOIDs ==> !DeniedBefore(h, k, c)
  {
    hide Serves, Askable, Plausible, DeniedBefore;
    PrunedExactlyWhenDenied(h, k, scalarOIDs, columnOIDs, config);
    var missing := MissingBefore(h, k, scalarOIDs, columnOIDs, config);
    FilterKeeps(columnOIDs, missing);
    if forall c :: c in columnOIDs && c in scalarOIDs ==> !DeniedBefore(h, k, c) {
      FilterNothing(columnOIDs, missing);
    }
  }
}
