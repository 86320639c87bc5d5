/** fetchScalars of internal/snmp/fetch.go: adaptive GET batching. */
module Scalars {
  import opened Collections
  import opened Oid
  import opened Pdu
  import opened Wire
  import opened Arithmetic
  import opened Sizing
  import opened Agent

  /** The loop's variables. `pdus` is the report's packet count, which also numbers the next request. */
  datatype State = State(remaining: seq<string>, sizer: Sizer, scalars: map<string, Value>, missing: seq<string>,
                         pdus: nat, errors: seq<FetchError>, stopped: bool) {
    predicate Running() {
      remaining != [] && !stopped
    }

    function Size(): (n: nat)
      ensures n <= |remaining| && n <= sizer.current
      ensures remaining != [] && sizer.current >= 1 ==> n >= 1
    {
      Min(sizer.current, |remaining|)
    }

    function Chunk(): seq<string> {
      remaining[..Size()]
    }

    function Request(): Request {
      Get(Prefixed(Chunk()))
    }

    function Drop(): State {
      this.(remaining := remaining[Size()..])
    }

    function Fail(e: FetchError): State {
      this.(errors := errors + [e])
    }
  }

  function Start(oids: seq<string>, batchSize: int): State {
    State(oids, NewSizer(batchSize), map[], [], 0, [], false)
  }

  datatype Tally = Tally(scalars: map<string, Value>, missing: seq<string>)

  function RecordOne(acc: Tally, v: Variable): Tally {
    var oid := CanonicalOID(v.name);
    match Decode(v)
    case Some(value) => acc.(scalars := acc.scalars[oid := value])
    case None => if v.tag == NoSuchObject then acc.(missing := acc.missing + [oid]) else acc
  }

  function Record(acc: Tally, vars: seq<Variable>): Tally {
    if vars == [] then acc else RecordOne(Record(acc, vars[..|vars| - 1]), vars[|vars| - 1])
  }

  /** One turn of the loop on a response. */
  function React(s: State, r: Response): State
    requires s.Running() && s.sizer.Valid()
  {
    var t := s.(pdus := s.pdus + 1);
    if r.TransportError? then
      if s.sizer.CanShrink() then t.(sizer := s.sizer.Shrunk()) else t.Fail(Transport).Drop()
    else match r.status
      case TooBig =>
        if s.sizer.CanShrink() then t.(sizer := s.sizer.Shrunk()) else t.Fail(TooBigForOne).Drop()
      case NoSuchName =>
        if 1 <= r.errorIndex <= s.Size() then
          t.(missing := t.missing + [s.Chunk()[r.errorIndex - 1]],
             remaining := s.remaining[..r.errorIndex - 1] + s.remaining[r.errorIndex..])
        else t.Fail(UnusableIndex(r.errorIndex)).Drop()
      case OtherStatus(_) => t.Fail(BadStatus(r.status)).Drop()
      case NoError =>
        var read := Record(Tally(s.scalars, s.missing), r.variables);
        t.Drop().(scalars := read.scalars, missing := read.missing, sizer := s.sizer.AfterSuccess())
  }

  function Step(session: Session, s: State): State
    requires s.Running() && s.sizer.Valid()
  {
    if session.cancelled(s.pdus) then s.Fail(Cancelled).(stopped := true)
    else React(s, session.answer(s.pdus, s.Request()))
  }

  lemma StepKeepsSizer(session: Session, s: State)
    requires s.Running() && s.sizer.Valid()
    ensures Step(session, s).sizer.Valid() && Step(session, s).sizer.max == s.sizer.max
  {
    if s.sizer.CanShrink() {
      ShrinkPays(s.sizer);
    }
    SuccessCosts(s.sizer);
  }

  /** The state after `n` turns; a finished loop stays put. */
  ghost function Run(session: Session, s: State, n: nat): (t: State)
    requires s.sizer.Valid()
    ensures t.sizer.Valid() && t.sizer.max == s.sizer.max
  {
    if n == 0 then s
    else
      var t := Run(session, s, n - 1);
      if !t.Running() then t
      else
        StepKeepsSizer(session, t);
        Step(session, t)
  }

  // ----- the number of packets -----

  /** Ten units per packet and per halving left in the batch size, eleven per OID still to ask for. */
  ghost function Spent(s: State): int
    requires s.sizer.Valid()
  {
    10 * s.pdus + Potential(s.sizer) + 11 * |s.remaining|
  }

  lemma StepSpendsNothing(session: Session, s: State)
    requires s.Running() && s.sizer.Valid()
    ensures var t := Step(session, s);
      t.sizer.Valid() && Spent(t) <= Spent(s) && (t.pdus == s.pdus + 1 || (t.stopped && t.pdus == s.pdus))
  {
    hide Record, State.Chunk, Log2;
    StepKeepsSizer(session, s);
    if s.sizer.CanShrink() {
      ShrinkPays(s.sizer);
    }
    SuccessCosts(s.sizer);
  }

  ghost function PduBound(count: nat, max: nat): nat
    requires max >= 1
  {
    count + count / 10 + Log2(max)
  }

  lemma {:induction false} RunSpendsNothing(session: Session, s: State, n: nat)
    requires s.sizer.Valid()
    ensures Spent(Run(session, s, n)) <= Spent(s)
    ensures Run(session, s, n).Running() ==> Run(session, s, n).pdus == s.pdus + n
  {
    hide Step, Spent;
    if n > 0 {
      RunSpendsNothing(session, s, n - 1);
      var t := Run(session, s, n - 1);
      if t.Running() {
        StepSpendsNothing(session, t);
      }
    }
  }

  /** Whatever the device answers, the packets sent never exceed n + n/10 + log2(batch size). */
  lemma ScalarPduBound(session: Session, oids: seq<string>, batchSize: int, n: nat)
    ensures Run(session, Start(oids, batchSize), n).pdus <= PduBound(|oids|, NewSizer(batchSize).max)
  {
    var s := Start(oids, batchSize);
    RunSpendsNothing(session, s, n);
    PotentialIsBounded(s.sizer);
  }

  /** And the loop is over after one turn more than that. */
  lemma ScalarLoopEnds(session: Session, oids: seq<string>, batchSize: int, n: nat)
    requires n > PduBound(|oids|, NewSizer(batchSize).max)
    ensures !Run(session, Start(oids, batchSize), n).Running()
  {
    ScalarPduBound(session, oids, batchSize, n);
    RunSpendsNothing(session, Start(oids, batchSize), n);
  }

  // ----- what a correct device yields -----

  /**
   * The requested OIDs to be reported, in request order: those the device does not implement, and for v1 all those it
   * has no instance of.
   */
  function Reported(mib: Mib, dev: Device, oids: seq<string>): seq<string> {
    if oids == [] then []
    else (if dev.Denies(mib, oids[0]) then [oids[0]] else []) + Reported(mib, dev, oids[1..])
  }

  /** The readable values of the requested OIDs. */
  function Stored(mib: Mib, oids: seq<string>): map<string, Value> {
    map o | o in oids && o in mib && Reading(mib, o).Some? :: Reading(mib, o).value
  }

  lemma {:induction false} ReportedConcat(mib: Mib, dev: Device, a: seq<string>, b: seq<string>)
    ensures Reported(mib, dev, a + b) == Reported(mib, dev, a) + Reported(mib, dev, b)
  {
    hide Device.Denies;
    if a == [] {
      assert a + b == b;
    } else {
      assert (a + b)[1..] == a[1..] + b;
      ReportedConcat(mib, dev, a[1..], b);
    }
  }

  lemma StoredConcat(mib: Mib, a: seq<string>, b: seq<string>)
    ensures Stored(mib, a + b) == Stored(mib, a) + Stored(mib, b)
  {
  }

  lemma {:induction false} NothingReported(mib: Mib, dev: Device, oids: seq<string>)
    requires forall o :: o in oids ==> o in mib
    ensures Reported(mib, dev, oids) == []
  {
    if oids != [] {
      NothingReported(mib, dev, oids[1..]);
    }
  }

  lemma RecordOneIsExact(mib: Mib, dev: Device, acc: Tally, oid: string)
    requires Proper(mib) && Canonical(oid) && (dev.v1 ==> oid in mib)
    ensures RecordOne(acc, GetVariable(mib, dev, oid)) == Tally(acc.scalars + Stored(mib, [oid]), acc.missing + Reported(mib, dev, [oid]))
  {
    hide Canonical, CanonicalOID, DecodeNumeric, Device.Implements;
    CanonicalOIDFixes(oid);
    assert Reported(mib, dev, [oid]) == if dev.Denies(mib, oid) then [oid] else [];
  }

  lemma NothingRequested(mib: Mib, dev: Device)
    ensures Stored(mib, []) == map[] && Reported(mib, dev, []) == []
  {
  }

  /** Recording a full answer adds exactly the readable values and the OIDs to be reported. */
  lemma {:induction false} RecordIsExact(mib: Mib, dev: Device, acc: Tally, oids: seq<string>, vars: seq<Variable>)
    requires Proper(mib) && CanonicalAll(oids) && |vars| == |oids|
    requires forall i :: 0 <= i < |oids| ==> vars[i] == GetVariable(mib, dev, oids[i])
    requires dev.v1 ==> forall o :: o in oids ==> o in mib
    ensures Record(acc, vars) == Tally(acc.scalars + Stored(mib, oids), acc.missing + Reported(mib, dev, oids))
  {
    hide Canonical, CanonicalOID, RecordOne, GetVariable, Stored, Reported;
    if oids == [] {
      NothingRequested(mib, dev);
      assert acc.scalars + map[] == acc.scalars && acc.missing + [] == acc.missing;
    } else {
      var n := |oids| - 1;
      var init, last := oids[..n], oids[n];
      assert oids == init + [last] && last in oids;
      RecordIsExact(mib, dev, acc, init, vars[..n]);
      RecordOneIsExact(mib, dev, Record(acc, vars[..n]), last);
      ReportedConcat(mib, dev, init, [last]);
      StoredConcat(mib, init, [last]);
      SeqAssociative(acc.missing, Reported(mib, dev, init), Reported(mib, dev, [last]));
      MapAssociative(acc.scalars, Stored(mib, init), Stored(mib, [last]));
    }
  }

  /**
   * The device's refusal costs the request: it was for no more than one OID, or the refusal is not one that a smaller
   * request could avoid.
   */
  predicate GaveUp(s: State, r: Response) {
    Refuses(r) && (r.TransportError? || r.status == TooBig ==> s.sizer.current <= 1)
  }

  /** A request given up: what it asked for, and why. */
  datatype Loss = Loss(oids: seq<string>, reason: FetchError)

  /** The requests that a turn gives up. */
  ghost function GivenUpBy(session: Session, s: State): seq<Loss> {
    var r := session.answer(s.pdus, s.Request());
    if s.Running() && !session.cancelled(s.pdus) && GaveUp(s, r) then [Loss(s.Chunk(), Reason(r))] else []
  }

  function Lost(givenUp: seq<Loss>): seq<string> {
    if givenUp == [] then [] else Lost(givenUp[..|givenUp| - 1]) + givenUp[|givenUp| - 1].oids
  }

  function Reasons(givenUp: seq<Loss>): (r: seq<FetchError>)
    ensures |r| == |givenUp| && forall i :: 0 <= i < |r| ==> r[i] == givenUp[i].reason
  {
    seq(|givenUp|, i requires 0 <= i < |givenUp| => givenUp[i].reason)
  }

  lemma LostAppend(givenUp: seq<Loss>, loss: Loss)
    ensures Lost(givenUp + [loss]) == Lost(givenUp) + loss.oids
  {
    assert (givenUp + [loss])[..|givenUp|] == givenUp;
  }

  /** The requests that were given up in the first `n` turns. */
  ghost function GivenUp(session: Session, s: State, n: nat): seq<Loss>
    requires s.sizer.Valid()
  {
    if n == 0 then [] else GivenUp(session, s, n - 1) + GivenUpBy(session, Run(session, s, n - 1))
  }

  /** Every requested value is stored, still to be asked for, or was in one of these. */
  ghost predicate Complete(stored: map<string, Value>, scalars: map<string, Value>, remaining: seq<string>, lost: seq<string>) {
    && (forall o :: o in scalars ==> o in stored && scalars[o] == stored[o])
    && (forall o :: o in stored ==> o in scalars || o in remaining || o in lost)
  }

  /**
   * What the loop maintains against a device whose answers are correct or refused: nothing wrong is ever stored or
   * reported, and nothing is lost but the requests given up, with an error for each.
   */
  ghost predicate Sound(mib: Mib, dev: Device, oids: seq<string>, s: State, givenUp: seq<Loss>) {
    && CanonicalAll(s.remaining)
    && s.sizer.Valid()
    && (forall o :: o in s.remaining ==> o in oids)
    && |s.remaining| <= |oids|
    && s.errors == Reasons(givenUp) + (if s.stopped then [Cancelled] else [])
    && Complete(Stored(mib, oids), s.scalars, s.remaining, Lost(givenUp))
    && Accounted(mib, dev, oids, s.missing, s.remaining, Lost(givenUp))
    && (givenUp == [] && dev.InOrder() ==> s.missing + Reported(mib, dev, s.remaining) == Reported(mib, dev, oids))
  }

  /** Every OID to be reported is reported, still to be asked for or lost, as often as requested. */
  ghost predicate Accounted(mib: Mib, dev: Device, oids: seq<string>, missing: seq<string>, remaining: seq<string>, lost: seq<string>) {
    multiset(missing) + multiset(Reported(mib, dev, remaining)) + multiset(Reported(mib, dev, lost)) == multiset(Reported(mib, dev, oids))
  }

  lemma StartIsSound(mib: Mib, dev: Device, oids: seq<string>, batchSize: int)
    requires CanonicalAll(oids)
    ensures Sound(mib, dev, oids, Start(oids, batchSize), [])
  {
    NothingRequested(mib, dev);
    hide Reading, Reported, CanonicalAll;
    assert [] + Reported(mib, dev, oids) == Reported(mib, dev, oids);
    var s := Start(oids, batchSize);
    assert multiset(s.missing) == multiset{} == multiset(Reported(mib, dev, Lost([])));
    assert multiset{} + multiset(Reported(mib, dev, oids)) + multiset{} == multiset(Reported(mib, dev, oids));
    assert Accounted(mib, dev, oids, s.missing, oids, Lost([]));
  }

  /** A chunk given up after an error takes what it asked for with it, and nothing else. */
  lemma DropIsSound(mib: Mib, dev: Device, oids: seq<string>, s: State, e: FetchError, givenUp: seq<Loss>)
    requires Sound(mib, dev, oids, s, givenUp) && s.Running()
    ensures Sound(mib, dev, oids, s.Fail(e).Drop(), givenUp + [Loss(s.Chunk(), e)])
  {
    hide Canonical, Stored, Reported, Accounted, Complete, Lost, Device.InOrder;
    var n := s.Size();
    var chunk, rest := s.Chunk(), s.remaining[n..];
    SeqSplit(s.remaining, n);
    LostAppend(givenUp, Loss(chunk, e));
    LossAccounts(mib, dev, oids, s.missing, chunk, rest, Lost(givenUp));
    LossCompletes(Stored(mib, oids), s.scalars, chunk, rest, Lost(givenUp));
    assert Reasons(givenUp + [Loss(chunk, e)]) == Reasons(givenUp) + [e];
  }

  lemma LossAccounts(mib: Mib, dev: Device, oids: seq<string>, missing: seq<string>, chunk: seq<string>, rest: seq<string>, lost: seq<string>)
    requires Accounted(mib, dev, oids, missing, chunk + rest, lost)
    ensures Accounted(mib, dev, oids, missing, rest, lost + chunk)
  {
    hide Reported;
    ReportedConcat(mib, dev, chunk, rest);
    ReportedConcat(mib, dev, lost, chunk);
    MultisetOfConcat(Reported(mib, dev, chunk), Reported(mib, dev, rest));
    MultisetOfConcat(Reported(mib, dev, lost), Reported(mib, dev, chunk));
  }

  lemma LossCompletes(stored: map<string, Value>, scalars: map<string, Value>, chunk: seq<string>, rest: seq<string>, lost: seq<string>)
    requires Complete(stored, scalars, chunk + rest, lost)
    ensures Complete(stored, scalars, rest, lost + chunk)
  {
  }

  lemma SuccessIsSound(mib: Mib, dev: Device, oids: seq<string>, s: State, r: Response, givenUp: seq<Loss>)
    requires Proper(mib) && Sound(mib, dev, oids, s, givenUp) && s.Running()
    requires r.Packet? && r.status == NoError && |r.variables| == s.Size()
    requires forall i :: 0 <= i < s.Size() ==> r.variables[i] == GetVariable(mib, dev, s.Chunk()[i])
    requires dev.v1 ==> forall o :: o in s.Chunk() ==> o in mib
    ensures Sound(mib, dev, oids, React(s, r), givenUp)
  {
    hide Canonical, Record, GetVariable, Reported, Stored, Device.InOrder, Complete, Accounted, Lost;
    var n := s.Size();
    var chunk, rest := s.Chunk(), s.remaining[n..];
    SeqSplit(s.remaining, n);
    assert CanonicalAll(chunk) && CanonicalAll(rest);
    ReportedConcat(mib, dev, chunk, rest);
    RecordIsExact(mib, dev, Tally(s.scalars, s.missing), chunk, r.variables);
    SuccessCosts(s.sizer);
    SeqAssociative(s.missing, Reported(mib, dev, chunk), Reported(mib, dev, rest));
    ReadingAccounts(mib, dev, oids, s.missing, chunk, rest, Lost(givenUp));
    ReadingCompletes(mib, oids, s.scalars, chunk, rest, Lost(givenUp));
  }

  lemma ReadingAccounts(mib: Mib, dev: Device, oids: seq<string>, missing: seq<string>, chunk: seq<string>, rest: seq<string>, lost: seq<string>)
    requires Accounted(mib, dev, oids, missing, chunk + rest, lost)
    ensures Accounted(mib, dev, oids, missing + Reported(mib, dev, chunk), rest, lost)
  {
    hide Reported;
    ReportedConcat(mib, dev, chunk, rest);
    MultisetOfConcat(missing, Reported(mib, dev, chunk));
    MultisetOfConcat(Reported(mib, dev, chunk), Reported(mib, dev, rest));
    MultisetAssociative(multiset(missing), multiset(Reported(mib, dev, chunk)), multiset(Reported(mib, dev, rest)));
  }

  lemma ReadingCompletes(mib: Mib, oids: seq<string>, scalars: map<string, Value>, chunk: seq<string>, rest: seq<string>, lost: seq<string>)
    requires (forall o :: o in chunk ==> o in oids) && Complete(Stored(mib, oids), scalars, chunk + rest, lost)
    ensures Complete(Stored(mib, oids), scalars + Stored(mib, chunk), rest, lost)
  {
    hide Reading;
  }

  /** Dropping an absent OID of the chunk loses none, and keeps their order if it was the first. */
  lemma NoSuchNameIsSound(mib: Mib, dev: Device, oids: seq<string>, s: State, r: Response, i: nat, givenUp: seq<Loss>)
    requires Sound(mib, dev, oids, s, givenUp) && s.Running() && dev.v1
    requires i < s.Size() && s.Chunk()[i] !in mib && (dev.namesFirst ==> forall o :: o in s.Chunk()[..i] ==> o in mib)
    requires r.Packet? && r.status == NoSuchName && r.errorIndex == i + 1
    ensures Sound(mib, dev, oids, React(s, r), givenUp)
  {
    hide Canonical, Stored, Reported, Record, Lost;
    var before, bad, after := s.remaining[..i], s.remaining[i], s.remaining[i + 1..];
    assert s.Chunk()[..i] == before && s.Chunk()[i] == bad;
    assert s.remaining == before + ([bad] + after);
    DroppingDenied(mib, dev, before, bad, after);
    MultisetOfConcat(s.missing, [bad]);
    MultisetAssociative(multiset(s.missing), multiset([bad]), multiset(Reported(mib, dev, before + after)));
    SeqAssociative(s.missing, [bad], Reported(mib, dev, before + after));
    NotStored(mib, oids, bad);
  }

  lemma NotStored(mib: Mib, oids: seq<string>, bad: string)
    requires bad !in mib
    ensures bad !in Stored(mib, oids)
  {
  }

  lemma DroppingDenied(mib: Mib, dev: Device, before: seq<string>, bad: string, after: seq<string>)
    requires bad !in mib && dev.v1
    ensures multiset(Reported(mib, dev, before + ([bad] + after))) == multiset([bad]) + multiset(Reported(mib, dev, before + after))
    ensures (forall o :: o in before ==> o in mib) ==>
      Reported(mib, dev, before + ([bad] + after)) == [bad] + Reported(mib, dev, before + after)
    ensures Stored(mib, before + ([bad] + after)) == Stored(mib, before + after)
  {
    DroppingUnstored(mib, before, bad, after);
    hide Stored;
    var b, a := Reported(mib, dev, before), Reported(mib, dev, after);
    ReportedHead(mib, dev, bad, after);
    ReportedConcat(mib, dev, before, [bad] + after);
    ReportedConcat(mib, dev, before, after);
    hide Reported;
    if forall o :: o in before ==> o in mib {
      NothingReported(mib, dev, before);
      assert b + a == a && b + ([bad] + a) == [bad] + a;
    }
    MultisetOfConcat(b, [bad] + a);
    MultisetOfConcat([bad], a);
    MultisetOfConcat(b, a);
    MultisetAround(multiset(b), multiset([bad]), multiset(a));
  }

  lemma ReportedHead(mib: Mib, dev: Device, bad: string, after: seq<string>)
    requires bad !in mib && dev.v1
    ensures Reported(mib, dev, [bad] + after) == [bad] + Reported(mib, dev, after)
  {
    assert ([bad] + after)[1..] == after;
  }

  lemma DroppingUnstored(mib: Mib, before: seq<string>, bad: string, after: seq<string>)
    requires bad !in mib
    ensures Stored(mib, before + ([bad] + after)) == Stored(mib, before + after)
  {
    hide Reading;
    StoredConcat(mib, before, [bad] + after);
    StoredConcat(mib, [bad], after);
    StoredConcat(mib, before, after);
    assert Stored(mib, [bad]) == map[];
    hide Stored;
    assert map[] + Stored(mib, after) == Stored(mib, after);
  }

  lemma RefusalIsSound(mib: Mib, dev: Device, oids: seq<string>, s: State, r: Response, givenUp: seq<Loss>)
    requires Sound(mib, dev, oids, s, givenUp) && s.Running() && Refuses(r)
    ensures Sound(mib, dev, oids, React(s, r), givenUp + if GaveUp(s, r) then [Loss(s.Chunk(), Reason(r))] else [])
  {
    hide Canonical, Stored, Reported, Record, Lost, Complete, Accounted;
    if !GaveUp(s, r) {
      ShrinkPays(s.sizer);
      assert givenUp + [] == givenUp;
    } else {
      DropIsSound(mib, dev, oids, s.(pdus := s.pdus + 1), Reason(r), givenUp);
    }
  }

  lemma AnswerIsSound(mib: Mib, dev: Device, oids: seq<string>, s: State, r: Response, givenUp: seq<Loss>)
    requires Proper(mib) && s.sizer.Valid() && s.Running() && (dev.v1 ==> s.Size() <= 255)
    requires Sound(mib, dev, oids, s, givenUp) && GetAnswer(mib, dev, s.Chunk(), r)
    ensures Sound(mib, dev, oids, React(s, r), givenUp)
  {
    hide Sound, GetVariable, Record;
    if r.status == NoError {
      SuccessIsSound(mib, dev, oids, s, r, givenUp);
    } else {
      var chunk := s.Chunk();
      var i :| 0 <= i < |chunk| && chunk[i] !in mib && r.errorIndex == (i + 1) % 256
               && (dev.namesFirst ==> forall o :: o in chunk[..i] ==> o in mib);
      NoSuchNameIsSound(mib, dev, oids, s, r, i, givenUp);
    }
  }

  lemma SoundSizer(mib: Mib, dev: Device, oids: seq<string>, s: State, givenUp: seq<Loss>)
    requires Sound(mib, dev, oids, s, givenUp)
    ensures s.sizer.Valid() && CanonicalAll(s.remaining) && |s.remaining| <= |oids|
  {
  }

  lemma StepIsSound(session: Session, mib: Mib, dev: Device, oids: seq<string>, s: State, givenUp: seq<Loss>)
    requires Proper(mib) && Honest(session, mib, dev) && (dev.v1 ==> s.Size() <= 255)
    requires s.sizer.Valid() && Sound(mib, dev, oids, s, givenUp) && s.Running()
    ensures Sound(mib, dev, oids, Step(session, s), givenUp + GivenUpBy(session, s))
  {
    hide React, GetAnswer, Canonical, CanonicalOID, Stored, Reported;
    assert givenUp + [] == givenUp;
    if !session.cancelled(s.pdus) {
      hide Sound;
      var r := session.answer(s.pdus, s.Request());
      if Refuses(r) {
        RefusalIsSound(mib, dev, oids, s, r, givenUp);
      } else {
        SoundSizer(mib, dev, oids, s, givenUp);
        RequestNamesChunk(s);
        AnswerIsSound(mib, dev, oids, s, r, givenUp);
      }
    }
  }

  /** Stripping the leading dots of a request gives back the OIDs it asks for. */
  lemma RequestNamesChunk(s: State)
    requires s.Running() && CanonicalAll(s.remaining)
    ensures var req := s.Request();
      seq(|req.names|, i requires 0 <= i < |req.names| => CanonicalOID(req.names[i])) == s.Chunk()
  {
    hide Canonical, CanonicalOID;
    PrefixedNames(s.Chunk());
  }

  // ----- runs -----

  lemma {:induction false} RunIsSound(session: Session, mib: Mib, dev: Device, oids: seq<string>, batchSize: int, n: nat)
    requires Proper(mib) && Honest(session, mib, dev) && dev.CanName(batchSize, |oids|)
    requires CanonicalAll(oids)
    ensures var start := Start(oids, batchSize); Sound(mib, dev, oids, Run(session, start, n), GivenUp(session, start, n))
  {
    hide Sound, Canonical, Step;
    var start := Start(oids, batchSize);
    if n == 0 {
      StartIsSound(mib, dev, oids, batchSize);
    } else {
      RunIsSound(session, mib, dev, oids, batchSize, n - 1);
      var s, givenUp := Run(session, start, n - 1), GivenUp(session, start, n - 1);
      SoundSizer(mib, dev, oids, s, givenUp);
      if s.Running() {
        StepIsSound(session, mib, dev, oids, s, givenUp);
      } else {
        assert givenUp + [] == givenUp;
      }
    }
  }

  /** Every readable value stored, every OID to be reported named once per request and in order, nothing given up. */
  ghost predicate Exact(mib: Mib, dev: Device, oids: seq<string>, s: State) {
    && s.errors == [] && s.scalars == Stored(mib, oids)
    && multiset(s.missing) == multiset(Reported(mib, dev, oids))
    && (dev.InOrder() ==> s.missing == Reported(mib, dev, oids))
  }

  /**
   * Against a device that answers correctly or refuses, in every reachable state the stored values are true values
   * of requested OIDs and the reported OIDs are unimplemented ones (for v1: absent ones), each once per request; and a
   * loop that ends without an error has stored every value and reported every such OID.
   */
  lemma ScalarsAreSound(session: Session, mib: Mib, dev: Device, oids: seq<string>, batchSize: int, n: nat)
    requires Proper(mib) && Honest(session, mib, dev) && dev.CanName(batchSize, |oids|)
    requires CanonicalAll(oids)
    ensures var s := Run(session, Start(oids, batchSize), n);
      && (forall o :: o in s.scalars ==> o in Stored(mib, oids) && s.scalars[o] == Stored(mib, oids)[o])
      && multiset(s.missing) <= multiset(Reported(mib, dev, oids))
      && (!s.Running() && s.errors == [] ==> Exact(mib, dev, oids, s))
  {
    hide Canonical, Stored, Reported, Run, Honest, GivenUp;
    RunIsSound(session, mib, dev, oids, batchSize, n);
    var s, givenUp := Run(session, Start(oids, batchSize), n), GivenUp(session, Start(oids, batchSize), n);
    if !s.Running() && s.errors == [] {
      assert givenUp == [] && Lost(givenUp) == [];
      NothingRequested(mib, dev);
      assert s.missing + [] == s.missing && multiset(s.missing) + multiset{} + multiset{} == multiset(s.missing);
      assert s.scalars.Keys == Stored(mib, oids).Keys;
    }
  }

  /**
   * Around any failures, and cancelled or not: when the loop is over, every requested OID outside the requests that were
   * given up is stored if it is readable and reported if it is denied, and there is an error for each such request that
   * says why.
   */
  lemma OnlyTheGivenUpIsLost(session: Session, mib: Mib, dev: Device, oids: seq<string>, batchSize: int, n: nat)
    requires Proper(mib) && Honest(session, mib, dev) && dev.CanName(batchSize, |oids|)
    requires CanonicalAll(oids)
    ensures var s := Run(session, Start(oids, batchSize), n);
      var givenUp := GivenUp(session, Start(oids, batchSize), n);
      var lost := Lost(givenUp) + s.remaining;
      && s.errors == Reasons(givenUp) + (if s.stopped then [Cancelled] else [])
      && (s.remaining == [] || s.stopped || s.Running())
      && (forall o :: o in Stored(mib, oids) && o !in lost ==> o in s.scalars && s.scalars[o] == Stored(mib, oids)[o])
      && multiset(s.missing) + multiset(Reported(mib, dev, lost)) == multiset(Reported(mib, dev, oids))
  {
    hide Canonical, Stored, Reported, Run, Honest, GivenUp;
    RunIsSound(session, mib, dev, oids, batchSize, n);
    var s, givenUp := Run(session, Start(oids, batchSize), n), GivenUp(session, Start(oids, batchSize), n);
    ReportedConcat(mib, dev, Lost(givenUp), s.remaining);
    MultisetOfConcat(Reported(mib, dev, Lost(givenUp)), Reported(mib, dev, s.remaining));
  }

  lemma {:induction false} RunGivesNothingUp(session: Session, mib: Mib, dev: Device, oids: seq<string>, batchSize: int, n: nat)
    requires Proper(mib) && Serves(session, mib, dev) && dev.CanName(batchSize, |oids|)
    requires CanonicalAll(oids)
    ensures Run(session, Start(oids, batchSize), n).errors == []
  {
    hide Sound, Canonical, Step, Honest, Serves, Proper, GivenUp;
    if n > 0 {
      RunGivesNothingUp(session, mib, dev, oids, batchSize, n - 1);
      var s := Run(session, Start(oids, batchSize), n - 1);
      ServesIsHonest(session, mib, dev);
      RunIsSound(session, mib, dev, oids, batchSize, n - 1);
      SoundSizer(mib, dev, oids, s, GivenUp(session, Start(oids, batchSize), n - 1));
      if s.Running() {
        StepGivesNothingUp(session, mib, dev, s);
      }
    }
  }

  lemma StepGivesNothingUp(session: Session, mib: Mib, dev: Device, s: State)
    requires Serves(session, mib, dev) && s.Running() && s.sizer.Valid() && CanonicalAll(s.remaining)
    requires dev.v1 ==> s.Size() <= 255
    ensures Step(session, s).errors == s.errors
  {
    hide Canonical, CanonicalOID, GetAnswer, React;
    RequestNamesChunk(s);
    ServedWithoutError(mib, dev, s, session.answer(s.pdus, s.Request()));
  }

  lemma ServedWithoutError(mib: Mib, dev: Device, s: State, r: Response)
    requires s.Running() && s.sizer.Valid() && (dev.v1 ==> s.Size() <= 255)
    requires GetAnswer(mib, dev, s.Chunk(), r) || (s.Size() != 1 && (r.TransportError? || r.status == TooBig))
    ensures React(s, r).errors == s.errors
  {
    hide Record, GetVariable;
  }

  /**
   * The result does not depend on how the OIDs were batched, on the protocol version, on any limit of at least one
   * OID per request, or on which larger requests were lost: it is the function (Stored, Reported) of device and request.
   */
  lemma ScalarsAreExact(session: Session, mib: Mib, dev: Device, oids: seq<string>, batchSize: int, n: nat)
    requires Proper(mib) && Serves(session, mib, dev) && dev.CanName(batchSize, |oids|)
    requires CanonicalAll(oids) && n > PduBound(|oids|, NewSizer(batchSize).max)
    ensures Exact(mib, dev, oids, Run(session, Start(oids, batchSize), n))
  {
    hide Canonical, Run, Serves, Exact, Stored, Reported;
    ServesIsHonest(session, mib, dev);
    RunGivesNothingUp(session, mib, dev, oids, batchSize, n);
    ScalarLoopEnds(session, oids, batchSize, n);
    ScalarsAreSound(session, mib, dev, oids, batchSize, n);
  }

  // ----- the loop itself -----

  lemma {:induction false} FinishedStays(session: Session, s: State, n: nat, m: nat)
    requires s.sizer.Valid() && n <= m && !Run(session, s, n).Running()
    ensures Run(session, s, m) == Run(session, s, n)
    decreases m - n
  {
    hide Step;
    if n < m {
      FinishedStays(session, s, n, m - 1);
    }
  }

  /** Where the loop ends: the state after more turns than it can take. */
  ghost function Final(session: Session, oids: seq<string>, batchSize: int): State {
    Run(session, Start(oids, batchSize), PduBound(|oids|, NewSizer(batchSize).max) + 1)
  }

  method RecordVariables(variables: seq<Variable>, store: ValueStore, report: FetchReport)
    modifies store`Scalars, report`MissingOIDs
    ensures Tally(store.Scalars, report.MissingOIDs) == Record(Tally(old(store.Scalars), old(report.MissingOIDs)), variables)
  {
    hide Decode, CanonicalOID;
    var i := 0;
    while i < |variables|
      invariant 0 <= i <= |variables|
      invariant Tally(store.Scalars, report.MissingOIDs) ==
                Record(Tally(old(store.Scalars), old(report.MissingOIDs)), variables[..i])
    {
      var v := variables[i];
      assert variables[..i + 1][..i] == variables[..i];
      var oid := CanonicalOID(v.name);
      var value := Decode(v);
      if value.None? {
        // The other "no value" tags may pass, so they do not count against the OID.
        if v.tag == NoSuchObject {
          report.MissingOIDs := report.MissingOIDs + [oid];
        }
      } else {
        store.Scalars := store.Scalars[oid := value.value];
      }
      i := i + 1;
    }
    assert variables[..i] == variables;
  }

  /** What is left to ask and the errors so far, after one packet. */
  method Receive(packet: Response, asked: seq<string>, errorsBefore: seq<FetchError>, store: ValueStore, report: FetchReport,
                 batch: BatchSizer, ghost s: State)
    returns (remaining: seq<string>, errors: seq<FetchError>)
    requires s == State(asked, batch.State(), store.Scalars, report.MissingOIDs, report.PDUs, errorsBefore, false)
    requires s.Running() && s.sizer.Valid()
    modifies store`Scalars, report`MissingOIDs, report`PDUs, batch
    ensures State(remaining, batch.State(), store.Scalars, report.MissingOIDs, report.PDUs, errors, false) == React(s, packet)
  {
    hide Record;
    remaining, errors := asked, errorsBefore;
    var size := batch.Size();
    size := Min(size, |remaining|);
    report.PDUs := report.PDUs + 1;
    if packet.TransportError? {
      var ok := batch.Shrink();
      if !ok {
        errors := errors + [Transport];
        remaining := remaining[size..];
      }
      return;
    }
    match packet.status {
      case TooBig =>
        var ok := batch.Shrink();
        if !ok {
          errors := errors + [TooBigForOne];
          remaining := remaining[size..];
        }
      case NoSuchName =>
        var idx := packet.errorIndex;
        if 1 <= idx <= size {
          report.MissingOIDs := report.MissingOIDs + [remaining[..size][idx - 1]];
          remaining := remaining[..idx - 1] + remaining[idx..];
        } else {
          errors := errors + [UnusableIndex(idx)];
          remaining := remaining[size..];
        }
      case OtherStatus(_) =>
        errors := errors + [BadStatus(packet.status)];
        remaining := remaining[size..];
      case NoError =>
        RecordVariables(packet.variables, store, report);
        batch.Success();
        remaining := remaining[size..];
    }
  }

  method FetchScalars(session: Session, oids: seq<string>, cfg: FetchConfig, store: ValueStore, report: FetchReport)
    returns (errors: seq<FetchError>)
    requires store.Scalars == map[] && report.MissingOIDs == [] && report.PDUs == 0
    modifies store`Scalars, report`MissingOIDs, report`PDUs
    ensures var s := Final(session, oids, cfg.oidBatchSize);
      && !s.Running()
      && errors == s.errors
      && store.Scalars == s.scalars
      && report.MissingOIDs == s.missing
      && report.PDUs == s.pdus
  {
    hide Run, React, PduBound;
    var batch := new BatchSizer(cfg.oidBatchSize);
    var remaining := oids;
    errors := [];
    ghost var start := Start(oids, cfg.oidBatchSize);
    ghost var bound := PduBound(|oids|, NewSizer(cfg.oidBatchSize).max);
    ghost var s, n := start, 0;
    RunUnfolds(session, start, 0);
    while remaining != []
      invariant fresh(batch) && n <= bound + 1
      invariant s == Run(session, start, n) && !s.stopped && s.sizer.Valid()
      invariant s == State(remaining, batch.State(), store.Scalars, report.MissingOIDs, report.PDUs, errors, false)
      decreases bound + 1 - n
    {
      if n > bound {
        ScalarLoopEnds(session, oids, cfg.oidBatchSize, n);
      }
      RunUnfolds(session, start, n + 1);
      StepKeepsSizer(session, s);
      n := n + 1;
      ghost var before := s;
      s := Step(session, s);
      if session.cancelled(report.PDUs) {
        errors := errors + [Cancelled];
        break;
      }
      var size := batch.Size();
      var chunk := remaining[..Min(size, |remaining|)];
      var packet := session.answer(report.PDUs, Get(Prefixed(chunk)));
      remaining, errors := Receive(packet, remaining, errors, store, report, batch, before);
    }
    FinishedStays(session, start, n, bound + 1);
  }

  lemma RunUnfolds(session: Session, s: State, n: nat)
    requires s.sizer.Valid()
    ensures n == 0 ==> Run(session, s, n) == s
    ensures n > 0 && Run(session, s, n - 1).Running() ==> Run(session, s, n) == Step(session, Run(session, s, n - 1))
  {
  }
}
