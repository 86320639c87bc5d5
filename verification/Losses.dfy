/** Requests for some OIDs that are always lost: what the scalar loop of internal/snmp/fetch.go still reads. */
module Losses {
  import opened Collections
  import opened Oid
  import opened Pdu
  import opened Wire
  import opened Sizing
  import opened Agent
  import opened Scalars

  ghost predicate Asks(req: Request, oids: set<string>) {
    exists name :: name in req.names && CanonicalOID(name) in oids
  }

  /**
   * The device may lose or call too big any request for several OIDs, and any request that asks for one of `lost`; it
   * answers a GET for any other OID alone.
   */
  ghost predicate ServesOthers(session: Session, mib: Mib, dev: Device, lost: set<string>) {
    && (forall n :: !session.cancelled(n))
    && forall n, req ::
         || Answers(mib, dev, req, session.answer(n, req))
         || (&& (req.GetBulk? || |req.names| != 1 || Asks(req, lost))
             && var r := session.answer(n, req); r.TransportError? || r.status == TooBig)
  }

  /** Every request given up was for one OID that may be lost. */
  ghost predicate OnlyOf(givenUp: seq<Loss>, lost: set<string>) {
    forall loss :: loss in givenUp ==> |loss.oids| == 1 && loss.oids[0] in lost
  }

  lemma {:induction false} LostOnlyOf(givenUp: seq<Loss>, lost: set<string>)
    requires OnlyOf(givenUp, lost)
    ensures |Lost(givenUp)| == |givenUp| && forall o :: o in Lost(givenUp) ==> o in lost
  {
    if givenUp != [] {
      LostOnlyOf(givenUp[..|givenUp| - 1], lost);
      assert givenUp[|givenUp| - 1] in givenUp;
    }
  }

  lemma AsksForChunk(s: State, lost: set<string>)
    requires s.Running() && CanonicalAll(s.remaining)
    ensures Asks(s.Request(), lost) <==> exists o :: o in s.Chunk() && o in lost
  {
    hide Canonical, CanonicalOID, State.Chunk;
    RequestNamesChunk(s);
    var req, chunk := s.Request(), s.Chunk();
    assert |req.names| == |chunk| && forall i :: 0 <= i < |chunk| ==> CanonicalOID(req.names[i]) == chunk[i] by {
      forall i | 0 <= i < |chunk|
        ensures CanonicalOID(req.names[i]) == chunk[i]
      {
        assert seq(|req.names|, i requires 0 <= i < |req.names| => CanonicalOID(req.names[i]))[i] == chunk[i];
      }
    }
    if o :| o in chunk && o in lost {
      var i :| 0 <= i < |chunk| && chunk[i] == o;
      assert req.names[i] in req.names;
    }
  }

  lemma TurnGivesUpOnly(session: Session, mib: Mib, dev: Device, lost: set<string>, s: State)
    requires ServesOthers(session, mib, dev, lost) && s.Running() && s.sizer.Valid() && CanonicalAll(s.remaining)
    ensures OnlyOf(GivenUpBy(session, s), lost) && !Step(session, s).stopped
  {
    hide Canonical, CanonicalOID, GetVariable, Record;
    RequestNamesChunk(s);
    AsksForChunk(s, lost);
    var r := session.answer(s.pdus, s.Request());
    assert Answers(mib, dev, s.Request(), r) ==> !Refuses(r);
  }

  lemma {:induction false} RunGivesUpOnly(session: Session, mib: Mib, dev: Device, lost: set<string>, oids: seq<string>, batchSize: int, n: nat)
    requires Proper(mib) && ServesOthers(session, mib, dev, lost) && dev.CanName(batchSize, |oids|) && CanonicalAll(oids)
    ensures var start := Start(oids, batchSize);
      OnlyOf(GivenUp(session, start, n), lost) && !Run(session, start, n).stopped
  {
    hide Sound, Canonical, Step, Honest, ServesOthers, Proper, GivenUpBy;
    var start := Start(oids, batchSize);
    if n > 0 {
      RunGivesUpOnly(session, mib, dev, lost, oids, batchSize, n - 1);
      ServesOthersIsHonest(session, mib, dev, lost);
      RunIsSound(session, mib, dev, oids, batchSize, n - 1);
      var s := Run(session, start, n - 1);
      SoundSizer(mib, dev, oids, s, GivenUp(session, start, n - 1));
      if s.Running() {
        TurnGivesUpOnly(session, mib, dev, lost, s);
      } else {
        assert GivenUpBy(session, s) == [] by { FinishedGivesUpNothing(session, s); }
      }
    }
  }

  lemma FinishedGivesUpNothing(session: Session, s: State)
    requires !s.Running()
    ensures GivenUpBy(session, s) == []
  {
  }

  lemma ServesOthersIsHonest(session: Session, mib: Mib, dev: Device, lost: set<string>)
    requires ServesOthers(session, mib, dev, lost)
    ensures Honest(session, mib, dev)
  {
  }

  /**
   * However the requests for some OIDs are lost, every other OID of the list is read: stored if readable, reported as
   * often as it was asked for if denied.
   */
  lemma OthersAreRead(session: Session, mib: Mib, dev: Device, lost: set<string>, oids: seq<string>, batchSize: int, n: nat)
    requires Proper(mib) && ServesOthers(session, mib, dev, lost) && dev.CanName(batchSize, |oids|) && CanonicalAll(oids)
    requires n > PduBound(|oids|, NewSizer(batchSize).max)
    ensures var s, stored := Run(session, Start(oids, batchSize), n), Stored(mib, oids);
      && (forall o :: o in stored && o !in lost ==> o in s.scalars && s.scalars[o] == stored[o])
      && (forall o :: o !in lost ==> multiset(s.missing)[o] == multiset(Reported(mib, dev, oids))[o])
      && s.errors == Reasons(GivenUp(session, Start(oids, batchSize), n))
  {
    hide Canonical, Run, Stored, Reported, GivenUp, ServesOthers, Honest, Proper;
    ServesOthersIsHonest(session, mib, dev, lost);
    var givenUp := GivenUp(session, Start(oids, batchSize), n);
    RunGivesUpOnly(session, mib, dev, lost, oids, batchSize, n);
    LostOnlyOf(givenUp, lost);
    ScalarLoopEnds(session, oids, batchSize, n);
    OnlyTheGivenUpIsLost(session, mib, dev, oids, batchSize, n);
    var s := Run(session, Start(oids, batchSize), n);
    assert Lost(givenUp) + s.remaining == Lost(givenUp);
    ReportedWithin(mib, dev, Lost(givenUp));
    assert forall o :: o !in lost ==> multiset(Reported(mib, dev, Lost(givenUp)))[o] == 0;
  }

  lemma {:induction false} ReportedWithin(mib: Mib, dev: Device, oids: seq<string>)
    ensures forall o :: o in Reported(mib, dev, oids) ==> o in oids
  {
    hide Device.Denies;
    if oids != [] {
      ReportedWithin(mib, dev, oids[1..]);
      assert oids == [oids[0]] + oids[1..];
    }
  }

  // ----- exactly the requests for some OIDs are lost -----

  /** Requests that ask for one of `lost` time out; the others are answered. */
  ghost predicate Loses(session: Session, mib: Mib, dev: Device, lost: set<string>) {
    && (forall n :: !session.cancelled(n))
    && forall n, req ::
         if Asks(req, lost) then session.answer(n, req).TransportError? else Answers(mib, dev, req, session.answer(n, req))
  }

  lemma LosesServesOthers(session: Session, mib: Mib, dev: Device, lost: set<string>)
    requires Loses(session, mib, dev, lost)
    ensures ServesOthers(session, mib, dev, lost)
  {
    hide Answers;
  }

  /** The list without the OIDs that are lost. */
  function Others(oids: seq<string>, lost: set<string>): (r: seq<string>)
    ensures |r| <= |oids|
  {
    if oids == [] then [] else (if oids[0] in lost then [] else [oids[0]]) + Others(oids[1..], lost)
  }

  lemma {:induction false} OthersConcat(a: seq<string>, b: seq<string>, lost: set<string>)
    ensures Others(a + b, lost) == Others(a, lost) + Others(b, lost)
  {
    if a == [] {
      assert a + b == b;
    } else {
      assert (a + b)[1..] == a[1..] + b;
      OthersConcat(a[1..], b, lost);
    }
  }

  lemma {:induction false} OthersOf(oids: seq<string>, lost: set<string>)
    ensures forall o :: o in Others(oids, lost) <==> o in oids && o !in lost
    ensures (forall o :: o in oids ==> o !in lost) ==> Others(oids, lost) == oids
    ensures (forall o :: o in oids ==> o in lost) ==> Others(oids, lost) == []
  {
    if oids != [] {
      OthersOf(oids[1..], lost);
      assert oids == [oids[0]] + oids[1..];
    }
  }

  /** Nothing lost has come in, and every error is for one time that a lost OID was asked for. */
  ghost predicate Spared(oids: seq<string>, lost: set<string>, s: State) {
    && s.sizer.Valid() && CanonicalAll(s.remaining)
    && (forall o :: o in s.scalars ==> o !in lost)
    && (forall o :: o in s.missing ==> o !in lost)
    && (forall e :: e in s.errors ==> e == Transport)
    && |s.errors| + (|s.remaining| - |Others(s.remaining, lost)|) == |oids| - |Others(oids, lost)|
  }

  lemma AnswerSpares(mib: Mib, dev: Device, oids: seq<string>, lost: set<string>, s: State, r: Response)
    requires Proper(mib) && s.Running() && s.sizer.Valid() && (dev.v1 ==> s.Size() <= 255)
    requires Spared(oids, lost, s) && GetAnswer(mib, dev, s.Chunk(), r) && forall o :: o in s.Chunk() ==> o !in lost
    ensures Spared(oids, lost, React(s, r))
  {
    hide Canonical, GetVariable, Record, Others, Stored, Reported;
    SuccessCosts(s.sizer);
    var chunk, rest := s.Chunk(), s.remaining[s.Size()..];
    SeqSplit(s.remaining, s.Size());
    if r.status == NoError {
      OthersConcat(chunk, rest, lost);
      OthersOf(chunk, lost);
      RecordIsExact(mib, dev, Tally(s.scalars, s.missing), chunk, r.variables);
      ReportedWithin(mib, dev, chunk);
      StoredWithin(mib, chunk);
    } else {
      var i := r.errorIndex - 1;
      DroppingAnother(s.remaining, i, lost);
    }
  }

  lemma StoredWithin(mib: Mib, oids: seq<string>)
    ensures forall o :: o in Stored(mib, oids) ==> o in oids
  {
  }

  lemma DroppingAnother(oids: seq<string>, i: nat, lost: set<string>)
    requires i < |oids| && oids[i] !in lost
    ensures |Others(oids[..i] + oids[i + 1..], lost)| == |Others(oids, lost)| - 1
  {
    assert oids == oids[..i] + ([oids[i]] + oids[i + 1..]);
    OthersConcat(oids[..i], [oids[i]] + oids[i + 1..], lost);
    OthersConcat([oids[i]], oids[i + 1..], lost);
    OthersConcat(oids[..i], oids[i + 1..], lost);
    OthersOf([oids[i]], lost);
  }

  lemma LossSpares(oids: seq<string>, lost: set<string>, s: State)
    requires s.Running() && s.sizer.Valid()
    requires Spared(oids, lost, s) && exists o :: o in s.Chunk() && o in lost
    ensures Spared(oids, lost, React(s, TransportError))
  {
    hide Canonical, Others;
    if s.sizer.current > 1 {
      ShrinkPays(s.sizer);
    } else {
      SeqSplit(s.remaining, 1);
      var chunk := s.Chunk();
      OthersConcat(chunk, s.remaining[1..], lost);
      OthersOf(chunk, lost);
    }
  }

  lemma StepSpares(session: Session, mib: Mib, dev: Device, lost: set<string>, oids: seq<string>, s: State)
    requires Proper(mib) && Loses(session, mib, dev, lost) && (dev.v1 ==> s.Size() <= 255)
    requires s.Running() && s.sizer.Valid() && Spared(oids, lost, s)
    ensures Spared(oids, lost, Step(session, s))
  {
    assert CanonicalAll(s.remaining);
    hide Canonical, CanonicalOID, GetAnswer, React, Spared, Asks, State.Chunk;
    AsksForChunk(s, lost);
    RequestNamesChunk(s);
    var r := session.answer(s.pdus, s.Request());
    if Asks(s.Request(), lost) {
      LossSpares(oids, lost, s);
    } else {
      AnswerSpares(mib, dev, oids, lost, s, r);
    }
  }

  lemma {:induction false} RunSpares(session: Session, mib: Mib, dev: Device, lost: set<string>, oids: seq<string>, batchSize: int, n: nat)
    requires Proper(mib) && Loses(session, mib, dev, lost) && dev.CanName(batchSize, |oids|) && CanonicalAll(oids)
    ensures Spared(oids, lost, Run(session, Start(oids, batchSize), n))
  {
    hide Sound, Canonical, Step, Loses, ServesOthers, Honest, Proper, Spared, Others, GivenUp, State.Size, State.Running;
    var start := Start(oids, batchSize);
    if n == 0 {
      assert Spared(oids, lost, start) by { StartsSpared(oids, lost, batchSize); }
    } else {
      RunSpares(session, mib, dev, lost, oids, batchSize, n - 1);
      LosesServesOthers(session, mib, dev, lost);
      ServesOthersIsHonest(session, mib, dev, lost);
      RunIsSound(session, mib, dev, oids, batchSize, n - 1);
      var s := Run(session, start, n - 1);
      SoundSizer(mib, dev, oids, s, GivenUp(session, start, n - 1));
      if s.Running() {
        ChunkFits(s, batchSize, |oids|);
        StepSpares(session, mib, dev, lost, oids, s);
      }
    }
  }

  lemma ChunkFits(s: State, batchSize: int, count: nat)
    requires s.sizer.Valid() && s.sizer.max == NewSizer(batchSize).max && |s.remaining| <= count
    ensures IndexFits(batchSize, count) ==> s.Size() <= 255
  {
  }

  lemma StartsSpared(oids: seq<string>, lost: set<string>, batchSize: int)
    requires CanonicalAll(oids)
    ensures Spared(oids, lost, Start(oids, batchSize))
  {
  }

  lemma {:induction false} ReportedOthers(mib: Mib, dev: Device, oids: seq<string>, lost: set<string>, o: string)
    ensures multiset(Reported(mib, dev, Others(oids, lost)))[o] == if o in lost then 0 else multiset(Reported(mib, dev, oids))[o]
  {
    NothingRequested(mib, dev);
    hide Device.Denies;
    if oids != [] {
      var head, rest := oids[0], oids[1..];
      ReportedOthers(mib, dev, rest, lost, o);
      CountReported(mib, dev, head, rest, o);
      CountReported(mib, dev, head, Others(rest, lost), o);
      assert oids == [head] + rest;
      assert Others(oids, lost) == if head in lost then Others(rest, lost) else [head] + Others(rest, lost);
      hide Reported, Others;
    }
  }

  lemma CountReported(mib: Mib, dev: Device, head: string, rest: seq<string>, o: string)
    ensures multiset(Reported(mib, dev, [head] + rest))[o] ==
            multiset(Reported(mib, dev, rest))[o] + if head == o && dev.Denies(mib, head) then 1 else 0
  {
    hide Device.Denies;
    var all := [head] + rest;
    assert all[1..] == rest;
    var one := if dev.Denies(mib, head) then [head] else [];
    assert Reported(mib, dev, all) == one + Reported(mib, dev, rest);
    MultisetOfConcat(one, Reported(mib, dev, rest));
  }

  /**
   * OIDs whose every request times out cost themselves and nothing else: the rest of the list is read exactly as if they
   * had not been asked for, and there is one error for each time one of them was asked for.
   */
  lemma LossesAreTheirOwn(session: Session, mib: Mib, dev: Device, lost: set<string>, oids: seq<string>, batchSize: int, n: nat)
    requires Proper(mib) && Loses(session, mib, dev, lost) && dev.CanName(batchSize, |oids|) && CanonicalAll(oids)
    requires n > PduBound(|oids|, NewSizer(batchSize).max)
    ensures var s := Run(session, Start(oids, batchSize), n);
      && s.scalars == Stored(mib, Others(oids, lost))
      && multiset(s.missing) == multiset(Reported(mib, dev, Others(oids, lost)))
      && s.errors == seq(|oids| - |Others(oids, lost)|, _ => Transport)
  {
    hide Sound, GivenUp, Canonical, Run, Reported, Stored, Loses, ServesOthers, Honest, Proper, Others;
    LosesServesOthers(session, mib, dev, lost);
    ServesOthersIsHonest(session, mib, dev, lost);
    RunSpares(session, mib, dev, lost, oids, batchSize, n);
    OthersAreRead(session, mib, dev, lost, oids, batchSize, n);
    ScalarLoopEnds(session, oids, batchSize, n);
    ScalarsAreSound(session, mib, dev, oids, batchSize, n);
    RunGivesUpOnly(session, mib, dev, lost, oids, batchSize, n);
    var s := Run(session, Start(oids, batchSize), n);
    assert s.remaining == [];
    StoredOthers(mib, oids, lost, s.scalars);
    MissingOthers(mib, dev, oids, lost, s.missing);
    ErrorsOfSpared(oids, lost, s);
  }

  lemma ErrorsOfSpared(oids: seq<string>, lost: set<string>, s: State)
    requires Spared(oids, lost, s) && s.remaining == []
    ensures s.errors == seq(|oids| - |Others(oids, lost)|, _ => Transport)
  {
    hide Others;
    OthersOf([], lost);
    assert forall i :: 0 <= i < |s.errors| ==> s.errors[i] in s.errors;
  }

  lemma StoredOthers(mib: Mib, oids: seq<string>, lost: set<string>, scalars: map<string, Value>)
    requires forall o :: o in scalars ==> o !in lost && o in Stored(mib, oids) && scalars[o] == Stored(mib, oids)[o]
    requires forall o :: o in Stored(mib, oids) && o !in lost ==> o in scalars
    ensures scalars == Stored(mib, Others(oids, lost))
  {
    hide Reading, Others;
    OthersOf(oids, lost);
    assert scalars.Keys == Stored(mib, Others(oids, lost)).Keys;
  }

  lemma MissingOthers(mib: Mib, dev: Device, oids: seq<string>, lost: set<string>, missing: seq<string>)
    requires forall o :: o in missing ==> o !in lost
    requires forall o :: o !in lost ==> multiset(missing)[o] == multiset(Reported(mib, dev, oids))[o]
    ensures multiset(missing) == multiset(Reported(mib, dev, Others(oids, lost)))
  {
    hide Reported, Others;
    forall o: string
      ensures multiset(missing)[o] == multiset(Reported(mib, dev, Others(oids, lost)))[o]
    {
      ReportedOthers(mib, dev, oids, lost, o);
      assert o in lost ==> o !in multiset(missing);
    }
  }
}
