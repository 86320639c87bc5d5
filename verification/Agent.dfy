/** What a correct agent answers: sections 4.2.1 to 4.2.3 of RFC 3416 and 4.1.2, 4.1.3 of RFC 1157. */
module Agent {
  import opened Wrappers
  import opened Oid
  import opened Pdu
  import opened Wire
  import opened Sizing

  datatype Cell = Cell(tag: Tag, raw: Raw)

  /** The instances a device holds. */
  type Mib = map<string, Cell>

  ghost predicate CanonicalNames(mib: Mib) {
    forall o :: o in mib ==> Canonical(o)
  }

  /** Instance names are canonical, and no instance answers that its object does not exist. */
  ghost predicate Proper(mib: Mib) {
    CanonicalNames(mib) && forall o :: o in mib ==> mib[o].tag != NoSuchObject
  }

  /**
   * What stays the same of a device while its instances come and go: the protocol version and the object types it
   * implements. A v1 agent fails a request by naming a variable it cannot answer, whichever it likes; only a GET of one that
   * `namesFirst` names the first.
   */
  datatype Device = Device(v1: bool, namesFirst: bool, objects: set<string>) {
    /** The OID names an implemented object type, or an instance that such an object may have. */
    predicate Implements(oid: string) {
      exists t :: t in objects && (t == oid || Under(t, oid))
    }

    /** The answer tells the poller to stop asking: v1 cannot say that only the instance is absent. */
    predicate Denies(mib: Mib, oid: string) {
      oid !in mib && (v1 || !Implements(oid))
    }

    /** A v1 error index can name every variable of the requests for this many OIDs. */
    predicate CanName(batchSize: int, count: nat) {
      v1 ==> IndexFits(batchSize, count)
    }

    /** Absent OIDs come to light in the order they were asked for. */
    predicate InOrder() {
      v1 ==> namesFirst
    }
  }

  /** Only implemented objects have instances. */
  ghost predicate Consistent(mib: Mib, dev: Device) {
    forall o :: o in mib ==> dev.Implements(o)
  }

  function At(mib: Mib, oid: string): Variable
    requires oid in mib
  {
    Variable("." + oid, mib[oid].tag, mib[oid].raw)
  }

  function Reading(mib: Mib, oid: string): Option<Value>
    requires oid in mib
  {
    Decode(At(mib, oid))
  }

  ghost predicate CanonicalAll(oids: seq<string>) {
    forall o :: o in oids ==> Canonical(o)
  }

  // ----- GET -----

  /** Index of the first requested OID the device does not hold. */
  function FirstAbsent(mib: Mib, oids: seq<string>): (i: Option<nat>)
    ensures i.None? <==> forall o :: o in oids ==> o in mib
    ensures i.Some? ==> i.value < |oids| && oids[i.value] !in mib && forall o :: o in oids[..i.value] ==> o in mib
  {
    if oids == [] then None
    else if oids[0] !in mib then Some(0)
    else
      var rest := FirstAbsent(mib, oids[1..]);
      if rest.None? then None
      else
        assert oids[..rest.value + 1] == [oids[0]] + oids[1..][..rest.value];
        Some(rest.value + 1)
  }

  function GetVariable(mib: Mib, dev: Device, oid: string): Variable {
    if oid in mib then At(mib, oid) else Variable("." + oid, if dev.Implements(oid) then NoSuchInstance else NoSuchObject, Nil)
  }

  /** A v2c agent answers per variable; a v1 agent fails the request, naming an absent variable in one octet. */
  ghost predicate GetAnswer(mib: Mib, dev: Device, oids: seq<string>, r: Response) {
    && r.Packet?
    && if dev.v1 && exists o :: o in oids && o !in mib then
         && r.status == NoSuchName
         && exists i :: 0 <= i < |oids| && oids[i] !in mib && r.errorIndex == (i + 1) % 256
                        && (dev.namesFirst ==> forall o :: o in oids[..i] ==> o in mib)
       else
         && r.status == NoError
         && |r.variables| == |oids|
         && forall i :: 0 <= i < |oids| ==> r.variables[i] == GetVariable(mib, dev, oids[i])
  }

  // ----- GETNEXT and GETBULK -----

  /** `s` is the first instance after `o`. */
  ghost predicate IsSuccessor(mib: Mib, o: string, s: string) {
    && s in mib
    && OIDLess(o, s)
    && forall x :: x in mib && OIDLess(o, x) ==> CompareOIDs(s, x) <= 0
  }

  ghost predicate IsLast(mib: Mib, o: string) {
    forall x :: x in mib ==> !OIDLess(o, x)
  }

  /** The variable that continues a traversal standing at `cursor`. */
  ghost predicate Continues(mib: Mib, cursor: string, v: Variable) {
    if IsLast(mib, cursor) then v.name == "." + cursor && v.tag == EndOfMibView
    else exists s :: IsSuccessor(mib, cursor, s) && v == At(mib, s)
  }

  ghost function Advance(cursors: seq<string>, k: nat, v: Variable): seq<string>
    requires k < |cursors|
  {
    cursors[k := CanonicalOID(v.name)]
  }

  /**
   * `vars` continue the traversals that start at `cursors`, where `who[j]` says which of them the j-th
   * variable continues.
   */
  ghost predicate Interleaves(mib: Mib, cursors: seq<string>, who: seq<nat>, vars: seq<Variable>)
    requires |who| == |vars|
    decreases |vars|
  {
    vars == [] || (
      && who[0] < |cursors|
      && Continues(mib, cursors[who[0]], vars[0])
      && Interleaves(mib, Advance(cursors, who[0], vars[0]), who[1..], vars[1..]))
  }

  /** Where the traversals stand after some variables. */
  ghost function CursorsAfter(cursors: seq<string>, who: seq<nat>, vars: seq<Variable>): Option<seq<string>>
    requires |who| == |vars|
    decreases |vars|
  {
    if vars == [] then Some(cursors)
    else if who[0] >= |cursors| then None
    else CursorsAfter(Advance(cursors, who[0], vars[0]), who[1..], vars[1..])
  }

  lemma {:induction false} InterleavesExtends(mib: Mib, start: seq<string>, who: seq<nat>, vars: seq<Variable>,
                                              cursors: seq<string>, k: nat, v: Variable)
    requires |who| == |vars| && Interleaves(mib, start, who, vars)
    requires CursorsAfter(start, who, vars) == Some(cursors)
    requires k < |cursors| && Continues(mib, cursors[k], v)
    ensures Interleaves(mib, start, who + [k], vars + [v])
    ensures CursorsAfter(start, who + [k], vars + [v]) == Some(Advance(cursors, k, v))
    decreases |vars|
  {
    hide Continues, CanonicalOID;
    if vars == [] {
      assert (vars + [v])[1..] == [] && (who + [k])[1..] == [];
    } else {
      assert (vars + [v])[1..] == vars[1..] + [v] && (who + [k])[1..] == who[1..] + [k];
      InterleavesExtends(mib, Advance(start, who[0], vars[0]), who[1..], vars[1..], cursors, k, v);
    }
  }

  /** The variables start with one full repetition. */
  ghost predicate FullRepetition(n: nat, who: seq<nat>) {
    n <= |who| && forall i :: 0 <= i < n ==> who[i] == i
  }

  ghost predicate BulkAnswer(mib: Mib, oids: seq<string>, repetitions: nat, r: Response) {
    && r.Packet?
    && r.status == NoError
    && exists who: seq<nat> ::
         && |who| == |r.variables|
         && (repetitions >= 1 ==> FullRepetition(|oids|, who))
         && AtMostEach(who, repetitions)
         && Interleaves(mib, oids, who, r.variables)
  }

  /** No traversal is continued more often than that. */
  ghost predicate AtMostEach(who: seq<nat>, repetitions: nat) {
    forall k: nat :: multiset(who)[k] <= repetitions
  }

  /** Every traversal is continued as often as asked, or to the end of the MIB. */
  ghost predicate AllRounds(mib: Mib, oids: seq<string>, repetitions: nat, r: Response) {
    && r.Packet?
    && r.status == NoError
    && exists who: seq<nat>, end: seq<string> ::
         && |who| == |r.variables| && |end| == |oids|
         && (repetitions >= 1 ==> FullRepetition(|oids|, who))
         && AtMostEach(who, repetitions)
         && Interleaves(mib, oids, who, r.variables)
         && CursorsAfter(oids, who, r.variables) == Some(end)
         && forall k: nat :: k < |oids| ==> multiset(who)[k] == repetitions || IsLast(mib, end[k])
  }

  lemma OnceEach(n: nat, who: seq<nat>, repetitions: nat)
    requires |who| == n && FullRepetition(n, who) && repetitions >= 1
    ensures AtMostEach(who, repetitions)
  {
    forall k: nat
      ensures multiset(who)[k] <= 1
    {
      if k < n {
        assert who == who[..k] + [who[k]] + who[k + 1..];
        assert k !in who[..k] && k !in who[k + 1..];
        assert multiset(who) == multiset(who[..k]) + multiset([who[k]]) + multiset(who[k + 1..]);
      } else {
        assert k !in who;
      }
    }
  }

  lemma FirstCounts(who: seq<nat>)
    ensures who != [] ==> multiset(who)[who[0]] > 0
  {
    assert who != [] ==> who[0] in who;
  }

  /** An agent asked for no repetition says nothing. */
  lemma NoRepetitionNoVariable(mib: Mib, oids: seq<string>, r: Response)
    requires BulkAnswer(mib, oids, 0, r)
    ensures r.variables == []
  {
    hide Interleaves;
    var who: seq<nat> :| |who| == |r.variables| && AtMostEach(who, 0);
    FirstCounts(who);
  }

  /** One repetition; a v1 agent instead names some OID that has no successor. */
  ghost predicate NextAnswer(mib: Mib, dev: Device, oids: seq<string>, r: Response) {
    && r.Packet?
    && if dev.v1 && exists i :: 0 <= i < |oids| && IsLast(mib, oids[i]) then
         && r.status == NoSuchName
         && exists i :: 0 <= i < |oids| && IsLast(mib, oids[i]) && r.errorIndex == (i + 1) % 256
       else
         && r.status == NoError
         && |r.variables| == |oids|
         && forall i :: 0 <= i < |oids| ==> Continues(mib, oids[i], r.variables[i])
  }

  ghost predicate Answers(mib: Mib, dev: Device, req: Request, r: Response) {
    var oids := seq(|req.names|, i requires 0 <= i < |req.names| => CanonicalOID(req.names[i]));
    match req
    case Get(_) => GetAnswer(mib, dev, oids, r)
    case GetNext(_) => NextAnswer(mib, dev, oids, r)
    case GetBulk(_, repetitions) => BulkAnswer(mib, oids, repetitions, r)
  }

  /** A response that carries no data: the request was lost, or refused with an error status. */
  predicate Refuses(r: Response) {
    r.TransportError? || (r.status != NoError && r.status != NoSuchName)
  }

  /** Every answer is either correct or a refusal. */
  ghost predicate Honest(session: Session, mib: Mib, dev: Device) {
    forall n, req :: Answers(mib, dev, req, session.answer(n, req)) || Refuses(session.answer(n, req))
  }

  /**
   * The device may lose or call too big any GETBULK and any request for several OIDs, as often as it likes, but
   * it answers a GET or GETNEXT for a single OID. Size limits of at least one OID and missing GETBULK are included.
   */
  ghost predicate Serves(session: Session, mib: Mib, dev: Device) {
    && (forall n :: !session.cancelled(n))
    && forall n, req ::
         || Answers(mib, dev, req, session.answer(n, req))
         || (&& (req.GetBulk? || |req.names| != 1)
             && var r := session.answer(n, req); r.TransportError? || r.status == TooBig)
  }

  lemma ServesIsHonest(session: Session, mib: Mib, dev: Device)
    requires Serves(session, mib, dev)
    ensures Honest(session, mib, dev)
  {
  }

  lemma SuccessorExists(mib: Mib, o: string)
    requires CanonicalNames(mib) && !IsLast(mib, o)
    ensures exists s :: IsSuccessor(mib, o, s)
  {
    hide Canonical, CompareOIDs;
    var x :| x in mib && OIDLess(o, x);
    var later := set y | y in mib && OIDLess(o, y);
    assert x in later;
    var s := LeastOid(later);
    assert IsSuccessor(mib, o, s);
  }

  /** A GETNEXT answer is one repetition. */
  lemma {:induction false} OneRepetition(mib: Mib, at: seq<string>, from: seq<string>, vars: seq<Variable>, k: nat)
    requires |at| == |from| == |vars| && k <= |from|
    requires forall i :: k <= i < |from| ==> at[i] == from[i]
    requires forall i :: 0 <= i < |from| ==> Continues(mib, from[i], vars[i])
    ensures Interleaves(mib, at, seq(|from| - k, i requires 0 <= i => k + i), vars[k..])
    decreases |from| - k
  {
    hide Continues, CanonicalOID;
    var who := seq(|from| - k, i requires 0 <= i => k + i);
    if k < |from| {
      OneRepetition(mib, Advance(at, k, vars[k]), from, vars, k + 1);
      assert vars[k..][1..] == vars[k + 1..];
      assert who[1..] == seq(|from| - (k + 1), i requires 0 <= i => k + 1 + i);
    }
  }

  // ----- such devices exist -----

  ghost function NextVariable(mib: Mib, o: string): (v: Variable)
    requires Proper(mib)
    ensures Continues(mib, o, v)
  {
    if IsLast(mib, o) then Variable("." + o, EndOfMibView, Nil)
    else
      SuccessorExists(mib, o);
      var s :| IsSuccessor(mib, o, s);
      At(mib, s)
  }

  /** One repetition, or none when none is asked for, is a correct GETBULK answer. */
  lemma BulkReplies(mib: Mib, cursors: seq<string>, repetitions: nat, next: seq<Variable>)
    requires |next| == |cursors| && forall i :: 0 <= i < |next| ==> Continues(mib, cursors[i], next[i])
    ensures BulkAnswer(mib, cursors, repetitions, Packet(NoError, 0, if repetitions == 0 then [] else next))
  {
    hide Continues;
    if repetitions == 0 {
      var who: seq<nat> := [];
      assert AtMostEach(who, 0) && Interleaves(mib, cursors, who, []);
    } else {
      OneRepetition(mib, cursors, cursors, next, 0);
      assert next[0..] == next;
      OnceEach(|cursors|, seq(|cursors| - 0, i requires 0 <= i => 0 + i), repetitions);
    }
  }

  ghost function CorrectAnswer(mib: Mib, dev: Device, req: Request): (r: Response)
    requires Proper(mib)
    ensures Answers(mib, dev, req, r)
  {
    hide OIDLess, CanonicalOID, Canonical, Interleaves, Continues, IsLast;
    var oids := seq(|req.names|, i requires 0 <= i < |req.names| => CanonicalOID(req.names[i]));
    var next := seq(|oids|, i requires 0 <= i < |oids| => NextVariable(mib, oids[i]));
    match req
    case Get(_) =>
      var absent := FirstAbsent(mib, oids);
      if dev.v1 && absent.Some? then
        assert oids[absent.value] in oids;
        Packet(NoSuchName, (absent.value + 1) % 256, [])
      else Packet(NoError, 0, seq(|oids|, i requires 0 <= i < |oids| => GetVariable(mib, dev, oids[i])))
    case GetNext(_) =>
      if i :| dev.v1 && 0 <= i < |oids| && IsLast(mib, oids[i]) then Packet(NoSuchName, (i + 1) % 256, [])
      else Packet(NoError, 0, next)
    case GetBulk(_, repetitions) =>
      BulkReplies(mib, oids, repetitions, next);
      Packet(NoError, 0, if repetitions == 0 then [] else next)
  }

  /** Every device has a session that serves it, so statements about such sessions are about something. */
  lemma ServingSessionExists(mib: Mib, dev: Device)
    requires Proper(mib)
    ensures exists session :: Serves(session, mib, dev) && session.supportsGetBulk == !dev.v1
  {
    hide Answers;
    ghost var session := Session((n: nat, req) => CorrectAnswer(mib, dev, req), n => false, !dev.v1);
    assert Serves(session, mib, dev);
  }

  // ----- the reference agent (internal/snmptest/fake.go) -----

  ghost predicate SortedOids(s: seq<string>) {
    forall i, j :: 0 <= i < j < |s| ==> OIDLess(s[i], s[j])
  }

  lemma {:induction false} FirstAbsentIs(mib: Mib, oids: seq<string>, i: nat)
    requires i < |oids| && oids[i] !in mib && forall o :: o in oids[..i] ==> o in mib
    ensures FirstAbsent(mib, oids) == Some(i)
  {
    if i > 0 {
      assert oids[0] in oids[..i];
      assert oids[1..][..i - 1] == oids[..i][1..];
      FirstAbsentIs(mib, oids[1..], i - 1);
    }
  }

  class Fake {
    var values: Mib
    var oids: seq<string>   // sorted in OID order
    var maxRepetitions: nat
    var v1: bool

    ghost predicate Valid()
      reads this
    {
      && CanonicalNames(values)
      && SortedOids(oids)
      && forall o :: o in oids <==> o in values
    }

    /** It names the first absent variable, and takes no object for implemented that it holds no instance of. */
    ghost function AsDevice(): Device
      reads this
    {
      Device(v1, true, {})
    }

    constructor (v1: bool, maxRepetitions: nat)
      ensures Valid() && values == map[] && this.v1 == v1
    {
      values, oids := map[], [];
      this.v1, this.maxRepetitions := v1, maxRepetitions;
    }

    method Set(name: string, cell: Cell)
      requires Valid() && Canonical(CanonicalOID(name))
      modifies this
      ensures Valid() && values == old(values)[CanonicalOID(name) := cell] && v1 == old(v1)
    {
      var oid := CanonicalOID(name);
      hide CanonicalOID;
      var i := 0;
      while i < |oids| && OIDLess(oids[i], oid)
        invariant 0 <= i <= |oids|
        invariant forall j :: 0 <= j < i ==> OIDLess(oids[j], oid)
      {
        i := i + 1;
      }
      if i == |oids| || oids[i] != oid {
        InsertKeepsOrder(oids, oid, i);
        oids := oids[..i] + [oid] + oids[i..];
      }
      values := values[oid := cell];
    }

    /** Scan for the successor: the least OID held that `after` precedes. */
    method Next(after: string) returns (found: Option<string>)
      requires Valid() && Canonical(after)
      ensures found.None? ==> IsLast(values, after)
      ensures found.Some? ==> IsSuccessor(values, after, found.value)
    {
      var i := 0;
      while i < |oids|
        invariant 0 <= i <= |oids|
        invariant forall j :: 0 <= j < i ==> !OIDLess(after, oids[j])
      {
        OrderIsTotal(after, oids[i]);
        if CompareOIDs(oids[i], after) > 0 {
          FirstAfterIsSuccessor(values, oids, after, i);
          return Some(oids[i]);
        }
        i := i + 1;
      }
      return None;
    }

    method AnswerGet(requested: seq<string>) returns (r: Response)
      requires Valid() && CanonicalAll(requested)
      ensures GetAnswer(values, AsDevice(), requested, r)
    {
      var out: seq<Variable> := [];
      var i := 0;
      while i < |requested|
        invariant 0 <= i <= |requested| && |out| == i
        invariant forall j :: 0 <= j < i ==> out[j] == GetVariable(values, AsDevice(), requested[j])
        invariant v1 ==> forall o :: o in requested[..i] ==> o in values
      {
        if requested[i] !in values && v1 {
          assert requested[i] in requested;
          return Packet(NoSuchName, (i + 1) % 256, []);
        }
        assert requested[..i + 1] == requested[..i] + [requested[i]];
        out := out + [if requested[i] in values then At(values, requested[i]) else Variable("." + requested[i], NoSuchObject, Nil)];
        i := i + 1;
      }
      assert requested[..i] == requested;
      return Packet(NoError, 0, out);
    }

    /** The next variable of one traversal, endOfMibView at its end. */
    method Continue(cursor: string) returns (v: Variable, ended: bool)
      requires Valid() && Canonical(cursor)
      ensures Continues(values, cursor, v) && ended == IsLast(values, cursor)
      ensures Canonical(CanonicalOID(v.name)) && (ended ==> CanonicalOID(v.name) == cursor)
    {
      var found := Next(cursor);
      if found.None? {
        CanonicalOIDFixes(cursor);
        return Variable("." + cursor, EndOfMibView, Nil), true;
      }
      CanonicalOIDFixes(found.value);
      assert !IsLast(values, cursor);
      return At(values, found.value), false;
    }

    method AnswerGetNext(requested: seq<string>) returns (r: Response)
      requires Valid() && CanonicalAll(requested)
      ensures NextAnswer(values, AsDevice(), requested, r)
      ensures r.status == NoSuchName ==>
        && |r.variables| == |requested| && (forall i :: 0 <= i < |requested| ==> r.variables[i].name == "." + requested[i])
        && exists i :: 0 <= i < |requested| && IsLast(values, requested[i]) && r.errorIndex == (i + 1) % 256 && forall j :: 0 <= j < i ==> !IsLast(values, requested[j])
    {
      hide Canonical, CanonicalOID, Continues, IsLast;
      var out: seq<Variable> := [];
      var i := 0;
      while i < |requested|
        invariant 0 <= i <= |requested| && |out| == i
        invariant forall j :: 0 <= j < i ==> Continues(values, requested[j], out[j])
        invariant v1 ==> forall j :: 0 <= j < i ==> !IsLast(values, requested[j])
      {
        assert requested[i] in requested;
        var v, ended := Continue(requested[i]);
        if ended && v1 {
          return Packet(NoSuchName, (i + 1) % 256, EchoOf(requested));
        }
        out := out + [v];
        i := i + 1;
      }
      return Packet(NoError, 0, out);
    }

    /** Up to `repetitions` rounds over all cursors, skipping those already at the end. */
    method AnswerGetBulk(requested: seq<string>, repetitions: nat) returns (r: Response)
      requires Valid() && CanonicalAll(requested)
      ensures BulkAnswer(values, requested, repetitions, r)
      ensures AllRounds(values, requested, if 0 < maxRepetitions < repetitions then maxRepetitions else repetitions, r)
    {
      hide Midway, Canonical, CanonicalOID, Continues, IsLast;
      var reps := repetitions;
      if maxRepetitions > 0 && maxRepetitions < reps {
        reps := maxRepetitions;
      }
      var n := |requested|;
      var cursors := new string[n](i requires 0 <= i < n => requested[i]);
      var exhausted := new bool[n](_ => false);
      var out: seq<Variable> := [];
      ghost var who: seq<nat> := [];
      assert cursors[..] == requested;
      NothingYet(values, requested, exhausted[..]);
      var round := 0;
      while round < reps
        invariant 0 <= round <= reps
        invariant Midway(values, requested, cursors[..], exhausted[..], round, 0, who, out)
      {
        var i := 0;
        while i < n
          invariant 0 <= i <= n
          invariant Midway(values, requested, cursors[..], exhausted[..], round, i, who, out)
        {
          if !exhausted[i] {
            CursorIsCanonical(values, requested, cursors[..], exhausted[..], round, i, who, out);
            var v, ended := Continue(cursors[i]);
            OneMore(values, requested, cursors[..], exhausted[..], round, i, who, out, v, ended);
            ghost var at, done := cursors[..], exhausted[..];
            cursors[i], exhausted[i] := CanonicalOID(v.name), ended;
            assert cursors[..] == Advance(at, i, v) && exhausted[..] == done[i := ended];
            out, who := out + [v], who + [i as nat];
          } else {
            Skipped(values, requested, cursors[..], exhausted[..], round, i, who, out);
          }
          i := i + 1;
        }
        RoundIsOver(values, requested, cursors[..], exhausted[..], round, who, out);
        round := round + 1;
      }
      RoundsAreAll(values, requested, cursors[..], exhausted[..], round, who, out);
      return Packet(NoError, 0, out);
    }
  }

  lemma FirstAfterIsSuccessor(mib: Mib, oids: seq<string>, after: string, i: nat)
    requires SortedOids(oids) && CanonicalAll(oids) && (forall o :: o in oids <==> o in mib)
    requires i < |oids| && OIDLess(after, oids[i]) && forall j :: 0 <= j < i ==> !OIDLess(after, oids[j])
    ensures IsSuccessor(mib, after, oids[i])
  {
    hide Canonical, CompareOIDs;
    forall x | x in mib && OIDLess(after, x)
      ensures CompareOIDs(oids[i], x) <= 0
    {
      var j :| 0 <= j < |oids| && oids[j] == x;
      if i == j {
        OrderIsTotal(x, x);
      }
    }
  }

  // ----- the agent's rounds -----

  /** Every traversal has had a turn in every round, until it was exhausted. */
  ghost predicate Turns(exhausted: seq<bool>, round: nat, i: nat, who: seq<nat>) {
    && (if round == 0 then |who| == i && FullRepetition(i, who) else FullRepetition(|exhausted|, who))
    && (round == 0 ==> forall k :: i <= k < |exhausted| ==> !exhausted[k])
    && (forall k: nat :: multiset(who)[k] <= if k < i then round + 1 else round)
    && (forall k: nat :: k < |exhausted| && !exhausted[k] ==> multiset(who)[k] == if k < i then round + 1 else round)
  }

  lemma TurnTaken(exhausted: seq<bool>, round: nat, i: nat, who: seq<nat>, ended: bool)
    requires Turns(exhausted, round, i, who) && i < |exhausted| && !exhausted[i]
    ensures Turns(exhausted[i := ended], round, i + 1, who + [i])
  {
    assert multiset(who + [i]) == multiset(who) + multiset{i};
  }

  /** In round `round`, cursors before `i` have had their turn. */
  ghost predicate Midway(mib: Mib, requested: seq<string>, cursors: seq<string>, exhausted: seq<bool>, round: nat, i: nat,
                         who: seq<nat>, vars: seq<Variable>) {
    && |who| == |vars| && |exhausted| == |cursors| == |requested| && CanonicalAll(cursors)
    && Turns(exhausted, round, i, who)
    && (forall k :: 0 <= k < |cursors| && exhausted[k] ==> IsLast(mib, cursors[k]))
    && Interleaves(mib, requested, who, vars)
    && CursorsAfter(requested, who, vars) == Some(cursors)
  }

  lemma NothingYet(mib: Mib, requested: seq<string>, exhausted: seq<bool>)
    requires CanonicalAll(requested) && |exhausted| == |requested| && forall k :: 0 <= k < |exhausted| ==> !exhausted[k]
    ensures Midway(mib, requested, requested, exhausted, 0, 0, [], [])
  {
    hide Canonical, IsLast;
  }

  lemma CursorIsCanonical(mib: Mib, requested: seq<string>, cursors: seq<string>, exhausted: seq<bool>, round: nat, i: nat,
                          who: seq<nat>, vars: seq<Variable>)
    requires Midway(mib, requested, cursors, exhausted, round, i, who, vars) && i < |cursors|
    ensures Canonical(cursors[i])
  {
    hide Canonical, Interleaves, CursorsAfter, IsLast;
    assert cursors[i] in cursors;
  }

  lemma AdvanceKeeps(mib: Mib, cursors: seq<string>, exhausted: seq<bool>, i: nat, v: Variable, ended: bool)
    requires i < |cursors| == |exhausted| && CanonicalAll(cursors) && Canonical(CanonicalOID(v.name))
    requires forall k :: 0 <= k < |cursors| && exhausted[k] ==> IsLast(mib, cursors[k])
    requires ended ==> IsLast(mib, cursors[i]) && CanonicalOID(v.name) == cursors[i]
    ensures CanonicalAll(Advance(cursors, i, v))
    ensures var done := exhausted[i := ended];
      forall k :: 0 <= k < |cursors| && done[k] ==> IsLast(mib, Advance(cursors, i, v)[k])
  {
    hide Canonical, CanonicalOID, IsLast;
  }

  lemma OneMore(mib: Mib, requested: seq<string>, cursors: seq<string>, exhausted: seq<bool>, round: nat, i: nat,
                who: seq<nat>, vars: seq<Variable>, v: Variable, ended: bool)
    requires Midway(mib, requested, cursors, exhausted, round, i, who, vars) && i < |cursors| && !exhausted[i]
    requires Continues(mib, cursors[i], v) && Canonical(CanonicalOID(v.name))
    requires ended == IsLast(mib, cursors[i]) && (ended ==> CanonicalOID(v.name) == cursors[i])
    ensures Midway(mib, requested, Advance(cursors, i, v), exhausted[i := ended], round, i + 1, who + [i], vars + [v])
  {
    InterleavesExtends(mib, requested, who, vars, cursors, i, v);
    hide Canonical, CanonicalOID, Continues, IsLast, Interleaves, CursorsAfter, Turns;
    TurnTaken(exhausted, round, i, who, ended);
    AdvanceKeeps(mib, cursors, exhausted, i, v, ended);
  }

  lemma Skipped(mib: Mib, requested: seq<string>, cursors: seq<string>, exhausted: seq<bool>, round: nat, i: nat,
                who: seq<nat>, vars: seq<Variable>)
    requires Midway(mib, requested, cursors, exhausted, round, i, who, vars) && i < |cursors| && exhausted[i]
    ensures Midway(mib, requested, cursors, exhausted, round, i + 1, who, vars)
  {
    hide Canonical, IsLast, Interleaves, CursorsAfter;
  }

  lemma RoundIsOver(mib: Mib, requested: seq<string>, cursors: seq<string>, exhausted: seq<bool>, round: nat,
                    who: seq<nat>, vars: seq<Variable>)
    requires Midway(mib, requested, cursors, exhausted, round, |requested|, who, vars)
    ensures Midway(mib, requested, cursors, exhausted, round + 1, 0, who, vars)
  {
    hide Canonical, IsLast, Interleaves, CursorsAfter;
  }

  lemma RoundsAreAll(mib: Mib, requested: seq<string>, cursors: seq<string>, exhausted: seq<bool>, rounds: nat,
                     who: seq<nat>, vars: seq<Variable>)
    requires Midway(mib, requested, cursors, exhausted, rounds, 0, who, vars)
    ensures AllRounds(mib, requested, rounds, Packet(NoError, 0, vars))
    ensures forall repetitions: nat :: rounds <= repetitions && (repetitions >= 1 ==> rounds >= 1) ==>
      BulkAnswer(mib, requested, repetitions, Packet(NoError, 0, vars))
  {
    hide Canonical, IsLast, Interleaves, CursorsAfter;
  }

  lemma InsertKeepsOrder(s: seq<string>, o: string, i: nat)
    requires SortedOids(s) && i <= |s| && Canonical(o) && CanonicalAll(s)
    requires forall j :: 0 <= j < i ==> OIDLess(s[j], o)
    requires i < |s| ==> !OIDLess(s[i], o) && s[i] != o
    ensures SortedOids(s[..i] + [o] + s[i..])
    ensures forall x :: x in s[..i] + [o] + s[i..] <==> x == o || x in s
  {
    hide OIDLess;
    assert s == s[..i] + s[i..];
    forall j | i <= j < |s|
      ensures OIDLess(o, s[j])
    {
      PrecedesRest(s, o, i, j);
    }
    var t := s[..i] + [o] + s[i..];
    forall j, k | 0 <= j < k < |t|
      ensures OIDLess(t[j], t[k])
    {
      assert t[j] == (if j < i then s[j] else if j == i then o else s[j - 1]);
      assert t[k] == (if k < i then s[k] else if k == i then o else s[k - 1]);
    }
  }

  lemma PrecedesRest(s: seq<string>, o: string, i: nat, j: nat)
    requires SortedOids(s) && i <= j < |s| && Canonical(o) && CanonicalAll(s)
    requires !OIDLess(s[i], o) && s[i] != o
    ensures OIDLess(o, s[j])
  {
    assert s[i] in s && s[j] in s;
    OrderIsTotal(o, s[i]);
    OrderIsTotal(s[i], o);
    if i < j {
      OrderIsTransitive(o, s[i], s[j]);
    }
  }

  /** The request varbinds, echoed with no value. */
  function EchoOf(requested: seq<string>): (r: seq<Variable>)
    ensures |r| == |requested| && forall i :: 0 <= i < |r| ==> r[i].name == "." + requested[i] && Decode(r[i]).None?
  {
    seq(|requested|, i requires 0 <= i < |requested| => Variable("." + requested[i], Null, Nil))
  }
}
