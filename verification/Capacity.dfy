/** What the worker pool of receiver.go can carry: every worker is put to use before a slot is skipped. */
module Capacity {
  import opened Wrappers
  import opened Order
  import opened PollLoop

  /** As many workers as configured, 50 when the setting is not positive. */
  function PoolSize(pollers: int): nat {
    if pollers <= 0 then 50 else pollers
  }

  /** A claimed device is skipped only when none of the workers, as many as configured, is waiting. */
  lemma SkippedOnlyWhenAllAreBusy(run: seq<Action>, pollers: int, interval: int)
    requires interval > 0 && After(run, pollers, interval).Some?
    ensures var s := After(run, pollers, interval).value;
      && |s.workers| == PoolSize(pollers)
      && (Enabled(s, Saturated, interval) ==> forall w :: 0 <= w < PoolSize(pollers) ==> !s.workers[w].Waiting?)
  {
    hide Exclusive, After;
    PollsAreExclusive(run, pollers, interval);
  }

  // ----- a tick that hands over every device -----

  /** The devices from `at` on are due and not being polled, and there is a waiting worker for each. */
  ghost predicate Deliverable(s: State, now: int, devices: seq<string>, at: nat, ws: seq<nat>) {
    && Distinct(devices) && |ws| == |devices| && at <= |devices|
    && (forall i, j :: 0 <= i < j < |ws| ==> ws[i] != ws[j])
    && (forall i :: 0 <= i < |ws| ==> ws[i] < |s.workers|)
    && forall i :: at <= i < |devices| ==>
      && devices[i] in s.nextDue && s.nextDue[devices[i]] <= now && devices[i] !in s.inFlight
      && s.workers[ws[i]].Waiting?
  }

  ghost predicate Delivered(s: State, devices: seq<string>, at: nat, ws: seq<nat>)
    requires |ws| == |devices|
  {
    forall i :: 0 <= i < at && i < |devices| ==> ws[i] < |s.workers| && s.workers[ws[i]] == Polling(devices[i])
  }

  /** Claiming and handing over one device. */
  lemma HandOverOne(s: State, now: int, devices: seq<string>, at: nat, ws: seq<nat>, interval: int) returns (steps: seq<Action>, t: State)
    requires interval > 0 && s.dispatcher == Scanning(now, devices, at) && at < |devices|
    requires Deliverable(s, now, devices, at, ws) && Delivered(s, devices, at, ws)
    ensures Follow(s, steps, interval) == Some(t) && t.dispatcher == Scanning(now, devices, at + 1)
    ensures Deliverable(t, now, devices, at + 1, ws) && Delivered(t, devices, at + 1, ws)
  {
    hide NextSlot;
    var claimed := Next(s, Look(0), interval);
    t := Next(claimed, Send(ws[at]), interval);
    steps := [Look(0), Send(ws[at])];
    assert steps[..1] == [Look(0)] && [Look(0)][..0] == [];
    assert Follow(s, [], interval) == Some(s) && Follow(s, [Look(0)], interval) == Some(claimed);
  }

  lemma {:induction false} HandOverAll(s: State, now: int, devices: seq<string>, at: nat, ws: seq<nat>, interval: int) returns (steps: seq<Action>, t: State)
    requires interval > 0 && s.dispatcher == Scanning(now, devices, at)
    requires Deliverable(s, now, devices, at, ws) && Delivered(s, devices, at, ws)
    ensures Follow(s, steps, interval) == Some(t) && t.dispatcher == Scanning(now, devices, |devices|)
    ensures Delivered(t, devices, |devices|, ws)
    decreases |devices| - at
  {
    hide Deliverable, Delivered, Next, Enabled;
    assert at <= |devices| by { DeliverableBounds(s, now, devices, at, ws); }
    if at == |devices| {
      steps, t := [], s;
    } else {
      var first, mid := HandOverOne(s, now, devices, at, ws, interval);
      var rest;
      rest, t := HandOverAll(mid, now, devices, at + 1, ws, interval);
      FollowOn(s, first, rest, interval);
      steps := first + rest;
    }
  }

  lemma DeliverableBounds(s: State, now: int, devices: seq<string>, at: nat, ws: seq<nat>)
    requires Deliverable(s, now, devices, at, ws)
    ensures at <= |devices| == |ws|
  {
  }

  /**
   * From between ticks, with a waiting worker for every one of the due devices, the tick can hand all of them over: no
   * device waits while a worker does.
   */
  lemma TickCarriesAll(s: State, now: int, devices: seq<string>, ws: seq<nat>, interval: int) returns (steps: seq<Action>, t: State)
    requires interval > 0 && s.dispatcher.Idle? && Deliverable(s, now, devices, 0, ws)
    ensures Follow(s, [Tick(now, devices)] + steps, interval) == Some(t)
    ensures forall id :: id in devices ==> HeldByWorker(t.workers, id)
  {
    hide Deliverable, HeldByWorker;
    var begun := Next(s, Tick(now, devices), interval);
    assert [Tick(now, devices)][..0] == [];
    assert Deliverable(begun, now, devices, 0, ws) by { SameDelivery(s, begun, now, devices, ws); }
    DeliverableBounds(s, now, devices, 0, ws);
    steps, t := HandOverAll(begun, now, devices, 0, ws, interval);
    FollowOn(s, [Tick(now, devices)], steps, interval);
    forall id | id in devices
      ensures HeldByWorker(t.workers, id)
    {
      var i :| 0 <= i < |devices| && devices[i] == id;
      HeldAt(t.workers, ws[i], id);
    }
  }

  lemma HeldAt(workers: seq<Worker>, w: nat, id: string)
    requires w < |workers| && workers[w] == Polling(id)
    ensures HeldByWorker(workers, id)
  {
    assert Holds(workers[w], id);
  }

  lemma SameDelivery(s: State, t: State, now: int, devices: seq<string>, ws: seq<nat>)
    requires Deliverable(s, now, devices, 0, ws) && t.nextDue == s.nextDue && t.inFlight == s.inFlight && t.workers == s.workers
    ensures Deliverable(t, now, devices, 0, ws)
  {
  }

  // ----- from the start -----

  /** The workers come to the channel one after another. */
  lemma {:induction false} Wake(s: State, n: nat, interval: int) returns (steps: seq<Action>)
    requires interval > 0 && n <= |s.workers| && forall w :: 0 <= w < |s.workers| ==> s.workers[w].Returning?
    ensures var workers := seq(|s.workers|, w requires 0 <= w => if w < n then Waiting else Returning);
      Follow(s, steps, interval) == Some(s.(workers := workers))
  {
    if n == 0 {
      steps := [];
      assert seq(|s.workers|, w requires 0 <= w => if w < 0 then Waiting else Returning) == s.workers;
    } else {
      var before := Wake(s, n - 1, interval);
      FollowOne(s, before, Receive(n - 1), interval);
      steps := before + [Receive(n - 1)];
      assert seq(|s.workers|, w requires 0 <= w => if w < n - 1 then Waiting else Returning)[n - 1 := Waiting] ==
             seq(|s.workers|, w requires 0 <= w => if w < n then Waiting else Returning);
    }
  }

  /** Each device seen for the first time, due within one interval. */
  ghost predicate Introduced(s: State, start: State, t0: int, devices: seq<string>, at: nat, interval: int) {
    && at <= |devices|
    && s == start.(nextDue := s.nextDue, dispatcher := Scanning(t0, devices, at))
    && (forall id :: id in s.nextDue <==> id in devices[..at])
    && (forall id :: id in s.nextDue ==> t0 <= s.nextDue[id] < t0 + interval)
  }

  lemma IntroduceOne(s: State, start: State, t0: int, devices: seq<string>, at: nat, offset: int, interval: int)
    requires interval > 0 && Introduced(s, start, t0, devices, at, interval) && at < |devices| && Distinct(devices) && 0 <= offset < interval
    ensures Enabled(s, Look(offset), interval) && Introduced(Next(s, Look(offset), interval), start, t0, devices, at + 1, interval)
  {
    hide NextSlot;
    assert devices[..at + 1] == devices[..at] + [devices[at]];
    assert devices[at] !in devices[..at];
  }

  lemma {:induction false} IntroduceAll(s: State, t0: int, devices: seq<string>, offsets: seq<int>, at: nat, interval: int) returns (steps: seq<Action>, t: State)
    requires interval > 0 && s.dispatcher.Idle? && s.nextDue == map[] && Distinct(devices) && at <= |devices| == |offsets|
    requires forall i :: 0 <= i < |offsets| ==> 0 <= offsets[i] < interval
    ensures Follow(s, steps, interval) == Some(t) && Introduced(t, s, t0, devices, at, interval)
  {
    hide Introduced, Next, Enabled, Follow;
    if at == 0 {
      steps, t := IntroduceNone(s, t0, devices, interval);
    } else {
      var before, mid := IntroduceAll(s, t0, devices, offsets, at - 1, interval);
      IntroduceOne(mid, s, t0, devices, at - 1, offsets[at - 1], interval);
      FollowOne(s, before, Look(offsets[at - 1]), interval);
      steps, t := before + [Look(offsets[at - 1])], Next(mid, Look(offsets[at - 1]), interval);
    }
  }

  lemma IntroduceNone(s: State, t0: int, devices: seq<string>, interval: int) returns (steps: seq<Action>, t: State)
    requires interval > 0 && s.dispatcher.Idle? && s.nextDue == map[]
    ensures Follow(s, steps, interval) == Some(t) && Introduced(t, s, t0, devices, 0, interval)
  {
    steps, t := [Tick(t0, devices)], Next(s, Tick(t0, devices), interval);
    assert steps[..0] == [];
  }

  /** The end of the tick forgets none of them. */
  lemma AllAreKept(s: State, start: State, t0: int, devices: seq<string>, interval: int)
    requires interval > 0 && Introduced(s, start, t0, devices, |devices|, interval)
    ensures Enabled(s, Prune, interval) && Next(s, Prune, interval) == s.(dispatcher := Idle)
  {
    assert devices[..|devices|] == devices;
    assert Kept(s.nextDue, devices) == s.nextDue;
  }

  lemma ReadyForAll(s: State, start: State, t0: int, t1: int, devices: seq<string>, ws: seq<nat>, interval: int)
    requires interval > 0 && t0 + interval <= t1 + 1 && Distinct(devices) && |devices| <= |start.workers|
    requires Introduced(s, start, t0, devices, |devices|, interval) && start.inFlight == {}
    requires forall w :: 0 <= w < |start.workers| ==> start.workers[w].Waiting?
    requires ws == seq(|devices|, i requires 0 <= i => i)
    ensures Deliverable(s.(dispatcher := Idle), t1, devices, 0, ws)
  {
    assert devices[..|devices|] == devices;
  }

  /**
   * Any devices, as many as the pool has workers, and any first offsets: there is a run, from the start and through two
   * ticks, at whose end workers are polling all of them at once.
   */
  lemma PoolCarriesItsSize(pollers: int, devices: seq<string>, offsets: seq<int>, t0: int, t1: int, interval: int) returns (run: seq<Action>)
    requires interval > 0 && Distinct(devices) && |devices| <= PoolSize(pollers) && t0 + interval <= t1 + 1
    requires |offsets| == |devices| && forall i :: 0 <= i < |offsets| ==> 0 <= offsets[i] < interval
    ensures After(run, pollers, interval).Some?
    ensures forall id :: id in devices ==> HeldByWorker(After(run, pollers, interval).value.workers, id)
  {
    hide Introduced, Deliverable, HeldByWorker, Next, Enabled;
    var initial := Initial(pollers);
    var n := |initial.workers|;
    var wake := Wake(initial, n, interval);
    var awake := Follow(initial, wake, interval).value;
    var first, seen := IntroduceAll(awake, t0, devices, offsets, |devices|, interval);
    AllAreKept(seen, awake, t0, devices, interval);
    FollowOne(awake, first, Prune, interval);
    var idle := seen.(dispatcher := Idle);
    var ws: seq<nat> := seq(|devices|, i requires 0 <= i => i);
    ReadyForAll(seen, awake, t0, t1, devices, ws, interval);
    var second, t := TickCarriesAll(idle, t1, devices, ws, interval);
    FollowOn(awake, first + [Prune], [Tick(t1, devices)] + second, interval);
    var steps := first + [Prune] + ([Tick(t1, devices)] + second);
    FollowOn(initial, wake, steps, interval);
    FollowExtendsRun([], wake + steps, pollers, interval);
    run := wake + steps;
    assert [] + run == run;
  }
}
