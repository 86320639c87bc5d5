/** The poll scheduler: one dispatcher, its workers and the in-flight set they share (receiver.go). */
module PollLoop {
  import opened Arithmetic
  import opened Wrappers

  const DEFAULT_POLLERS := 50

  // ----- due times -----

  /** The due time a dispatch leaves behind: the first one after `now` that keeps the device's phase. */
  function NextSlot(due: int, now: int, interval: int): int
    requires interval > 0
  {
    if now < due then due else due + ((now - due) / interval + 1) * interval
  }

  lemma NextSlotIsLeast(due: int, now: int, interval: int, k: nat)
    requires interval > 0
    ensures var next := NextSlot(due, now, interval);
      && now < next && due <= next
      && (next - due) % interval == 0
      && (now < due + k * interval ==> next <= due + k * interval)
  {
    if due <= now {
      var n := (now - due) / interval + 1;
      Quotient(now - due, interval);
      assert n * interval == (now - due) / interval * interval + interval;
      QuotientShift(0, interval, n);
      if now < due + k * interval && k < n {
        ProductGrows(k, n - 1, interval);
      }
      if n <= k {
        ProductGrows(n, k, interval);
      }
    } else {
      ProductGrows(0, k, interval);
    }
  }

  /** receiver.go's catch-up loop. */
  method CatchUp(due: int, now: int, interval: int) returns (next: int)
    requires interval > 0
    ensures next == NextSlot(due, now, interval)
  {
    next := due;
    while next <= now
      invariant NextSlot(next, now, interval) == NextSlot(due, now, interval)
      decreases now - next
    {
      NextSlotStep(next, now, interval);
      next := next + interval;
    }
  }

  lemma NextSlotStep(due: int, now: int, interval: int)
    requires interval > 0 && due <= now
    ensures NextSlot(due + interval, now, interval) == NextSlot(due, now, interval)
  {
    Quotient(now - due, interval);
    QuotientShift(now - due, interval, -1);
    if now < due + interval {
      QuotientIs(now - due, interval, 0);
    }
    assert ((now - due) / interval + 1) * interval == interval + (now - due) / interval * interval;
  }

  // ----- the protocol -----

  /** Where a worker goroutine stands; it holds a device from the receive until it has cleared the in-flight mark. */
  datatype Worker = Returning | Waiting | Polling(id: string) | Finished(id: string) | Exited

  /**
   * Where the dispatcher stands: between ticks, looking at device `at` of a tick's snapshot, offering that device to
   * the workers, or returned, possibly with a device that it had marked and never handed over.
   */
  datatype Dispatcher =
    | Idle
    | Scanning(now: int, devices: seq<string>, at: nat)
    | Sending(now: int, devices: seq<string>, at: nat)
    | Stopped(residue: Option<string>)

  datatype State = State(nextDue: map<string, int>, inFlight: set<string>, workers: seq<Worker>, dispatcher: Dispatcher, cancelled: bool)

  /** The atomic steps. The environment picks tick times, registry snapshots, first offsets and when a poll returns. */
  datatype Action =
    | Tick(now: int, devices: seq<string>)
    | Look(offset: int)
    | Send(worker: nat)
    | Saturated
    | Abort
    | Prune
    | Quit
    | Cancel
    | Receive(worker: nat)
    | PollReturns(worker: nat)
    | Clear(worker: nat)
    | Leave(worker: nat)

  function Initial(pollers: int): State {
    State(map[], {}, seq(if pollers <= 0 then DEFAULT_POLLERS else pollers, _ => Returning), Idle, false)
  }

  predicate Ready(s: State) {
    Waiting in s.workers
  }

  predicate Enabled(s: State, a: Action, interval: int) {
    match a
    case Tick(_, _) => s.dispatcher.Idle?
    case Look(offset) => s.dispatcher.Scanning? && s.dispatcher.at < |s.dispatcher.devices| && 0 <= offset < interval
    case Send(w) => s.dispatcher.Sending? && s.dispatcher.at < |s.dispatcher.devices| && w < |s.workers| && s.workers[w].Waiting?
    case Saturated => s.dispatcher.Sending? && s.dispatcher.at < |s.dispatcher.devices| && !Ready(s) && !s.cancelled
    case Abort => s.dispatcher.Sending? && s.dispatcher.at < |s.dispatcher.devices| && s.cancelled
    case Prune => s.dispatcher.Scanning? && s.dispatcher.at >= |s.dispatcher.devices|
    case Quit => s.dispatcher.Idle? && s.cancelled
    case Cancel => !s.cancelled
    case Receive(w) => w < |s.workers| && s.workers[w].Returning?
    case PollReturns(w) => w < |s.workers| && s.workers[w].Polling?
    case Clear(w) => w < |s.workers| && s.workers[w].Finished?
    case Leave(w) => w < |s.workers| && s.workers[w].Waiting? && s.dispatcher.Stopped?
  }

  /** What one look at a device decides. */
  datatype Verdict = First | NotDue | Busy | Claimed

  function Judge(nextDue: map<string, int>, inFlight: set<string>, id: string, now: int): Verdict {
    if id !in nextDue then First
    else if now < nextDue[id] then NotDue
    else if id in inFlight then Busy
    else Claimed
  }

  function Next(s: State, a: Action, interval: int): State
    requires interval > 0 && Enabled(s, a, interval)
  {
    var d := s.dispatcher;
    match a
    case Tick(now, devices) => s.(dispatcher := Scanning(now, devices, 0))
    case Look(offset) =>
      var id := d.devices[d.at];
      (match Judge(s.nextDue, s.inFlight, id, d.now)
       case First => s.(nextDue := s.nextDue[id := d.now + offset], dispatcher := Scanning(d.now, d.devices, d.at + 1))
       case NotDue => s.(dispatcher := Scanning(d.now, d.devices, d.at + 1))
       case Busy => s.(dispatcher := Scanning(d.now, d.devices, d.at + 1))
       case Claimed => s.(nextDue := s.nextDue[id := NextSlot(s.nextDue[id], d.now, interval)], inFlight := s.inFlight + {id},
                          dispatcher := Sending(d.now, d.devices, d.at)))
    case Send(w) => s.(workers := s.workers[w := Polling(d.devices[d.at])], dispatcher := Scanning(d.now, d.devices, d.at + 1))
    case Saturated => s.(inFlight := s.inFlight - {d.devices[d.at]}, dispatcher := Scanning(d.now, d.devices, d.at + 1))
    case Abort => s.(dispatcher := Stopped(Some(d.devices[d.at])))
    case Prune => s.(nextDue := Kept(s.nextDue, d.devices), dispatcher := Idle)
    case Quit => s.(dispatcher := Stopped(None))
    case Cancel => s.(cancelled := true)
    case Receive(w) => s.(workers := s.workers[w := Waiting])
    case PollReturns(w) => s.(workers := s.workers[w := Finished(s.workers[w].id)])
    case Clear(w) => s.(inFlight := s.inFlight - {s.workers[w].id}, workers := s.workers[w := Returning])
    case Leave(w) => s.(workers := s.workers[w := Exited])
  }

  function Kept(nextDue: map<string, int>, live: seq<string>): map<string, int> {
    map id | id in nextDue && id in live :: nextDue[id]
  }

  /** The state after a run, if every step of it was enabled. */
  function After(run: seq<Action>, pollers: int, interval: int): Option<State>
    requires interval > 0
  {
    if run == [] then Some(Initial(pollers))
    else
      var before := After(run[..|run| - 1], pollers, interval);
      if before.Some? && Enabled(before.value, run[|run| - 1], interval) then Some(Next(before.value, run[|run| - 1], interval))
      else None
  }

  // ----- mutual exclusion -----

  predicate Holds(w: Worker, id: string) {
    (w.Polling? || w.Finished?) && w.id == id
  }

  ghost predicate HeldByWorker(workers: seq<Worker>, id: string) {
    exists i :: 0 <= i < |workers| && Holds(workers[i], id)
  }

  /** The device the dispatcher has marked and not handed over. */
  predicate HeldByDispatcher(d: Dispatcher, id: string) {
    match d
    case Sending(_, devices, at) => at < |devices| && devices[at] == id
    case Stopped(residue) => residue == Some(id)
    case _ => false
  }

  ghost predicate Exclusive(s: State) {
    && (forall i, j, id :: 0 <= i < j < |s.workers| && Holds(s.workers[i], id) ==> !Holds(s.workers[j], id))
    && (forall id :: HeldByDispatcher(s.dispatcher, id) ==> !HeldByWorker(s.workers, id))
    && (forall id :: id in s.inFlight <==> HeldByWorker(s.workers, id) || HeldByDispatcher(s.dispatcher, id))
  }

  /** The dispatcher stays inside its snapshot. */
  predicate InBounds(s: State) {
    match s.dispatcher
    case Scanning(_, devices, at) => at <= |devices|
    case Sending(_, devices, at) => at < |devices|
    case _ => true
  }

  lemma HeldAfter(workers: seq<Worker>, w: nat, to: Worker, id: string)
    requires w < |workers|
    ensures HeldByWorker(workers[w := to], id) <==> Holds(to, id) || exists i :: 0 <= i < |workers| && i != w && Holds(workers[i], id)
  {
    var after := workers[w := to];
    if Holds(to, id) {
      assert Holds(after[w], id);
    }
    if i :| 0 <= i < |workers| && i != w && Holds(workers[i], id) {
      assert Holds(after[i], id);
    }
  }

  /** A worker that moves on without changing what it holds. */
  lemma WorkerStepIsExclusive(s: State, a: Action, interval: int)
    requires interval > 0 && Enabled(s, a, interval) && Exclusive(s) && InBounds(s)
    requires a.Receive? || a.PollReturns? || a.Leave?
    ensures Exclusive(Next(s, a, interval))
  {
    var t := Next(s, a, interval);
    assert forall i, id :: 0 <= i < |s.workers| ==> Holds(t.workers[i], id) == Holds(s.workers[i], id);
  }

  lemma HandOverIsExclusive(s: State, a: Action, interval: int)
    requires interval > 0 && Enabled(s, a, interval) && Exclusive(s) && InBounds(s)
    requires a.Send? || a.Clear?
    ensures Exclusive(Next(s, a, interval))
  {
    var t, w := Next(s, a, interval), a.worker;
    forall id
      ensures HeldByWorker(t.workers, id) <==> Holds(t.workers[w], id) || (HeldByWorker(s.workers, id) && !Holds(s.workers[w], id))
    {
      HeldAfter(s.workers, w, t.workers[w], id);
    }
    forall i, j, id | 0 <= i < j < |t.workers| && Holds(t.workers[i], id)
      ensures !Holds(t.workers[j], id)
    {
      if Holds(t.workers[w], id) {
        assert HeldByDispatcher(s.dispatcher, id);
        assert forall k :: 0 <= k < |s.workers| ==> !Holds(s.workers[k], id);
      } else if i != w && j != w {
        assert Holds(s.workers[i], id) && !Holds(s.workers[j], id);
      }
    }
  }

  lemma DispatcherStepIsExclusive(s: State, a: Action, interval: int)
    requires interval > 0 && Enabled(s, a, interval) && Exclusive(s) && InBounds(s)
    requires !a.Send? && !a.Receive? && !a.PollReturns? && !a.Clear? && !a.Leave?
    ensures Exclusive(Next(s, a, interval))
  {
    hide NextSlot, HeldByWorker;
  }

  lemma StepIsExclusive(s: State, a: Action, interval: int)
    requires interval > 0 && Enabled(s, a, interval) && Exclusive(s) && InBounds(s)
    ensures Exclusive(Next(s, a, interval)) && InBounds(Next(s, a, interval))
    ensures |Next(s, a, interval).workers| == |s.workers|
  {
    hide NextSlot, HeldByWorker, Exclusive;
    if a.Receive? || a.PollReturns? || a.Leave? {
      WorkerStepIsExclusive(s, a, interval);
    } else if a.Send? || a.Clear? {
      HandOverIsExclusive(s, a, interval);
    } else {
      DispatcherStepIsExclusive(s, a, interval);
    }
  }

  /**
   * In every interleaving: no device is held by two workers, none by a worker and the dispatcher, and the in-flight set
   * is exactly the devices so held. Snapshots are arbitrary, so this covers a device that is dropped and rediscovered
   * while its poll still runs.
   */
  lemma {:induction false} PollsAreExclusive(run: seq<Action>, pollers: int, interval: int)
    requires interval > 0 && After(run, pollers, interval).Some?
    ensures var s := After(run, pollers, interval).value;
      && Exclusive(s) && InBounds(s)
      && |s.workers| == |Initial(pollers).workers|
    decreases |run|
  {
    hide Exclusive, InBounds, Next, Enabled;
    if run == [] {
      InitialIsExclusive(pollers);
    } else {
      var before := run[..|run| - 1];
      PollsAreExclusive(before, pollers, interval);
      StepIsExclusive(After(before, pollers, interval).value, run[|run| - 1], interval);
    }
  }

  lemma InitialIsExclusive(pollers: int)
    ensures Exclusive(Initial(pollers)) && InBounds(Initial(pollers))
  {
  }

  ghost function HeldIds(workers: seq<Worker>): (r: set<string>)
    ensures |r| <= |workers|
    ensures forall id :: id in r <==> HeldByWorker(workers, id)
  {
    if workers == [] then {}
    else
      var init, last := workers[..|workers| - 1], workers[|workers| - 1];
      assert workers == init + [last];
      assert forall id :: HeldByWorker(workers, id) <==> Holds(last, id) || HeldByWorker(init, id) by {
        forall id
          ensures HeldByWorker(workers, id) <==> Holds(last, id) || HeldByWorker(init, id)
        {
          if Holds(last, id) {
            assert Holds(workers[|workers| - 1], id);
          } else if HeldByWorker(init, id) {
            var i :| 0 <= i < |init| && Holds(init[i], id);
            assert Holds(workers[i], id);
          }
        }
      }
      if last.Polling? || last.Finished? then HeldIds(init) + {last.id} else HeldIds(init)
  }

  /** At most `pollers` devices are being polled, and at most one more is marked. */
  lemma InFlightIsBounded(run: seq<Action>, pollers: int, interval: int)
    requires interval > 0 && After(run, pollers, interval).Some?
    ensures var s := After(run, pollers, interval).value;
      && |HeldIds(s.workers)| <= (if pollers <= 0 then DEFAULT_POLLERS else pollers)
      && |s.inFlight| <= |HeldIds(s.workers)| + 1
  {
    PollsAreExclusive(run, pollers, interval);
    var s := After(run, pollers, interval).value;
    var held := HeldIds(s.workers);
    if id :| id in s.inFlight && HeldByDispatcher(s.dispatcher, id) {
      assert s.inFlight == held + {id};
    } else {
      assert s.inFlight == held;
    }
  }

  // ----- slot discipline -----

  /** The interval-long slot, counted from a device's first due time, that a moment falls in. */
  function Slot(first: int, t: int, interval: int): int
    requires interval > 0
  {
    (t - first) / interval
  }

  /** A device's time on the schedule: its first due time, and the ticks at which it was handed to a worker. */
  datatype Record = Record(first: int, polls: seq<int>)

  function Recorded(h: Option<Record>, s: State, a: Action, interval: int, id: string): Option<Record>
    requires Enabled(s, a, interval)
  {
    var d := s.dispatcher;
    match a
    case Look(offset) => if d.devices[d.at] == id && id !in s.nextDue then Some(Record(d.now + offset, [])) else h
    case Send(_) => if d.devices[d.at] == id && h.Some? then Some(h.value.(polls := h.value.polls + [d.now])) else h
    case Prune => if id in d.devices then h else None
    case _ => h
  }

  /** What a run has recorded of a device since it last entered the schedule. */
  function History(run: seq<Action>, pollers: int, interval: int, id: string): Option<Record>
    requires interval > 0 && After(run, pollers, interval).Some?
  {
    if run == [] then None
    else
      var before, a := run[..|run| - 1], run[|run| - 1];
      Recorded(History(before, pollers, interval, id), After(before, pollers, interval).value, a, interval, id)
  }

  ghost predicate DistinctSlots(polls: seq<int>, first: int, interval: int)
    requires interval > 0
  {
    forall i, j :: 0 <= i < j < |polls| ==> Slot(first, polls[i], interval) < Slot(first, polls[j], interval)
  }

  /** Every poll so far took a slot of its own, and all of them lie before `t`'s. */
  ghost predicate SpentBefore(r: Record, t: int, interval: int)
    requires interval > 0
  {
    && DistinctSlots(r.polls, r.first, interval)
    && forall i :: 0 <= i < |r.polls| ==> r.first <= r.polls[i] && Slot(r.first, r.polls[i], interval) < Slot(r.first, t, interval)
  }

  predicate Offering(d: Dispatcher, id: string) {
    d.Sending? && d.at < |d.devices| && d.devices[d.at] == id
  }

  ghost predicate OnSchedule(s: State, id: string, h: Option<Record>, interval: int)
    requires interval > 0
  {
    && (id in s.nextDue <==> h.Some?)
    && (h.Some? ==>
          var r, due := h.value, s.nextDue[id];
          && r.first <= due && (due - r.first) % interval == 0
          && (if Offering(s.dispatcher, id)
              then SpentBefore(r, s.dispatcher.now, interval) && r.first <= s.dispatcher.now
                   && Slot(r.first, s.dispatcher.now, interval) < Slot(r.first, due, interval)
              else SpentBefore(r, due, interval)))
    && (Offering(s.dispatcher, id) ==> h.Some?)
  }

  /** The next slot, counted from any moment in phase with the due time, is the one after the present. */
  lemma NextSlotFollows(first: int, due: int, now: int, interval: int)
    requires interval > 0 && first <= due <= now && (due - first) % interval == 0
    ensures (NextSlot(due, now, interval) - first) % interval == 0
    ensures Slot(first, NextSlot(due, now, interval), interval) == Slot(first, now, interval) + 1
  {
    var m, n := (due - first) / interval, (now - due) / interval;
    Quotient(due - first, interval);
    assert due - first == m * interval;
    SlotArithmetic(first, due, now, interval, m, n);
  }

  lemma SlotArithmetic(first: int, due: int, now: int, interval: int, m: int, n: int)
    requires interval > 0 && due - first == m * interval && n == (now - due) / interval
    ensures (now - first) / interval == m + n
    ensures (due + (n + 1) * interval - first) / interval == m + n + 1 && (due + (n + 1) * interval - first) % interval == 0
  {
    QuotientShift(now - due, interval, m);
    QuotientShift(0, interval, m + n + 1);
    assert (m + n + 1) * interval == m * interval + (n + 1) * interval;
  }

  /** Claiming a due device moves it to the slot after the present one, in phase. */
  lemma ClaimTakesTheSlot(r: Record, due: int, now: int, interval: int)
    requires interval > 0 && r.first <= due <= now && (due - r.first) % interval == 0
    requires SpentBefore(r, due, interval)
    ensures var next := NextSlot(due, now, interval);
      && r.first <= next && (next - r.first) % interval == 0
      && Slot(r.first, next, interval) == Slot(r.first, now, interval) + 1
      && SpentBefore(r, now, interval)
  {
    NextSlotFollows(r.first, due, now, interval);
    NextSlotIsLeast(due, now, interval, 0);
    SlotGrows(r.first, due, now, interval);
    hide Slot;
  }

  lemma SlotGrows(first: int, t: int, u: int, interval: int)
    requires interval > 0 && t <= u
    ensures Slot(first, t, interval) <= Slot(first, u, interval)
  {
    QuotientGrows(t - first, u - first, interval);
  }

  lemma SpendingTheSlot(r: Record, now: int, due: int, interval: int)
    requires interval > 0 && r.first <= now && SpentBefore(r, now, interval)
    requires Slot(r.first, now, interval) < Slot(r.first, due, interval)
    ensures SpentBefore(r.(polls := r.polls + [now]), due, interval)
    ensures SpentBefore(r, due, interval)
  {
  }

  lemma StepKeepsSchedule(s: State, a: Action, interval: int, id: string, h: Option<Record>)
    requires interval > 0 && Enabled(s, a, interval) && OnSchedule(s, id, h, interval)
    ensures OnSchedule(Next(s, a, interval), id, Recorded(h, s, a, interval, id), interval)
  {
    hide Slot, NextSlot, SpentBefore;
    var d := s.dispatcher;
    if h.Some? {
      if a.Look? && Judge(s.nextDue, s.inFlight, d.devices[d.at], d.now).Claimed? {
        if d.devices[d.at] == id {
          ClaimTakesTheSlot(h.value, s.nextDue[id], d.now, interval);
        }
      } else if Offering(d, id) {
        SpendingTheSlot(h.value, d.now, s.nextDue[id], interval);
      }
    } else if a.Look? && d.devices[d.at] == id {
      NothingSpent(d.now + a.offset, interval);
    }
  }

  lemma NothingSpent(first: int, interval: int)
    requires interval > 0
    ensures SpentBefore(Record(first, []), first, interval) && (first - first) % interval == 0
  {
  }

  lemma InitialIsOnSchedule(pollers: int, interval: int, id: string)
    requires interval > 0
    ensures OnSchedule(Initial(pollers), id, None, interval)
  {
  }

  /**
   * Over every run, clocks and registry snapshots included: while a device stays on the schedule its due time is in
   * phase with its first due time, it is never polled before that, and each poll takes a slot that no other poll of it
   * took, earlier than the slot it is now due in.
   */
  lemma {:induction false} PollsKeepTheirSlots(run: seq<Action>, pollers: int, interval: int, id: string)
    requires interval > 0 && After(run, pollers, interval).Some?
    ensures OnSchedule(After(run, pollers, interval).value, id, History(run, pollers, interval, id), interval)
    decreases |run|
  {
    hide OnSchedule, Next, Enabled, Recorded;
    if run == [] {
      InitialIsOnSchedule(pollers, interval, id);
    } else {
      var before := run[..|run| - 1];
      PollsKeepTheirSlots(before, pollers, interval, id);
      StepKeepsSchedule(After(before, pollers, interval).value, run[|run| - 1], interval, id, History(before, pollers, interval, id));
    }
  }

  /** How many of the polls fall in [from, to). */
  function PollsWithin(polls: seq<int>, from: int, to: int): nat {
    if polls == [] then 0
    else
      var last := polls[|polls| - 1];
      PollsWithin(polls[..|polls| - 1], from, to) + if from <= last < to then 1 else 0
  }

  lemma {:induction false} OnePollASlot(polls: seq<int>, first: int, interval: int, from: int, to: int, top: int)
    requires interval > 0 && from < to && DistinctSlots(polls, first, interval)
    requires forall i :: 0 <= i < |polls| ==> Slot(first, polls[i], interval) <= top
    ensures
      var n := PollsWithin(polls, from, to);
      n == 0 || n <= Min(top, Slot(first, to - 1, interval)) - Slot(first, from, interval) + 1
    decreases |polls|
  {
    if polls != [] {
      var init, last := polls[..|polls| - 1], polls[|polls| - 1];
      assert forall i :: 0 <= i < |init| ==> init[i] == polls[i];
      if from <= last < to {
        SlotGrows(first, from, last, interval);
        SlotGrows(first, last, to - 1, interval);
        OnePollASlot(init, first, interval, from, to, Slot(first, last, interval) - 1);
      } else {
        OnePollASlot(init, first, interval, from, to, top);
      }
    }
  }

  lemma WindowHolds(polls: seq<int>, first: int, interval: int, from: int, k: nat, top: int)
    requires interval > 0 && DistinctSlots(polls, first, interval)
    requires forall i :: 0 <= i < |polls| ==> Slot(first, polls[i], interval) <= top
    ensures PollsWithin(polls, from, from + k * interval) <= k + 1
  {
    if k == 0 {
      NothingWithin(polls, from);
    } else {
      var to := from + k * interval;
      ProductGrows(1, k, interval);
      QuotientShift(from - first, interval, k);
      assert to - first == from - first + k * interval;
      SlotGrows(first, to - 1, to, interval);
      hide DistinctSlots, PollsWithin;
      OnePollASlot(polls, first, interval, from, to, top);
    }
  }

  /** Any window of `k` intervals, wherever it starts, holds at most `k + 1` polls of a device that stays registered. */
  lemma AtMostOneExtraPoll(run: seq<Action>, pollers: int, interval: int, id: string, from: int, k: nat)
    requires interval > 0 && After(run, pollers, interval).Some? && History(run, pollers, interval, id).Some?
    ensures PollsWithin(History(run, pollers, interval, id).value.polls, from, from + k * interval) <= k + 1
  {
    hide After, History, Slot, DistinctSlots, PollsWithin;
    PollsKeepTheirSlots(run, pollers, interval, id);
    var s, r := After(run, pollers, interval).value, History(run, pollers, interval, id).value;
    var bound := if Offering(s.dispatcher, id) then s.dispatcher.now else s.nextDue[id];
    assert SpentBefore(r, bound, interval);
    WindowHolds(r.polls, r.first, interval, from, k, Slot(r.first, bound, interval));
  }

  lemma {:induction false} NothingWithin(polls: seq<int>, from: int)
    ensures PollsWithin(polls, from, from) == 0
  {
    if polls != [] {
      NothingWithin(polls[..|polls| - 1], from);
    }
  }

  // ----- no due device is passed over -----

  /** The devices of the present tick that were seen for the first time or were still in flight when looked at. */
  function Excused(run: seq<Action>, pollers: int, interval: int): set<string>
    requires interval > 0 && After(run, pollers, interval).Some?
  {
    if run == [] then {}
    else
      var before, a := run[..|run| - 1], run[|run| - 1];
      Excuse(Excused(before, pollers, interval), After(before, pollers, interval).value, a, interval)
  }

  function Excuse(excused: set<string>, s: State, a: Action, interval: int): set<string>
    requires Enabled(s, a, interval)
  {
    match a
    case Tick(_, _) => {}
    case Look(_) =>
      var id := s.dispatcher.devices[s.dispatcher.at];
      var verdict := Judge(s.nextDue, s.inFlight, id, s.dispatcher.now);
      if verdict.First? || verdict.Busy? then excused + {id} else excused
    case _ => excused
  }

  predicate Attended(s: State, now: int, id: string, excused: set<string>) {
    id in s.nextDue && (now < s.nextDue[id] || id in excused)
  }

  ghost predicate AllAttended(s: State, excused: set<string>) {
    match s.dispatcher
    case Scanning(now, devices, at) => forall i :: 0 <= i < at && i < |devices| ==> Attended(s, now, devices[i], excused)
    case Sending(now, devices, at) => forall i :: 0 <= i <= at && i < |devices| ==> Attended(s, now, devices[i], excused)
    case _ => true
  }

  lemma StepAttends(s: State, a: Action, interval: int, excused: set<string>)
    requires interval > 0 && Enabled(s, a, interval) && AllAttended(s, excused)
    ensures AllAttended(Next(s, a, interval), Excuse(excused, s, a, interval))
  {
    if a.Look? {
      var id, now := s.dispatcher.devices[s.dispatcher.at], s.dispatcher.now;
      if Judge(s.nextDue, s.inFlight, id, now).Claimed? {
        NextSlotIsLeast(s.nextDue[id], now, interval, 0);
      }
    }
    hide NextSlot;
  }

  /**
   * Every tick attends to each device of its snapshot: once the scan has passed it, the device is due only later,
   * unless this tick was the first to see it or its previous poll was still running.
   */
  lemma {:induction false} NoDueDeviceIsPassedOver(run: seq<Action>, pollers: int, interval: int)
    requires interval > 0 && After(run, pollers, interval).Some?
    ensures AllAttended(After(run, pollers, interval).value, Excused(run, pollers, interval))
    decreases |run|
  {
    hide AllAttended, Next, Enabled, Excuse;
    if run == [] {
      InitialIsAttended(pollers);
    } else {
      var before := run[..|run| - 1];
      NoDueDeviceIsPassedOver(before, pollers, interval);
      StepAttends(After(before, pollers, interval).value, run[|run| - 1], interval, Excused(before, pollers, interval));
    }
  }

  lemma InitialIsAttended(pollers: int)
    ensures AllAttended(Initial(pollers), {})
  {
  }

  // ----- progress -----

  /** Whatever the workers do, the dispatcher can always take its next step: it never waits for one of them. */
  lemma DispatcherNeverWaits(run: seq<Action>, pollers: int, interval: int) returns (a: Action)
    requires interval > 0 && After(run, pollers, interval).Some? && !After(run, pollers, interval).value.dispatcher.Stopped?
    ensures Enabled(After(run, pollers, interval).value, a, interval)
    ensures a.Tick? || a.Look? || a.Send? || a.Saturated? || a.Abort? || a.Prune?
    ensures Next(After(run, pollers, interval).value, a, interval).dispatcher != After(run, pollers, interval).value.dispatcher
  {
    PollsAreExclusive(run, pollers, interval);
    var s := After(run, pollers, interval).value;
    if s.dispatcher.Idle? {
      a := Tick(0, []);
    } else if s.dispatcher.Scanning? {
      a := if s.dispatcher.at < |s.dispatcher.devices| then Look(0) else Prune;
    } else if w: nat :| w < |s.workers| && s.workers[w].Waiting? {
      a := Send(w);
    } else {
      a := if s.cancelled then Abort else Saturated;
    }
  }

  function Remaining(workers: seq<Worker>): nat {
    if workers == [] then 0
    else
      Remaining(workers[..|workers| - 1]) +
      match workers[|workers| - 1]
      case Polling(_) => 4
      case Finished(_) => 3
      case Returning => 2
      case Waiting => 1
      case Exited => 0
  }

  lemma {:induction false} RemainingDrops(workers: seq<Worker>, w: nat, to: Worker)
    requires w < |workers| && Remaining([to]) < Remaining([workers[w]])
    ensures Remaining(workers[w := to]) < Remaining(workers)
    decreases |workers|
  {
    var init, last := workers[..|workers| - 1], workers[|workers| - 1];
    assert [last][..0] == [] && [to][..0] == [];
    if w == |workers| - 1 {
      assert workers[w := to][..|workers| - 1] == init;
      assert [workers[w]][..0] == [];
    } else {
      assert workers[w := to][..|workers| - 1] == init[w := to];
      RemainingDrops(init, w, to);
    }
  }

  /** Once the dispatcher has returned, every step but the cancellation itself brings the workers closer to having returned. */
  lemma ShutdownCompletes(s: State, a: Action, interval: int)
    requires interval > 0 && s.dispatcher.Stopped? && Enabled(s, a, interval) && !a.Cancel?
    ensures Next(s, a, interval).dispatcher == s.dispatcher
    ensures Remaining(Next(s, a, interval).workers) < Remaining(s.workers)
  {
    var w, t := a.worker, Next(s, a, interval);
    assert [s.workers[w]][..0] == [] && [t.workers[w]][..0] == [];
    RemainingDrops(s.workers, w, t.workers[w]);
  }

  /** ... and while one has not returned, it can take such a step. At the end nothing is in flight but an offer cut short. */
  lemma ShutdownNeverSticks(run: seq<Action>, pollers: int, interval: int)
    requires interval > 0 && After(run, pollers, interval).Some? && After(run, pollers, interval).value.dispatcher.Stopped?
    ensures var s := After(run, pollers, interval).value;
      if exists w :: 0 <= w < |s.workers| && !s.workers[w].Exited?
      then exists w: nat, a ::
        a in {Receive(w), PollReturns(w), Clear(w), Leave(w)} && Enabled(s, a, interval)
      else s.inFlight == (if s.dispatcher.residue.Some? then {s.dispatcher.residue.value} else {})
  {
    PollsAreExclusive(run, pollers, interval);
    var s := After(run, pollers, interval).value;
    if w: nat :| w < |s.workers| && !s.workers[w].Exited? {
      var a := match s.workers[w]
        case Polling(_) => PollReturns(w)
        case Finished(_) => Clear(w)
        case Returning => Receive(w)
        case _ => Leave(w);
      assert Enabled(s, a, interval);
    }
  }

  // ----- the scheduler itself -----

  /** The state after some steps from `s`, if every one of them was enabled. */
  function Follow(s: State, steps: seq<Action>, interval: int): Option<State>
    requires interval > 0
  {
    if steps == [] then Some(s)
    else
      var before, a := Follow(s, steps[..|steps| - 1], interval), steps[|steps| - 1];
      if before.Some? && Enabled(before.value, a, interval) then Some(Next(before.value, a, interval)) else None
  }

  lemma FollowOne(s: State, steps: seq<Action>, a: Action, interval: int)
    requires interval > 0 && Follow(s, steps, interval).Some? && Enabled(Follow(s, steps, interval).value, a, interval)
    ensures Follow(s, steps + [a], interval) == Some(Next(Follow(s, steps, interval).value, a, interval))
  {
    assert (steps + [a])[..|steps|] == steps;
  }

  lemma {:induction false} FollowOn(s: State, steps: seq<Action>, more: seq<Action>, interval: int)
    requires interval > 0 && Follow(s, steps, interval).Some?
    ensures Follow(s, steps + more, interval) == Follow(Follow(s, steps, interval).value, more, interval)
    decreases |more|
  {
    hide Next, Enabled;
    if more == [] {
      assert steps + more == steps;
    } else {
      FollowOn(s, steps, more[..|more| - 1], interval);
      assert (steps + more)[..|steps + more| - 1] == steps + more[..|more| - 1];
    }
  }

  /** Steps that follow on from a run extend it, so what holds of every run holds of what the scheduler does. */
  lemma {:induction false} FollowExtendsRun(run: seq<Action>, steps: seq<Action>, pollers: int, interval: int)
    requires interval > 0 && After(run, pollers, interval).Some?
    ensures After(run + steps, pollers, interval) == Follow(After(run, pollers, interval).value, steps, interval)
    decreases |steps|
  {
    hide Next, Enabled;
    if steps == [] {
      assert run + steps == run;
    } else {
      FollowExtendsRun(run, steps[..|steps| - 1], pollers, interval);
      assert (run + steps)[..|run + steps| - 1] == run + steps[..|steps| - 1];
    }
  }

  /** What happens around one device of a tick: steps of others before the look and before the offer, and the select's choice. */
  datatype Surroundings = Surroundings(before: seq<Action>, between: seq<Action>, offset: int, choosesQuit: bool)

  predicate OfOthers(a: Action) {
    a.Receive? || a.PollReturns? || a.Clear? || a.Cancel?
  }

  class Scheduler {
    var nextDue: map<string, int>
    var inFlight: set<string>
    var workers: seq<Worker>
    var cancelled: bool
    const interval: int

    constructor (pollers: int, interval: int)
      ensures this.interval == interval && Snapshot(Idle) == Initial(pollers)
    {
      this.interval := interval;
      nextDue, inFlight, cancelled := map[], {}, false;
      workers := seq(if pollers <= 0 then DEFAULT_POLLERS else pollers, _ => Returning);
    }

    ghost function Snapshot(d: Dispatcher): State
      reads this
    {
      State(nextDue, inFlight, workers, d, cancelled)
    }

    /** A worker's step, or the cancellation, if it is possible by now. */
    method Perform(a: Action, ghost d: Dispatcher) returns (done: bool)
      requires interval > 0
      modifies this
      ensures done <==> OfOthers(a) && Enabled(old(Snapshot(d)), a, interval)
      ensures Snapshot(d) == if done then Next(old(Snapshot(d)), a, interval) else old(Snapshot(d))
    {
      match a {
        case Receive(w) =>
          if w < |workers| && workers[w].Returning? {
            workers := workers[w := Waiting];
            return true;
          }
        case PollReturns(w) =>
          if w < |workers| && workers[w].Polling? {
            workers := workers[w := Finished(workers[w].id)];
            return true;
          }
        case Clear(w) =>
          if w < |workers| && workers[w].Finished? {
            inFlight := inFlight - {workers[w].id};
            workers := workers[w := Returning];
            return true;
          }
        case Cancel =>
          if !cancelled {
            cancelled := true;
            return true;
          }
        case _ =>
      }
      return false;
    }

    method Meanwhile(steps: seq<Action>, ghost d: Dispatcher) returns (ghost taken: seq<Action>)
      requires interval > 0
      modifies this
      ensures Follow(old(Snapshot(d)), taken, interval) == Some(Snapshot(d))
    {
      hide Next, Enabled;
      taken := [];
      var i := 0;
      while i < |steps|
        invariant 0 <= i <= |steps|
        invariant Follow(old(Snapshot(d)), taken, interval) == Some(Snapshot(d))
      {
        ghost var before := Snapshot(d);
        var done := Perform(steps[i], d);
        if done {
          FollowOne(old(Snapshot(d)), taken, steps[i], interval);
          taken := taken + [steps[i]];
        }
        i := i + 1;
      }
    }

    /** One device of a tick, up to the claim. */
    method Consider(id: string, now: int, offset: int) returns (verdict: Verdict)
      requires interval > 0
      modifies this`nextDue, this`inFlight
      ensures verdict == Judge(old(nextDue), old(inFlight), id, now)
      ensures inFlight == if verdict.Claimed? then old(inFlight) + {id} else old(inFlight)
      ensures nextDue == match verdict
        case First => old(nextDue)[id := now + offset]
        case Claimed => old(nextDue)[id := NextSlot(old(nextDue)[id], now, interval)]
        case _ => old(nextDue)
    {
      if id !in nextDue {
        nextDue := nextDue[id := now + offset];
        return First;
      }
      var due := nextDue[id];
      if now < due {
        return NotDue;
      }
      var busy := id in inFlight;
      if !busy {
        inFlight := inFlight + {id};
      }
      if busy {
        return Busy;
      }
      due := CatchUp(due, now, interval);
      nextDue := nextDue[id := due];
      return Claimed;
    }

    /** The select: hand the claimed device to a waiting worker, or give up; when both are possible, either may be chosen. */
    method Offer(now: int, devices: seq<string>, at: nat, choosesQuit: bool) returns (a: Action)
      requires interval > 0 && at < |devices|
      modifies this`workers, this`inFlight
      ensures
        var s := old(Snapshot(Sending(now, devices, at)));
        && (a.Send? || a.Saturated? || a.Abort?) && Enabled(s, a, interval)
        && Snapshot(Next(s, a, interval).dispatcher) == Next(s, a, interval)
    {
      if cancelled && choosesQuit {
        return Abort;
      }
      if w: nat :| w < |workers| && workers[w].Waiting? {
        workers := workers[w := Polling(devices[at])];
        return Send(w);
      }
      if cancelled {
        return Abort;
      }
      inFlight := inFlight - {devices[at]};
      return Saturated;
    }

    /** Forget the due times of devices that have left the registry. */
    method Prune(live: seq<string>)
      modifies this`nextDue
      ensures nextDue == Kept(old(nextDue), live)
    {
      var ids := nextDue.Keys;
      while ids != {}
        invariant ids <= old(nextDue).Keys
        invariant nextDue == map id | id in old(nextDue) && (id in ids || id in live) :: old(nextDue)[id]
      {
        var id :| id in ids;
        if id !in live {
          nextDue := nextDue - {id};
        }
        ids := ids - {id};
      }
    }

    /** Look at device `at` and, if it is claimed, offer it. */
    method Serve(now: int, devices: seq<string>, at: nat, around: Surroundings) returns (ghost taken: seq<Action>, stopped: bool)
      requires interval > 0 && at < |devices| && 0 <= around.offset < interval
      modifies this
      ensures Follow(old(Snapshot(Scanning(now, devices, at))), taken, interval) ==
              Some(Snapshot(if stopped then Stopped(Some(devices[at])) else Scanning(now, devices, at + 1)))
    {
      hide Next, Enabled, NextSlot, Judge;
      ghost var start := Snapshot(Scanning(now, devices, at));
      taken := Meanwhile(around.before, Scanning(now, devices, at));
      ghost var s := Snapshot(Scanning(now, devices, at));
      var verdict := Consider(devices[at], now, around.offset);
      LookedAt(s, around.offset, interval);
      FollowOne(start, taken, Look(around.offset), interval);
      taken := taken + [Look(around.offset)];
      if !verdict.Claimed? {
        return taken, false;
      }
      ghost var more := Meanwhile(around.between, Sending(now, devices, at));
      FollowOn(start, taken, more, interval);
      taken := taken + more;
      ghost var offered := Snapshot(Sending(now, devices, at));
      var a := Offer(now, devices, at, around.choosesQuit);
      FollowOne(start, taken, a, interval);
      taken := taken + [a];
      OfferedTo(offered, a, interval);
      return taken, a.Abort?;
    }

    /**
     * A whole tick, with workers and the cancellation interleaving anywhere: from between ticks to between ticks, or to the
     * dispatcher's return, by steps that are each enabled when taken.
     */
    method Tick(now: int, devices: seq<string>, around: seq<Surroundings>) returns (ghost taken: seq<Action>, d: Dispatcher)
      requires interval > 0 && |around| == |devices| && forall i :: 0 <= i < |around| ==> 0 <= around[i].offset < interval
      modifies this
      ensures Follow(old(Snapshot(Idle)), taken, interval) == Some(Snapshot(d))
      ensures taken != [] && taken[0] == Action.Tick(now, devices) && (d.Idle? || d.Stopped?)
      ensures d.Idle? ==> taken[|taken| - 1] == Action.Prune
    {
      hide Next, Enabled, NextSlot, Judge, Follow;
      ghost var start := Snapshot(Idle);
      taken := TickStarts(start, now, devices, interval);
      var i := 0;
      while i < |devices|
        invariant 0 <= i <= |devices|
        invariant Follow(start, taken, interval) == Some(Snapshot(Scanning(now, devices, i)))
        invariant taken != [] && taken[0] == Action.Tick(now, devices)
      {
        ghost var more;
        var stopped;
        more, stopped := Serve(now, devices, i, around[i]);
        FollowOn(start, taken, more, interval);
        taken := taken + more;
        if stopped {
          return taken, Stopped(Some(devices[i]));
        }
        i := i + 1;
      }
      ghost var s := Snapshot(Scanning(now, devices, i));
      Prune(devices);
      TickEnds(s, interval);
      FollowOne(start, taken, Action.Prune, interval);
      return taken + [Action.Prune], Idle;
    }
  }

  lemma TickStarts(s: State, now: int, devices: seq<string>, interval: int) returns (taken: seq<Action>)
    requires interval > 0 && s.dispatcher.Idle?
    ensures taken == [Tick(now, devices)]
    ensures Follow(s, taken, interval) == Some(s.(dispatcher := Scanning(now, devices, 0)))
  {
    taken := [Tick(now, devices)];
    assert taken[..0] == [];
  }

  lemma TickEnds(s: State, interval: int)
    requires interval > 0 && s.dispatcher.Scanning? && s.dispatcher.at == |s.dispatcher.devices|
    ensures Enabled(s, Prune, interval)
    ensures Next(s, Prune, interval) == s.(nextDue := Kept(s.nextDue, s.dispatcher.devices), dispatcher := Idle)
  {
  }

  lemma LookedAt(s: State, offset: int, interval: int)
    requires interval > 0 && s.dispatcher.Scanning? && s.dispatcher.at < |s.dispatcher.devices| && 0 <= offset < interval
    ensures Enabled(s, Look(offset), interval)
    ensures
      var now, devices, at := s.dispatcher.now, s.dispatcher.devices, s.dispatcher.at;
      var id, t := devices[at], Next(s, Look(offset), interval);
      && t.workers == s.workers && t.cancelled == s.cancelled
      && match Judge(s.nextDue, s.inFlight, id, now)
         case First => t.nextDue == s.nextDue[id := now + offset] && t.inFlight == s.inFlight && t.dispatcher == Scanning(now, devices, at + 1)
         case Claimed =>
           && id in s.nextDue && t.nextDue == s.nextDue[id := NextSlot(s.nextDue[id], now, interval)]
           && t.inFlight == s.inFlight + {id} && t.dispatcher == Sending(now, devices, at)
         case _ => t == s.(dispatcher := Scanning(now, devices, at + 1))
  {
  }

  lemma OfferedTo(s: State, a: Action, interval: int)
    requires interval > 0 && s.dispatcher.Sending? && Enabled(s, a, interval) && (a.Send? || a.Saturated? || a.Abort?)
    ensures
      var now, devices, at := s.dispatcher.now, s.dispatcher.devices, s.dispatcher.at;
      at < |devices| && Next(s, a, interval).dispatcher == if a.Abort? then Stopped(Some(devices[at])) else Scanning(now, devices, at + 1)
  {
  }
}
