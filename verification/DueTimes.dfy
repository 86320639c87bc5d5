/** When a device is due: the schedule of receiver.go in terms of what has happened to the device. */
module DueTimes {
  import opened Arithmetic
  import opened Wrappers
  import opened PollLoop

  /** Since a device entered the schedule: its first due time, and when it was last claimed. */
  datatype Life = Life(first: int, claimed: Option<int>)

  /** A claim is a look after which the device is on offer; forgetting and first sight are seen from the schedule itself. */
  function Lived(h: Option<Life>, s: State, a: Action, interval: int, id: string): Option<Life>
    requires interval > 0 && Enabled(s, a, interval)
  {
    var d, t := s.dispatcher, Next(s, a, interval);
    if a.Prune? then (if id in d.devices then h else None)
    else if !a.Look? || d.devices[d.at] != id then h
    else if id !in s.nextDue then Some(Life(d.now + a.offset, None))
    else if t.dispatcher.Sending? && h.Some? then Some(h.value.(claimed := Some(d.now)))
    else h
  }

  function LifeOf(run: seq<Action>, pollers: int, interval: int, id: string): Option<Life>
    requires interval > 0 && After(run, pollers, interval).Some?
  {
    if run == [] then None
    else
      var before, a := run[..|run| - 1], run[|run| - 1];
      Lived(LifeOf(before, pollers, interval, id), After(before, pollers, interval).value, a, interval, id)
  }

  /** Due first at the first due time, and then at the first moment in phase with it after the last claim. */
  ghost predicate DueAs(s: State, id: string, h: Option<Life>, interval: int)
    requires interval > 0
  {
    && (id in s.nextDue <==> h.Some?)
    && (h.Some? ==>
          var due, first := s.nextDue[id], h.value.first;
          && first <= due && (due - first) % interval == 0
          && match h.value.claimed
             case None => due == first
             case Some(t) => first <= t && t < due <= t + interval)
  }

  lemma ClaimMovesOn(first: int, due: int, now: int, interval: int)
    requires interval > 0 && first <= due <= now && (due - first) % interval == 0
    ensures var next := NextSlot(due, now, interval);
      first <= next && (next - first) % interval == 0 && now < next <= now + interval
  {
    NextSlotFollows(first, due, now, interval);
    NextSlotIsLeast(due, now, interval, 0);
    Quotient(now - due, interval);
    assert ((now - due) / interval + 1) * interval == (now - due) / interval * interval + interval;
  }

  lemma StepIsDueAs(s: State, a: Action, interval: int, id: string, h: Option<Life>)
    requires interval > 0 && Enabled(s, a, interval) && DueAs(s, id, h, interval)
    ensures DueAs(Next(s, a, interval), id, Lived(h, s, a, interval, id), interval)
  {
    hide NextSlot;
    var d := s.dispatcher;
    if a.Look? && d.devices[d.at] == id && id in s.nextDue && s.nextDue[id] <= d.now {
      ClaimMovesOn(h.value.first, s.nextDue[id], d.now, interval);
    }
  }

  lemma NothingIsDue(pollers: int, interval: int, id: string)
    requires interval > 0
    ensures DueAs(Initial(pollers), id, None, interval)
  {
  }

  /**
   * Over every run: a device is first due within an interval of being seen, and after that at the one moment in phase that
   * lies within an interval after it was last claimed. A look that finds it busy or not yet due leaves that as it is.
   */
  lemma {:induction false} DueTimeIs(run: seq<Action>, pollers: int, interval: int, id: string)
    requires interval > 0 && After(run, pollers, interval).Some?
    ensures DueAs(After(run, pollers, interval).value, id, LifeOf(run, pollers, interval, id), interval)
    decreases |run|
  {
    hide DueAs, Next, Enabled, Lived;
    if run == [] {
      NothingIsDue(pollers, interval, id);
    } else {
      var before := run[..|run| - 1];
      DueTimeIs(before, pollers, interval, id);
      StepIsDueAs(After(before, pollers, interval).value, run[|run| - 1], interval, id, LifeOf(before, pollers, interval, id));
    }
  }
}
