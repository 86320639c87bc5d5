/** The subnet scan: a feeder, its workers and a collector over two channels (internal/discovery/scan.go). */
module Scan {
  import opened Cidr
  import opened Collections
  import opened Order
  import opened Wrappers

  const DEFAULT_WORKERS := 10

  // ----- probing one address -----

  /** How one address reacts to one credential set. */
  datatype Attempt = DialFails | ConnectFails | NoObjectID | Answers(sysObjectID: string)

  datatype Device = Device(address: Addr, authIndex: nat, sysObjectID: string)

  predicate Proves(a: Attempt) {
    a.Answers? && a.sysObjectID != ""
  }

  /** What a probe finds by trying the credentials from `index` on. */
  function FirstAnswer(address: Addr, attempts: seq<Attempt>, index: nat): Option<Device>
    requires index <= |attempts|
    decreases |attempts| - index
  {
    if index == |attempts| then None
    else if Proves(attempts[index]) then Some(Device(address, index, attempts[index].sysObjectID))
    else FirstAnswer(address, attempts, index + 1)
  }

  /** A device is found exactly when some credential answers, and it carries the first one that does. */
  lemma {:induction false} FirstAnswerIsFirst(address: Addr, attempts: seq<Attempt>, index: nat)
    requires index <= |attempts|
    ensures
      match FirstAnswer(address, attempts, index)
      case None => forall k :: index <= k < |attempts| && attempts[k].Answers? ==> attempts[k].sysObjectID == ""
      case Some(d) =>
        && d.address == address && d.sysObjectID != ""
        && index <= d.authIndex < |attempts| && attempts[d.authIndex] == Answers(d.sysObjectID)
        && (forall k :: index <= k < d.authIndex && attempts[k].Answers? ==> attempts[k].sysObjectID == "")
    decreases |attempts| - index
  {
    if index < |attempts| && !Proves(attempts[index]) {
      FirstAnswerIsFirst(address, attempts, index + 1);
    }
  }

  /** probe, when the context is found cancelled before credential `stop` is tried. */
  method Probe(address: Addr, attempts: seq<Attempt>, stop: nat) returns (r: Option<Device>)
    ensures r == FirstAnswer(address, if stop < |attempts| then attempts[..stop] else attempts, 0)
  {
    var tried := if stop < |attempts| then attempts[..stop] else attempts;
    var index := 0;
    while index < |attempts|
      invariant index <= |tried|
      invariant FirstAnswer(address, tried, index) == FirstAnswer(address, tried, 0)
    {
      if index >= stop {
        return None;
      }
      match attempts[index] {
        case DialFails =>
        case ConnectFails =>
        case NoObjectID =>
        case Answers(sysObjectID) =>
          if sysObjectID != "" {
            return Some(Device(address, index, sysObjectID));
          }
      }
      index := index + 1;
    }
    r := None;
  }

  /** A cancellation in mid-probe costs the answer or changes nothing; it never promotes a later credential. */
  lemma {:induction false} CancelledProbe(address: Addr, attempts: seq<Attempt>, stop: nat, index: nat)
    requires index <= stop <= |attempts|
    ensures
      var r := FirstAnswer(address, attempts[..stop], index);
      r == FirstAnswer(address, attempts, index) || r.None?
    decreases stop - index
  {
    if index < stop && !Proves(attempts[index]) {
      CancelledProbe(address, attempts, stop, index + 1);
    }
  }

  // ----- the protocol -----

  datatype Feeder = Feeding(next: nat) | Closed

  datatype Worker = Idle | Probing(address: Addr) | Reporting(address: Addr, result: Option<Device>) | Exited

  datatype Delivery = Delivery(address: Addr, result: Option<Device>)

  /** `begun`, `delivered` and `lost` record the run: addresses handed to workers, results received, results given up. */
  datatype State = State(feeder: Feeder, workers: seq<Worker>, found: seq<Device>, resultsClosed: bool, returned: bool,
                         cancelled: bool, begun: seq<Addr>, delivered: seq<Delivery>, lost: seq<Addr>)

  /** A subnet: its addresses, those to skip, the pool size, and how each address reacts to the credentials in turn. */
  datatype Subnet = Subnet(addresses: seq<Addr>, ignored: set<Addr>, workers: int, attempts: Addr -> seq<Attempt>)

  /** What an uncancelled probe of the address finds. */
  function Answer(n: Subnet, address: Addr): Option<Device> {
    FirstAnswer(address, n.attempts(address), 0)
  }

  datatype Action =
    | Skip
    | Feed(worker: nat)
    | FeederQuits
    | CloseJobs
    | Finish(worker: nat, result: Option<Device>)
    | Deliver(worker: nat)
    | Abandon(worker: nat)
    | Leave(worker: nat)
    | CloseResults
    | Return
    | Cancel

  function PoolSize(n: Subnet): nat {
    if n.workers <= 0 then DEFAULT_WORKERS else n.workers
  }

  function Initial(n: Subnet): State {
    State(Feeding(0), seq(PoolSize(n), _ => Idle), [], false, false, false, [], [], [])
  }

  predicate AllExited(workers: seq<Worker>) {
    forall i :: 0 <= i < |workers| ==> workers[i].Exited?
  }

  predicate HasNext(n: Subnet, s: State) {
    s.feeder.Feeding? && s.feeder.next < |n.addresses|
  }

  predicate Enabled(n: Subnet, s: State, a: Action) {
    match a
    case Skip => HasNext(n, s) && n.addresses[s.feeder.next] in n.ignored
    case Feed(w) => HasNext(n, s) && n.addresses[s.feeder.next] !in n.ignored && w < |s.workers| && s.workers[w].Idle?
    case FeederQuits => HasNext(n, s) && n.addresses[s.feeder.next] !in n.ignored && s.cancelled
    case CloseJobs => s.feeder.Feeding? && s.feeder.next >= |n.addresses|
    case Finish(w, result) =>
      && w < |s.workers| && s.workers[w].Probing?
      && (result == Answer(n, s.workers[w].address) || (s.cancelled && result.None?))
    case Deliver(w) => w < |s.workers| && s.workers[w].Reporting? && !s.resultsClosed
    case Abandon(w) => w < |s.workers| && s.workers[w].Reporting? && s.cancelled
    case Leave(w) => w < |s.workers| && s.workers[w].Idle? && s.feeder.Closed?
    case CloseResults => AllExited(s.workers) && !s.resultsClosed
    case Return => s.resultsClosed && !s.returned
    case Cancel => !s.cancelled
  }

  function Next(n: Subnet, s: State, a: Action): State
    requires Enabled(n, s, a)
  {
    match a
    case Skip => s.(feeder := Feeding(s.feeder.next + 1))
    case Feed(w) =>
      var address := n.addresses[s.feeder.next];
      s.(feeder := Feeding(s.feeder.next + 1), workers := s.workers[w := Probing(address)], begun := s.begun + [address])
    case FeederQuits => s.(feeder := Closed)
    case CloseJobs => s.(feeder := Closed)
    case Finish(w, result) => s.(workers := s.workers[w := Reporting(s.workers[w].address, result)])
    case Deliver(w) =>
      s.(workers := s.workers[w := Idle], delivered := s.delivered + [Delivery(s.workers[w].address, s.workers[w].result)],
         found := if s.workers[w].result.Some? then s.found + [s.workers[w].result.value] else s.found)
    case Abandon(w) => s.(workers := s.workers[w := Exited], lost := s.lost + [s.workers[w].address])
    case Leave(w) => s.(workers := s.workers[w := Exited])
    case CloseResults => s.(resultsClosed := true)
    case Return => s.(returned := true)
    case Cancel => s.(cancelled := true)
  }

  /** The state after a run, if every step of it was enabled. */
  function After(n: Subnet, run: seq<Action>): Option<State> {
    if run == [] then Some(Initial(n))
    else
      var before := After(n, run[..|run| - 1]);
      if before.Some? && Enabled(n, before.value, run[|run| - 1]) then Some(Next(n, before.value, run[|run| - 1])) else None
  }

  // ----- every address once -----

  /** The addresses that are not ignored, in order. */
  function Targets(addresses: seq<Addr>, ignored: set<Addr>): seq<Addr> {
    if addresses == [] then []
    else
      var init, last := addresses[..|addresses| - 1], addresses[|addresses| - 1];
      Targets(init, ignored) + if last in ignored then [] else [last]
  }

  lemma {:induction false} TargetsAreTheRest(addresses: seq<Addr>, ignored: set<Addr>, a: Addr)
    requires Distinct(addresses)
    ensures a in Targets(addresses, ignored) <==> a in addresses && a !in ignored
    ensures multiset(Targets(addresses, ignored))[a] <= 1
    decreases |addresses|
  {
    if addresses != [] {
      var init, last := addresses[..|addresses| - 1], addresses[|addresses| - 1];
      assert addresses == init + [last];
      TargetsAreTheRest(init, ignored, a);
      assert a == last ==> a !in init;
    }
  }

  /** 1 for the address that a worker holds. */
  function Held(w: Worker, a: Addr): nat {
    if (w.Probing? || w.Reporting?) && w.address == a then 1 else 0
  }

  function HeldBy(workers: seq<Worker>, a: Addr): nat {
    if workers == [] then 0 else HeldBy(workers[..|workers| - 1], a) + Held(workers[|workers| - 1], a)
  }

  lemma {:induction false} HeldAfter(workers: seq<Worker>, w: nat, to: Worker, a: Addr)
    requires w < |workers|
    ensures HeldBy(workers[w := to], a) == HeldBy(workers, a) - Held(workers[w], a) + Held(to, a)
    decreases |workers|
  {
    var after, init := workers[w := to], workers[..|workers| - 1];
    if w == |workers| - 1 {
      assert after[..|workers| - 1] == init;
    } else {
      assert after[..|workers| - 1] == init[w := to];
      HeldAfter(init, w, to, a);
    }
  }

  lemma {:induction false} NoneHeld(workers: seq<Worker>, a: Addr)
    requires forall i :: 0 <= i < |workers| ==> workers[i].Exited? || workers[i].Idle?
    ensures HeldBy(workers, a) == 0
  {
    if workers != [] {
      NoneHeld(workers[..|workers| - 1], a);
    }
  }

  function Addresses(delivered: seq<Delivery>): (r: seq<Addr>)
    ensures |r| == |delivered|
  {
    if delivered == [] then [] else Addresses(delivered[..|delivered| - 1]) + [delivered[|delivered| - 1].address]
  }

  function Devices(delivered: seq<Delivery>): seq<Device> {
    if delivered == [] then []
    else
      var init, last := delivered[..|delivered| - 1], delivered[|delivered| - 1];
      if last.result.Some? then Devices(init) + [last.result.value] else Devices(init)
  }

  /** A probe's result is the address's answer, or nothing once the scan is cancelled. */
  predicate Truthful(n: Subnet, cancelled: bool, address: Addr, result: Option<Device>) {
    result == Answer(n, address) || (cancelled && result.None?)
  }

  /** What has been begun is with a worker, delivered or given up. */
  ghost predicate Balanced(s: State, a: Addr) {
    multiset(s.begun)[a] == HeldBy(s.workers, a) + multiset(Addresses(s.delivered))[a] + multiset(s.lost)[a]
  }

  /** What has been begun are the targets among the first addresses: all of them, once the feeder has closed uncancelled. */
  ghost predicate InOrder(n: Subnet, s: State) {
    && (s.feeder.Feeding? ==> s.feeder.next <= |n.addresses| && s.begun == Targets(n.addresses[..s.feeder.next], n.ignored))
    && (s.feeder.Closed? ==>
          exists next: nat :: next <= |n.addresses| && s.begun == Targets(n.addresses[..next], n.ignored) && (next == |n.addresses| || s.cancelled))
    && (s.lost != [] ==> s.cancelled)
  }

  ghost predicate Honest(n: Subnet, s: State) {
    && s.found == Devices(s.delivered)
    && (forall i :: 0 <= i < |s.delivered| ==> Truthful(n, s.cancelled, s.delivered[i].address, s.delivered[i].result))
    && (forall i :: 0 <= i < |s.workers| && s.workers[i].Reporting? ==> Truthful(n, s.cancelled, s.workers[i].address, s.workers[i].result))
  }

  /** Who may have stopped, and why. */
  ghost predicate Orderly(n: Subnet, s: State) {
    && |s.workers| == PoolSize(n)
    && (s.feeder.Feeding? && !s.cancelled ==> forall i :: 0 <= i < |s.workers| ==> !s.workers[i].Exited?)
    && (s.resultsClosed ==> AllExited(s.workers))
    && (s.returned ==> s.resultsClosed)
  }

  lemma StepIsInOrder(n: Subnet, s: State, a: Action)
    requires Enabled(n, s, a) && InOrder(n, s)
    ensures InOrder(n, Next(n, s, a))
  {
    if a.CloseJobs? || a.FeederQuits? {
      assert s.begun == Targets(n.addresses[..s.feeder.next], n.ignored);
    } else if a.Skip? || a.Feed? {
      assert n.addresses[..s.feeder.next + 1][..s.feeder.next] == n.addresses[..s.feeder.next];
    }
  }

  lemma AddressesOfAppend(delivered: seq<Delivery>, d: Delivery)
    ensures Addresses(delivered + [d]) == Addresses(delivered) + [d.address]
  {
    assert (delivered + [d])[..|delivered|] == delivered;
  }

  lemma FeedIsBalanced(n: Subnet, s: State, w: nat, x: Addr)
    requires Enabled(n, s, Feed(w)) && Balanced(s, x)
    ensures Balanced(Next(n, s, Feed(w)), x)
  {
    hide HeldBy, Addresses;
    HeldAfter(s.workers, w, Probing(n.addresses[s.feeder.next]), x);
    CountOfAppend(s.begun, n.addresses[s.feeder.next], x);
  }

  lemma DeliverIsBalanced(n: Subnet, s: State, w: nat, x: Addr)
    requires Enabled(n, s, Deliver(w)) && Balanced(s, x)
    ensures Balanced(Next(n, s, Deliver(w)), x)
  {
    hide HeldBy, Addresses;
    var worker := s.workers[w];
    HeldAfter(s.workers, w, Idle, x);
    AddressesOfAppend(s.delivered, Delivery(worker.address, worker.result));
    CountOfAppend(Addresses(s.delivered), worker.address, x);
  }

  lemma AbandonIsBalanced(n: Subnet, s: State, w: nat, x: Addr)
    requires Enabled(n, s, Abandon(w)) && Balanced(s, x)
    ensures Balanced(Next(n, s, Abandon(w)), x)
  {
    hide HeldBy, Addresses;
    HeldAfter(s.workers, w, Exited, x);
    CountOfAppend(s.lost, s.workers[w].address, x);
  }

  lemma StepIsBalanced(n: Subnet, s: State, a: Action, x: Addr)
    requires Enabled(n, s, a) && Balanced(s, x)
    ensures Balanced(Next(n, s, a), x)
  {
    hide HeldBy, Addresses;
    match a
    case Feed(w) => FeedIsBalanced(n, s, w, x);
    case Deliver(w) => DeliverIsBalanced(n, s, w, x);
    case Abandon(w) => AbandonIsBalanced(n, s, w, x);
    case Finish(w, result) => HeldAfter(s.workers, w, Reporting(s.workers[w].address, result), x);
    case Leave(w) => HeldAfter(s.workers, w, Exited, x);
    case _ =>
  }

  /** Steps that deliver nothing and leave no new report. */
  lemma QuietStepIsHonest(n: Subnet, s: State, a: Action)
    requires Enabled(n, s, a) && Honest(n, s) && !a.Finish? && !a.Deliver?
    ensures Honest(n, Next(n, s, a))
  {
    hide Answer, Devices;
    var t := Next(n, s, a);
    assert t.found == s.found && t.delivered == s.delivered;
    assert forall i :: 0 <= i < |s.workers| && t.workers[i].Reporting? ==> t.workers[i] == s.workers[i];
  }

  lemma FinishIsHonest(n: Subnet, s: State, w: nat, result: Option<Device>)
    requires Enabled(n, s, Finish(w, result)) && Honest(n, s)
    ensures Honest(n, Next(n, s, Finish(w, result)))
  {
    hide Answer, Devices;
    var t := Next(n, s, Finish(w, result));
    assert forall i :: 0 <= i < |s.workers| && i != w ==> t.workers[i] == s.workers[i];
  }

  lemma DevicesOfAppend(delivered: seq<Delivery>, d: Delivery)
    ensures Devices(delivered + [d]) == if d.result.Some? then Devices(delivered) + [d.result.value] else Devices(delivered)
  {
    assert (delivered + [d])[..|delivered|] == delivered;
  }

  lemma DeliverIsHonest(n: Subnet, s: State, w: nat)
    requires Enabled(n, s, Deliver(w)) && Honest(n, s)
    ensures Honest(n, Next(n, s, Deliver(w)))
  {
    var worker, t := s.workers[w], Next(n, s, Deliver(w));
    DevicesOfAppend(s.delivered, Delivery(worker.address, worker.result));
    hide Answer, Devices;
    assert forall i :: 0 <= i < |s.workers| && i != w ==> t.workers[i] == s.workers[i];
    assert forall i :: 0 <= i < |s.delivered| ==> t.delivered[i] == s.delivered[i];
  }

  lemma StepIsHonest(n: Subnet, s: State, a: Action)
    requires Enabled(n, s, a) && Honest(n, s)
    ensures Honest(n, Next(n, s, a))
  {
    hide Honest;
    match a
    case Finish(w, result) => FinishIsHonest(n, s, w, result);
    case Deliver(w) => DeliverIsHonest(n, s, w);
    case _ => QuietStepIsHonest(n, s, a);
  }

  lemma StepIsOrderly(n: Subnet, s: State, a: Action)
    requires Enabled(n, s, a) && Orderly(n, s)
    ensures Orderly(n, Next(n, s, a))
  {
  }

  /**
   * In every interleaving, cancelled or not: the addresses begun are the non-ignored ones up to a point, in order; each
   * is with a worker, delivered or (after a cancellation only) given up; and what was found is what was delivered.
   */
  lemma {:induction false} RunIsOrderly(n: Subnet, run: seq<Action>)
    requires After(n, run).Some?
    ensures var s := After(n, run).value; (forall x :: Balanced(s, x)) && InOrder(n, s) && Honest(n, s) && Orderly(n, s)
    decreases |run|
  {
    hide Balanced, InOrder, Honest, Orderly, Next, Enabled;
    if run == [] {
      InitialIsOrderly(n);
    } else {
      var before, a := run[..|run| - 1], run[|run| - 1];
      RunIsOrderly(n, before);
      var s := After(n, before).value;
      forall x
        ensures Balanced(Next(n, s, a), x)
      {
        StepIsBalanced(n, s, a, x);
      }
      StepIsInOrder(n, s, a);
      StepIsHonest(n, s, a);
      StepIsOrderly(n, s, a);
    }
  }

  lemma InitialIsOrderly(n: Subnet)
    ensures (forall x :: Balanced(Initial(n), x)) && InOrder(n, Initial(n)) && Honest(n, Initial(n)) && Orderly(n, Initial(n))
  {
    forall x
      ensures Balanced(Initial(n), x)
    {
      NoneHeld(Initial(n).workers, x);
    }
  }

  // ----- the outcome -----

  /** The devices that a list of addresses would answer with. */
  function Answering(n: Subnet, addresses: seq<Addr>): seq<Device> {
    if addresses == [] then []
    else
      var rest := Answering(n, addresses[1..]);
      if Answer(n, addresses[0]).Some? then [Answer(n, addresses[0]).value] + rest else rest
  }

  lemma {:induction false} AnsweringConcat(n: Subnet, a: seq<Addr>, b: seq<Addr>)
    ensures Answering(n, a + b) == Answering(n, a) + Answering(n, b)
  {
    if a == [] {
      assert a + b == b;
    } else {
      assert (a + b)[1..] == a[1..] + b;
      AnsweringConcat(n, a[1..], b);
    }
  }

  /** The order in which addresses are delivered does not matter. */
  lemma {:induction false} AnsweringPermutes(n: Subnet, a: seq<Addr>, b: seq<Addr>)
    requires multiset(a) == multiset(b)
    ensures multiset(Answering(n, a)) == multiset(Answering(n, b))
    decreases |a|
  {
    if a == [] {
      assert |b| == |multiset(b)|;
    } else {
      var x, y := HeadElsewhere(a, b);
      AnsweringPermutes(n, a[1..], x + y);
      AnsweringConcat(n, x, [a[0]] + y);
      AnsweringConcat(n, [a[0]], y);
      AnsweringConcat(n, x, y);
      AnsweringConcat(n, [a[0]], a[1..]);
      assert a == [a[0]] + a[1..];
    }
  }

  lemma {:induction false} DevicesAreAnswers(n: Subnet, delivered: seq<Delivery>)
    requires forall i :: 0 <= i < |delivered| ==> Truthful(n, false, delivered[i].address, delivered[i].result)
    ensures Devices(delivered) == Answering(n, Addresses(delivered))
  {
    if delivered != [] {
      var init, last := delivered[..|delivered| - 1], delivered[|delivered| - 1];
      DevicesAreAnswers(n, init);
      AnsweringConcat(n, Addresses(init), [last.address]);
      assert Answering(n, [last.address]) == if last.result.Some? then [last.result.value] else [];
    }
  }

  /** A scan that returns without being cancelled has probed every target once and returns what they answered, no more and no less. */
  lemma ScanIsExact(n: Subnet, run: seq<Action>)
    requires After(n, run).Some? && After(n, run).value.returned && !After(n, run).value.cancelled
    ensures var s := After(n, run).value;
      && s.begun == Targets(n.addresses, n.ignored)
      && multiset(Addresses(s.delivered)) == multiset(Targets(n.addresses, n.ignored))
      && multiset(s.found) == multiset(Answering(n, Targets(n.addresses, n.ignored)))
  {
    RunIsOrderly(n, run);
    var s := After(n, run).value;
    assert n.addresses[..|n.addresses|] == n.addresses;
    forall x
      ensures multiset(Addresses(s.delivered))[x] == multiset(Targets(n.addresses, n.ignored))[x]
    {
      assert Balanced(s, x);
      NoneHeld(s.workers, x);
    }
    assert multiset(Addresses(s.delivered)) == multiset(Targets(n.addresses, n.ignored));
    AnsweringPermutes(n, Addresses(s.delivered), Targets(n.addresses, n.ignored));
    DevicesAreAnswers(n, s.delivered);
  }

  lemma {:induction false} CountOfAnswering(n: Subnet, addresses: seq<Addr>, d: Device)
    ensures multiset(Answering(n, addresses))[d] == if Answer(n, d.address) == Some(d) then multiset(addresses)[d.address] else 0
  {
    if addresses != [] {
      FirstAnswerIsFirst(addresses[0], n.attempts(addresses[0]), 0);
      CountOfAnswering(n, addresses[1..], d);
      assert addresses == [addresses[0]] + addresses[1..];
    }
  }

  /** Over the distinct addresses of a CIDR: exactly one device for each address that is not ignored and answers, and nothing else. */
  lemma OneDevicePerAnsweringAddress(n: Subnet, run: seq<Action>, d: Device)
    requires After(n, run).Some? && After(n, run).value.returned && !After(n, run).value.cancelled
    requires Distinct(n.addresses)
    ensures multiset(After(n, run).value.found)[d] ==
            if d.address in n.addresses && d.address !in n.ignored && Answer(n, d.address) == Some(d) then 1 else 0
  {
    ScanIsExact(n, run);
    CountOfAnswering(n, Targets(n.addresses, n.ignored), d);
    TargetsAreTheRest(n.addresses, n.ignored, d.address);
  }

  lemma {:induction false} DevicesAreDelivered(delivered: seq<Delivery>, d: Device)
    requires d in Devices(delivered)
    ensures exists i :: 0 <= i < |delivered| && delivered[i].result == Some(d)
  {
    var init, last := delivered[..|delivered| - 1], delivered[|delivered| - 1];
    if last.result == Some(d) {
      assert delivered[|delivered| - 1].result == Some(d);
    } else {
      DevicesAreDelivered(init, d);
      var i :| 0 <= i < |init| && init[i].result == Some(d);
      assert delivered[i].result == Some(d);
    }
  }

  /** A cancelled scan may find less, but whatever it has found at any moment is some address's true answer. */
  lemma PartialScanIsSound(n: Subnet, run: seq<Action>, d: Device)
    requires After(n, run).Some? && d in After(n, run).value.found
    ensures exists a: Addr :: Answer(n, a) == Some(d)
  {
    RunIsOrderly(n, run);
    var s := After(n, run).value;
    DevicesAreDelivered(s.delivered, d);
    var i :| 0 <= i < |s.delivered| && s.delivered[i].result == Some(d);
    assert Answer(n, s.delivered[i].address) == Some(d);
  }

  // ----- progress -----

  /** Cancelled or not, a scan that has not returned can take a step of its own. */
  lemma NeverDeadlocks(n: Subnet, run: seq<Action>) returns (a: Action)
    requires After(n, run).Some? && !After(n, run).value.returned
    ensures Enabled(n, After(n, run).value, a) && !a.Cancel?
  {
    RunIsOrderly(n, run);
    var s := After(n, run).value;
    if w: nat :| w < |s.workers| && s.workers[w].Probing? {
      a := Finish(w, Answer(n, s.workers[w].address));
    } else if w: nat :| w < |s.workers| && s.workers[w].Reporting? {
      a := Deliver(w);
    } else if s.feeder.Feeding? {
      if s.feeder.next == |n.addresses| {
        a := CloseJobs;
      } else if n.addresses[s.feeder.next] in n.ignored {
        a := Skip;
      } else {
        a := if s.workers[0].Idle? then Feed(0) else FeederQuits;
      }
    } else if w: nat :| w < |s.workers| && s.workers[w].Idle? {
      a := Leave(w);
    } else {
      a := if s.resultsClosed then Return else CloseResults;
    }
  }

  function Effort(w: Worker): nat {
    match w
    case Probing(_) => 4
    case Reporting(_, _) => 3
    case Idle => 1
    case Exited => 0
  }

  function Efforts(workers: seq<Worker>): nat {
    if workers == [] then 0 else Efforts(workers[..|workers| - 1]) + Effort(workers[|workers| - 1])
  }

  lemma {:induction false} EffortsAfter(workers: seq<Worker>, w: nat, to: Worker)
    requires w < |workers|
    ensures Efforts(workers[w := to]) == Efforts(workers) - Effort(workers[w]) + Effort(to)
    decreases |workers|
  {
    var init := workers[..|workers| - 1];
    if w == |workers| - 1 {
      assert workers[w := to][..|workers| - 1] == init;
    } else {
      assert workers[w := to][..|workers| - 1] == init[w := to];
      EffortsAfter(init, w, to);
    }
  }

  lemma {:induction false} EffortsOfIdle(workers: seq<Worker>)
    requires forall i :: 0 <= i < |workers| ==> workers[i].Idle?
    ensures Efforts(workers) == |workers|
  {
    if workers != [] {
      EffortsOfIdle(workers[..|workers| - 1]);
    }
  }

  /** What is left to do, in steps. */
  function Remaining(n: Subnet, s: State): int {
    (if s.feeder.Feeding? then 4 * (|n.addresses| - s.feeder.next) + 1 else 0) + Efforts(s.workers)
    + (if s.resultsClosed then 0 else 1) + (if s.returned then 0 else 1) + (if s.cancelled then 0 else 1)
  }

  lemma StepIsProgress(n: Subnet, s: State, a: Action)
    requires Enabled(n, s, a) && InOrder(n, s)
    ensures 0 <= Remaining(n, Next(n, s, a)) < Remaining(n, s)
  {
    hide Efforts;
    if a.Feed? || a.Finish? || a.Deliver? || a.Abandon? || a.Leave? {
      EffortsAfter(s.workers, a.worker, Next(n, s, a).workers[a.worker]);
    }
  }

  /** No scan runs for ever: every run is shorter than this, whatever the interleaving. */
  lemma {:induction false} ScanEnds(n: Subnet, run: seq<Action>)
    requires After(n, run).Some?
    ensures |run| + Remaining(n, After(n, run).value) <= 4 * |n.addresses| + PoolSize(n) + 4
    ensures |run| <= 4 * |n.addresses| + PoolSize(n) + 4
    decreases |run|
  {
    hide Next, Enabled, Remaining, InOrder;
    if run == [] {
      InitialRemaining(n);
    } else {
      var before := run[..|run| - 1];
      ScanEnds(n, before);
      RunIsOrderly(n, before);
      StepIsProgress(n, After(n, before).value, run[|run| - 1]);
    }
  }

  lemma InitialRemaining(n: Subnet)
    ensures Remaining(n, Initial(n)) == 4 * |n.addresses| + PoolSize(n) + 4
  {
    EffortsOfIdle(Initial(n).workers);
  }

  // ----- the workers share the subnet -----

  /** The first addresses have been looked at, and each target among them has a worker of its own. */
  ghost predicate Spread(n: Subnet, s: State, next: nat) {
    && next <= |n.addresses| && s.feeder == Feeding(next) && s.begun == Targets(n.addresses[..next], n.ignored)
    && |s.workers| == (if n.workers > 0 then n.workers else 10) && |s.begun| <= |s.workers|
    && forall i :: 0 <= i < |s.workers| ==> s.workers[i] == if i < |s.begun| then Probing(s.begun[i]) else Idle
  }

  lemma SpreadOne(n: Subnet, s: State, next: nat) returns (a: Action)
    requires Spread(n, s, next) && next < |n.addresses|
    requires n.addresses[next] !in n.ignored ==> |s.begun| < |s.workers|
    ensures Enabled(n, s, a) && Spread(n, Next(n, s, a), next + 1)
  {
    assert n.addresses[..next + 1][..next] == n.addresses[..next];
    a := if n.addresses[next] in n.ignored then Skip else Feed(|s.begun|);
  }

  /**
   * The configured workers, ten when the setting is not positive, work side by side: as many targets as there are workers
   * can be under probe at once.
   */
  lemma {:induction false} WorkersShareTheSubnet(n: Subnet, next: nat) returns (run: seq<Action>)
    requires next <= |n.addresses| && |Targets(n.addresses[..next], n.ignored)| <= (if n.workers > 0 then n.workers else 10)
    ensures After(n, run).Some?
    ensures var targets, s := Targets(n.addresses[..next], n.ignored), After(n, run).value;
      && Spread(n, s, next)
      && forall i :: 0 <= i < |targets| ==> i < |s.workers| && s.workers[i] == Probing(targets[i])
  {
    hide Next, Enabled;
    if next == 0 {
      run := [];
    } else {
      assert n.addresses[..next][..next - 1] == n.addresses[..next - 1];
      var before := WorkersShareTheSubnet(n, next - 1);
      var a := SpreadOne(n, After(n, before).value, next - 1);
      run := before + [a];
      assert run[..|run| - 1] == before;
    }
  }
}
