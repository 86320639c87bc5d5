/** The device registry and its failure budget: internal/discovery/registry.go. */
module Registry {
  import opened Collections
  import opened Order
  import opened Wrappers

  datatype Device = Device(id: string, address: string, port: nat, subnet: string, authIndex: int,
                           sysObjectID: string, profileName: string, failures: nat, isStatic: bool, lastSeen: int)

  type Devices = map<string, Device>

  /** Everything that happens to a registry, in the order its lock admits it. */
  datatype Op =
    | Upsert(dev: Device)
    | SetProfile(target: string, sysObjectID: string, profileName: string)
    | MarkSuccess(target: string, at: int)
    | MarkFailure(target: string)
    | Remove(target: string)

  function TargetOf(op: Op): string {
    if op.Upsert? then op.dev.id else op.target
  }

  function Or(a: string, b: string): string {
    if a != "" then a else b
  }

  function Refreshed(existing: Device, dev: Device): Device {
    existing.(address := dev.address, port := dev.port, authIndex := dev.authIndex, lastSeen := dev.lastSeen, failures := 0,
          sysObjectID := Or(dev.sysObjectID, existing.sysObjectID), profileName := Or(dev.profileName, existing.profileName),
          subnet := Or(dev.subnet, existing.subnet), isStatic := existing.isStatic || dev.isStatic)
  }

  function Drops(devices: Devices, allowed: nat, id: string): bool {
    id in devices && !devices[id].isStatic && devices[id].failures + 1 > allowed
  }

  function Apply(devices: Devices, allowed: nat, op: Op): Devices {
    match op
    case Upsert(dev) =>
      devices[dev.id := if dev.id in devices then Refreshed(devices[dev.id], dev) else dev.(failures := 0)]
    case SetProfile(id, sysObjectID, profileName) =>
      if id in devices then devices[id := devices[id].(sysObjectID := sysObjectID, profileName := profileName)] else devices
    case MarkSuccess(id, at) =>
      if id in devices then devices[id := devices[id].(failures := 0, lastSeen := at)] else devices
    case MarkFailure(id) =>
      if id !in devices then devices
      else if Drops(devices, allowed, id) then devices - {id}
      else devices[id := devices[id].(failures := devices[id].failures + 1)]
    case Remove(id) => devices - {id}
  }

  function Run(devices: Devices, allowed: nat, ops: seq<Op>): Devices {
    if ops == [] then devices else Apply(Run(devices, allowed, ops[..|ops| - 1]), allowed, ops[|ops| - 1])
  }

  ghost predicate Keyed(devices: Devices) {
    forall id :: id in devices ==> devices[id].id == id
  }

  // ----- the failure budget -----

  /** Failures of a device since its last success or upsert. */
  function Streak(ops: seq<Op>, id: string): nat {
    if ops == [] then 0
    else
      var op := ops[|ops| - 1];
      if TargetOf(op) != id then Streak(ops[..|ops| - 1], id)
      else if op.MarkFailure? then Streak(ops[..|ops| - 1], id) + 1
      else if op.SetProfile? then Streak(ops[..|ops| - 1], id)
      else 0
  }

  /** Some upsert called the device static, and it has not been removed since. */
  function Pinned(ops: seq<Op>, id: string): bool {
    if ops == [] then false
    else
      var before, op := ops[..|ops| - 1], ops[|ops| - 1];
      if TargetOf(op) != id then Pinned(before, id)
      else match op
        case Upsert(dev) => dev.isStatic || Pinned(before, id)
        case Remove(_) => false
        case _ => Pinned(before, id)
  }

  /** Some upsert up to now registered the device, and nothing since has taken it away. */
  function Present(ops: seq<Op>, allowed: nat, id: string): bool {
    if ops == [] then false
    else
      var before, op := ops[..|ops| - 1], ops[|ops| - 1];
      if TargetOf(op) != id then Present(before, allowed, id)
      else match op
        case Upsert(_) => true
        case Remove(_) => false
        case MarkFailure(_) => Present(before, allowed, id) && (Pinned(before, id) || Streak(before, id) + 1 <= allowed)
        case _ => Present(before, allowed, id)
  }

  /**
   * Over any run from an empty registry: the registry holds exactly the devices that the history registers and has not
   * dropped; a held device's counter is its number of consecutive failures since the last success or upsert, and it
   * is static exactly when the history says so.
   */
  lemma {:induction false} CounterIsStreak(ops: seq<Op>, allowed: nat, id: string)
    ensures var devices := Run(map[], allowed, ops);
      && Keyed(devices)
      && (id in devices <==> Present(ops, allowed, id))
      && (Pinned(ops, id) ==> id in devices)
      && (id in devices ==> devices[id].failures == Streak(ops, id) && devices[id].isStatic == Pinned(ops, id))
    decreases |ops|
  {
    if ops != [] {
      CounterIsStreak(ops[..|ops| - 1], allowed, id);
    }
  }

  /**
   * A discovered device is dropped by exactly the failure that exceeds the budget; a static one by none. Before the
   * drop its counter never exceeds the budget.
   */
  lemma DroppedOnFailureBeyondBudget(ops: seq<Op>, allowed: nat, id: string)
    ensures var devices := Run(map[], allowed, ops);
      id in devices ==>
        && (Drops(devices, allowed, id) <==> !Pinned(ops, id) && Streak(ops, id) == allowed)
        && (id !in Apply(devices, allowed, MarkFailure(id)) <==> Drops(devices, allowed, id))
  {
    CounterIsStreak(ops, allowed, id);
    BudgetIsKept(ops, allowed, id);
  }

  lemma {:induction false} BudgetIsKept(ops: seq<Op>, allowed: nat, id: string)
    ensures var devices := Run(map[], allowed, ops);
      id in devices && !devices[id].isStatic ==> devices[id].failures <= allowed
    decreases |ops|
  {
    if ops != [] {
      BudgetIsKept(ops[..|ops| - 1], allowed, id);
    }
  }

  /** What an operation says of a device's profile, and of its sysObjectID. */
  function ProfileIn(op: Op): Option<string> {
    match op
    case Upsert(dev) => Some(dev.profileName)
    case SetProfile(_, _, profileName) => Some(profileName)
    case _ => None
  }

  function ObjectIDIn(op: Op): Option<string> {
    match op
    case Upsert(dev) => Some(dev.sysObjectID)
    case SetProfile(_, sysObjectID, _) => Some(sysObjectID)
    case _ => None
  }

  function SubnetIn(op: Op): Option<string> {
    match op
    case Upsert(dev) => Some(dev.subnet)
    case _ => None
  }

  /** What was last said of a device: an upsert that says nothing does not take back what is known of a held device. */
  function LastSaid(ops: seq<Op>, allowed: nat, id: string, part: Op -> Option<string>): string {
    if ops == [] then ""
    else
      var before, op := ops[..|ops| - 1], ops[|ops| - 1];
      if TargetOf(op) != id || part(op).None? then LastSaid(before, allowed, id, part)
      else if op.Upsert? then
        if part(op).value != "" || !Present(before, allowed, id) then part(op).value else LastSaid(before, allowed, id, part)
      else
        if Present(before, allowed, id) then part(op).value else LastSaid(before, allowed, id, part)
  }

  /** The last upsert of a device. */
  function LastUpsert(ops: seq<Op>, id: string): Option<Device> {
    if ops == [] then None
    else
      var op := ops[|ops| - 1];
      if op.Upsert? && op.dev.id == id then Some(op.dev) else LastUpsert(ops[..|ops| - 1], id)
  }

  /** When a device was last heard of, by an upsert or, once registered, by a success. */
  function LastHeard(ops: seq<Op>, allowed: nat, id: string): int {
    if ops == [] then 0
    else
      var before, op := ops[..|ops| - 1], ops[|ops| - 1];
      if op.Upsert? && op.dev.id == id then op.dev.lastSeen
      else if op.MarkSuccess? && op.target == id && Present(before, allowed, id) then op.at
      else LastHeard(before, allowed, id)
  }

  /**
   * A rediscovery under another credential, address or port takes effect at once: a held device is reached as its last
   * upsert says, and was last seen when last heard of.
   */
  lemma {:induction false} ReachedAsLastUpserted(ops: seq<Op>, allowed: nat, id: string)
    requires id in Run(map[], allowed, ops)
    ensures var dev, last := Run(map[], allowed, ops)[id], LastUpsert(ops, id);
      && last.Some? && dev.address == last.value.address && dev.port == last.value.port && dev.authIndex == last.value.authIndex
      && dev.lastSeen == LastHeard(ops, allowed, id)
    decreases |ops|
  {
    var before := ops[..|ops| - 1];
    CounterIsStreak(before, allowed, id);
    hide Present, Pinned, Streak;
    if id in Run(map[], allowed, before) {
      ReachedAsLastUpserted(before, allowed, id);
    }
  }

  /** A held device's identity, profile and subnet are the last ones said since it was registered. */
  lemma {:induction false} IdentityIsLastSaid(ops: seq<Op>, allowed: nat, id: string)
    requires id in Run(map[], allowed, ops)
    ensures Run(map[], allowed, ops)[id].profileName == LastSaid(ops, allowed, id, ProfileIn)
    ensures Run(map[], allowed, ops)[id].sysObjectID == LastSaid(ops, allowed, id, ObjectIDIn)
    ensures Run(map[], allowed, ops)[id].subnet == LastSaid(ops, allowed, id, SubnetIn)
    decreases |ops|
  {
    var before := ops[..|ops| - 1];
    CounterIsStreak(before, allowed, id);
    hide Present, Pinned, Streak;
    if id in Run(map[], allowed, before) {
      IdentityIsLastSaid(before, allowed, id);
    }
  }

  // ----- persistence -----

  function Discovered(devices: Devices): set<string> {
    set id | id in devices && !devices[id].isStatic
  }

  function Records(devices: Devices, ids: seq<string>): (r: seq<Device>)
    requires forall id :: id in ids ==> id in devices
    ensures |r| == |ids| && forall i :: 0 <= i < |ids| ==> r[i] == devices[ids[i]]
  {
    seq(|ids|, i requires 0 <= i < |ids| => devices[ids[i]])
  }

  /** Save: the discovered devices in ID order. */
  function Saved(devices: Devices): seq<Device> {
    Records(devices, SortedKeys(Discovered(devices)))
  }

  /** Load: each record under its ID. */
  function Loaded(devices: Devices, record: seq<Device>): Devices
    decreases |record|
  {
    if record == [] then devices else Loaded(devices[record[0].id := record[0]], record[1..])
  }

  function Chosen(devices: Devices, ids: seq<string>): Devices
    requires forall id :: id in ids ==> id in devices
  {
    map id | id in ids :: devices[id]
  }

  lemma ChosenCons(devices: Devices, ids: seq<string>)
    requires ids != [] && forall id :: id in ids ==> id in devices
    ensures Chosen(devices, ids) == map[ids[0] := devices[ids[0]]] + Chosen(devices, ids[1..])
  {
    assert forall id :: id in ids <==> id == ids[0] || id in ids[1..];
  }

  /** A record is put under its ID, whatever was there. */
  lemma {:induction false} LoadedRecords(base: Devices, devices: Devices, ids: seq<string>)
    requires Keyed(devices) && forall id :: id in ids ==> id in devices
    ensures Loaded(base, Records(devices, ids)) == base + Chosen(devices, ids)
    decreases |ids|
  {
    hide Chosen;
    if ids == [] {
      ChosenNone(devices);
      assert base + map[] == base;
    } else {
      var h, rest := ids[0], ids[1..];
      assert h in ids && forall id :: id in rest ==> id in ids;
      assert Records(devices, ids)[1..] == Records(devices, rest);
      LoadedRecords(base[h := devices[h]], devices, rest);
      ChosenCons(devices, ids);
      MapAssociative(base, map[h := devices[h]], Chosen(devices, rest));
      assert base[h := devices[h]] == base + map[h := devices[h]];
    }
  }

  lemma ChosenNone(devices: Devices)
    ensures Chosen(devices, []) == map[]
  {
  }

  lemma SavedInOrder(devices: Devices)
    requires Keyed(devices)
    ensures var saved := Saved(devices);
      forall i, j :: 0 <= i < j < |saved| ==> TextLe(saved[i].id, saved[j].id) && saved[i].id != saved[j].id
  {
    hide TextLe;
    var ids, saved := SortedKeys(Discovered(devices)), Saved(devices);
    forall i | 0 <= i < |ids|
      ensures saved[i].id == ids[i]
    {
      assert ids[i] in ids;
    }
    forall i, j | 0 <= i < j < |saved|
      ensures TextLe(saved[i].id, saved[j].id) && saved[i].id != saved[j].id
    {
      assert TextLe(ids[i], ids[j]) && ids[i] != ids[j];
    }
  }

  /** Loading a saved record into a fresh registry gives back exactly the devices that are not static, counters included. */
  lemma LoadAfterSave(devices: Devices)
    requires Keyed(devices)
    ensures Loaded(map[], Saved(devices)) == map id | id in devices && !devices[id].isStatic :: devices[id]
  {
    hide SortedKeys;
    var ids := SortedKeys(Discovered(devices));
    LoadedRecords(map[], devices, ids);
    assert Chosen(devices, ids) == map id | id in Discovered(devices) :: devices[id];
  }

  /**
   * `after` is the registry as it went on, `restarted` the one rebuilt from a save: they agree on every device that is
   * not static. (Static devices come back from configuration.)
   */
  ghost predicate AgreeOnDiscovered(after: Devices, restarted: Devices) {
    forall id :: !(id in after && after[id].isStatic) ==>
      (id in after <==> id in restarted) && (id in after ==> after[id] == restarted[id])
  }

  lemma RestartAgrees(devices: Devices)
    requires Keyed(devices)
    ensures AgreeOnDiscovered(devices, Loaded(map[], Saved(devices)))
  {
    LoadAfterSave(devices);
  }

  lemma ApplyAgrees(a: Devices, b: Devices, allowed: nat, op: Op)
    requires AgreeOnDiscovered(a, b)
    ensures AgreeOnDiscovered(Apply(a, allowed, op), Apply(b, allowed, op))
    ensures op.MarkFailure? && !(op.target in a && a[op.target].isStatic) ==> (Drops(a, allowed, op.target) <==> Drops(b, allowed, op.target))
  {
  }

  /**
   * Restart transparency. Put a save and a load into a fresh registry with the same budget anywhere in a run: whatever
   * happens afterwards, both registries agree on every discovered device, and every later failure drops a device that
   * is not static in the one exactly when it does in the other.
   */
  lemma {:induction false} RestartIsTransparent(before: seq<Op>, after: seq<Op>, allowed: nat)
    ensures var devices := Run(map[], allowed, before);
      var ongoing, restarted := Run(devices, allowed, after), Run(Loaded(map[], Saved(devices)), allowed, after);
      && AgreeOnDiscovered(ongoing, restarted)
      && forall id :: !(id in ongoing && ongoing[id].isStatic) ==> (Drops(ongoing, allowed, id) <==> Drops(restarted, allowed, id))
    decreases |after|
  {
    hide Saved, Loaded, Apply, AgreeOnDiscovered;
    var devices := Run(map[], allowed, before);
    if after == [] {
      CounterIsStreak(before, allowed, "");
      RestartAgrees(devices);
    } else {
      var init, op := after[..|after| - 1], after[|after| - 1];
      RestartIsTransparent(before, init, allowed);
      ApplyAgrees(Run(devices, allowed, init), Run(Loaded(map[], Saved(devices)), allowed, init), allowed, op);
    }
  }

  // ----- the registry itself -----

  /** The storage extension's one record. */
  class Storage {
    var record: seq<Device>

    constructor ()
      ensures record == []
    {
      record := [];
    }
  }

  class DeviceRegistry {
    var devices: Devices
    const allowedFailures: nat

    constructor (allowed: int)
      ensures devices == map[] && allowedFailures == if allowed < 0 then 0 else allowed
    {
      devices := map[];
      allowedFailures := if allowed < 0 then 0 else allowed;
    }

    /** A device was found, again or for the first time. */
    method Upsert(dev: Device)
      modifies this
      ensures devices == Apply(old(devices), allowedFailures, Op.Upsert(dev))
    {
      if dev.id in devices {
        var existing := devices[dev.id];
        existing := existing.(address := dev.address, port := dev.port, authIndex := dev.authIndex);
        existing := existing.(lastSeen := dev.lastSeen, failures := 0);
        if dev.sysObjectID != "" {
          existing := existing.(sysObjectID := dev.sysObjectID);
        }
        if dev.profileName != "" {
          existing := existing.(profileName := dev.profileName);
        }
        if dev.subnet != "" {
          existing := existing.(subnet := dev.subnet);
        }
        existing := existing.(isStatic := existing.isStatic || dev.isStatic);
        devices := devices[dev.id := existing];
      } else {
        devices := devices[dev.id := dev.(failures := 0)];
      }
    }

    method SetProfile(id: string, sysObjectID: string, profileName: string)
      modifies this
      ensures devices == Apply(old(devices), allowedFailures, Op.SetProfile(id, sysObjectID, profileName))
    {
      if id in devices {
        devices := devices[id := devices[id].(sysObjectID := sysObjectID, profileName := profileName)];
      }
    }

    method MarkSuccess(id: string, at: int)
      modifies this
      ensures devices == Apply(old(devices), allowedFailures, Op.MarkSuccess(id, at))
    {
      if id in devices {
        devices := devices[id := devices[id].(failures := 0, lastSeen := at)];
      }
    }

    /** One more failure in a row; tells whether it was the last one allowed. */
    method MarkFailure(id: string) returns (dropped: bool)
      modifies this
      ensures devices == Apply(old(devices), allowedFailures, Op.MarkFailure(id))
      ensures dropped == Drops(old(devices), allowedFailures, id)
    {
      if id !in devices {
        return false;
      }
      var dev := devices[id];
      dev := dev.(failures := dev.failures + 1);
      devices := devices[id := dev];
      if dev.isStatic || dev.failures <= allowedFailures {
        return false;
      }
      devices := devices - {id};
      return true;
    }

    method Remove(id: string)
      modifies this
      ensures devices == Apply(old(devices), allowedFailures, Op.Remove(id))
    {
      devices := devices - {id};
    }

    /** Write the record, in ID order and without the static devices. */
    method Save(store: Storage)
      modifies store
      ensures store.record == Saved(devices)
    {
      hide SortedKeys;
      var ids := SortedKeys(Discovered(devices));
      var out: seq<Device> := [];
      var i := 0;
      while i < |ids|
        invariant 0 <= i <= |ids|
        invariant out == Records(devices, ids)[..i]
      {
        assert ids[i] in ids;
        out := out + [devices[ids[i]]];
        i := i + 1;
      }
      store.record := out;
    }

    method Load(store: Storage) returns (count: nat)
      modifies this
      ensures devices == Loaded(old(devices), store.record) && count == |store.record|
    {
      var i := 0;
      while i < |store.record|
        invariant 0 <= i <= |store.record|
        invariant Loaded(devices, store.record[i..]) == Loaded(old(devices), store.record)
      {
        assert store.record[i..][1..] == store.record[i + 1..];
        devices := devices[store.record[i].id := store.record[i]];
        i := i + 1;
      }
      return |store.record|;
    }
  }
}
