/** Attach/detach detection with flap suppression: one scan compared with what is known. */
module Scanner {
  import opened Bytes

  /** A known device is gone after this many consecutive successful scans without its port. */
  const DETACH_AFTER_MISSES: nat := 2

  /** Bus and address: address numbers are unique per bus only. */
  type Port = (byte, byte)

  datatype UsbDevice = UsbDevice(id: nat, udid: string, productId: u16, port: Port)

  /** `udid` is absent when the device is present and its serial could not be read. */
  datatype Observation = Observation(port: Port, productId: u16, udid: Option<string>)

  datatype Change = Attached(device: UsbDevice) | Detached(id: nat)

  datatype Known = Known(devices: map<nat, UsbDevice>, misses: map<Port, nat>, nextId: nat)

  function PortsOf(current: seq<Observation>): set<Port> {
    set i | 0 <= i < |current| :: current[i].port
  }

  function Misses(k: Known, port: Port): nat {
    if port in k.misses then k.misses[port] else 0
  }

  // ---- reachable scanner states ------------------------------------------------

  /** Known devices sit at pairwise distinct ports, under ids already handed out; a miss counter
      belongs to a known device and has not reached the limit. */
  ghost predicate Valid(k: Known) {
    && (forall id :: id in k.devices ==> k.devices[id].id == id && id < k.nextId)
    && (forall a, b :: a in k.devices && b in k.devices && k.devices[a].port == k.devices[b].port ==> a == b)
    && (forall q :: q in k.misses ==>
           1 <= k.misses[q] < DETACH_AFTER_MISSES && exists id :: id in k.devices && k.devices[id].port == q)
  }

  // ---- one observation ------------------------------------------------------------

  ghost predicate Occupied(devices: map<nat, UsbDevice>, port: Port) {
    exists id :: id in devices && devices[id].port == port
  }

  ghost function IdAt(devices: map<nat, UsbDevice>, port: Port): (id: nat)
    requires Occupied(devices, port)
    ensures id in devices && devices[id].port == port
  {
    var id :| id in devices && devices[id].port == port;
    id
  }

  datatype Outcome = Outcome(known: Known, changes: seq<Change>)

  function AttachAs(k: Known, o: Observation, udid: string): Known {
    var device := UsbDevice(k.nextId, udid, o.productId, o.port);
    k.(devices := k.devices[k.nextId := device], nextId := k.nextId + 1)
  }

  /** The effect of one observation: attach, replace, or confirm. */
  ghost function Observe(k: Known, o: Observation): Outcome {
    var seen := k.(misses := k.misses - {o.port});
    if o.udid.None? then Outcome(seen, [])
    else if !Occupied(k.devices, o.port) then
      var after := AttachAs(seen, o, o.udid.value);
      Outcome(after, [Attached(after.devices[k.nextId])])
    else
      var old' := IdAt(k.devices, o.port);
      if k.devices[old'].udid == o.udid.value then Outcome(seen, [])
      else
        var after := AttachAs(seen.(devices := k.devices - {old'}), o, o.udid.value);
        Outcome(after, [Detached(old'), Attached(after.devices[k.nextId])])
  }

  ghost function ObserveAll(k: Known, current: seq<Observation>): Outcome {
    if current == [] then Outcome(k, [])
    else
      var before := ObserveAll(k, current[..|current| - 1]);
      var last := Observe(before.known, current[|current| - 1]);
      Outcome(last.known, before.changes + last.changes)
  }

  // ---- the absence part, in closed form ----------------------------------------------

  /** Devices whose miss count reaches the limit with this scan. */
  ghost function Gone(k: Known, present: set<Port>): set<nat> {
    set id | id in k.devices && k.devices[id].port !in present
             && Misses(k, k.devices[id].port) + 1 >= DETACH_AFTER_MISSES
  }

  /** Ports of absent devices that are given another chance. */
  ghost function Waiting(k: Known, present: set<Port>): set<Port> {
    set id | id in k.devices && k.devices[id].port !in present
             && Misses(k, k.devices[id].port) + 1 < DETACH_AFTER_MISSES :: k.devices[id].port
  }

  ghost function Absences(k: Known, present: set<Port>): map<Port, nat> {
    map q | q in Waiting(k, present) :: Misses(k, q) + 1
  }

  /** The whole scan: everything after it is determined by what was known and what was seen. */
  ghost function Scan(k: Known, current: seq<Observation>): Known {
    var mid := ObserveAll(k, current).known;
    Known(mid.devices - Gone(mid, PortsOf(current)), Absences(mid, PortsOf(current)), mid.nextId)
  }

  ghost predicate Enumerates(tail: seq<Change>, ids: set<nat>) {
    && (forall i :: 0 <= i < |tail| ==> tail[i].Detached? && tail[i].id in ids)
    && (forall i, j :: 0 <= i < j < |tail| ==> tail[i] != tail[j])
    && (forall id :: id in ids ==> Detached(id) in tail)
  }

  /** The change lists a scan may return: only the order of the absence detaches is open. */
  ghost predicate ChangesOf(k: Known, current: seq<Observation>, changes: seq<Change>) {
    var mid := ObserveAll(k, current);
    && mid.changes <= changes
    && Enumerates(changes[|mid.changes|..], Gone(mid.known, PortsOf(current)))
  }

  // ---- invariants ----------------------------------------------------------------------

  /** Taking a device out and forgetting its port's misses keeps the invariant. */
  lemma ForgetValid(k: Known, port: Port, ids: set<nat>)
    requires Valid(k) && forall id :: id in ids && id in k.devices ==> k.devices[id].port == port
    ensures Valid(k.(misses := k.misses - {port}, devices := k.devices - ids))
  {
    var k' := k.(misses := k.misses - {port}, devices := k.devices - ids);
    forall q | q in k'.misses ensures exists id :: id in k'.devices && k'.devices[id].port == q {
      var id :| id in k.devices && k.devices[id].port == q;
      assert id in k'.devices && k'.devices[id].port == q;
    }
  }

  /** Attaching at a free port keeps the invariant. */
  lemma AttachValid(k: Known, o: Observation, udid: string)
    requires Valid(k) && !Occupied(k.devices, o.port)
    ensures Valid(AttachAs(k, o, udid))
  {
    var k' := AttachAs(k, o, udid);
    assert k.nextId !in k.devices;
    forall q | q in k'.misses ensures exists id :: id in k'.devices && k'.devices[id].port == q {
      var id :| id in k.devices && k.devices[id].port == q;
      assert id in k'.devices && k'.devices[id].port == q;
    }
  }

  lemma ObserveValid(k: Known, o: Observation)
    requires Valid(k)
    ensures Valid(Observe(k, o).known) && o.port !in Observe(k, o).known.misses
  {
    ForgetValid(k, o.port, {});
    assert k.devices - {} == k.devices;
    var seen := k.(misses := k.misses - {o.port});
    if o.udid.Some? {
      if !Occupied(k.devices, o.port) {
        AttachValid(seen, o, o.udid.value);
      } else {
        var old' := IdAt(k.devices, o.port);
        ForgetValid(k, o.port, {old'});
        var without := seen.(devices := k.devices - {old'});
        assert !Occupied(without.devices, o.port);
        AttachValid(without, o, o.udid.value);
      }
    }
  }

  lemma {:induction false} ObserveAllValid(k: Known, current: seq<Observation>)
    requires Valid(k)
    ensures var mid := ObserveAll(k, current).known;
      && Valid(mid) && k.nextId <= mid.nextId
      && (forall q :: q in PortsOf(current) ==> q !in mid.misses)
      && (forall q :: q !in PortsOf(current) ==> Misses(mid, q) == Misses(k, q))
      && (forall id :: id in mid.devices && mid.devices[id].port !in PortsOf(current) ==>
             id in k.devices && k.devices[id] == mid.devices[id])
      && (forall id :: id in k.devices && k.devices[id].port !in PortsOf(current) ==>
             id in mid.devices && mid.devices[id] == k.devices[id])
  {
    if current != [] {
      var init, o := current[..|current| - 1], current[|current| - 1];
      ObserveAllValid(k, init);
      ObserveValid(ObserveAll(k, init).known, o);
      ObserveElsewhere(ObserveAll(k, init).known, o);
      PortsSnoc(init, o);
      assert current == init + [o];
      hide Observe, Valid, PortsOf;
    }
  }

  /** An observation touches its own port only. */
  lemma ObserveElsewhere(k: Known, o: Observation)
    requires Valid(k)
    ensures var k' := Observe(k, o).known;
      && k.nextId <= k'.nextId
      && (forall q :: q != o.port ==> (q in k'.misses <==> q in k.misses) && Misses(k', q) == Misses(k, q))
      && (forall id :: id in k'.devices && k'.devices[id].port != o.port ==>
             id in k.devices && k.devices[id] == k'.devices[id])
      && (forall id :: id in k.devices && k.devices[id].port != o.port ==>
             id in k'.devices && k'.devices[id] == k.devices[id])
  {
    assert k.nextId !in k.devices;
    var k' := Observe(k, o).known;
    assert k'.misses == k.misses - {o.port};
    if o.udid.None? || (Occupied(k.devices, o.port) && k.devices[IdAt(k.devices, o.port)].udid == o.udid.value) {
      assert k'.devices == k.devices;
    } else {
      assert k'.devices[k.nextId].port == o.port;
    }
  }

  lemma PortsSnoc(init: seq<Observation>, o: Observation)
    ensures PortsOf(init + [o]) == PortsOf(init) + {o.port}
  {
    var all := init + [o];
    forall q | q in PortsOf(init) + {o.port} ensures q in PortsOf(all) {
      if q == o.port {
        assert all[|init|].port == q;
      } else {
        var i :| 0 <= i < |init| && init[i].port == q;
        assert all[i].port == q;
      }
    }
  }

  /** Every scan keeps the invariant, duplicate observations included. */
  lemma ScanValid(k: Known, current: seq<Observation>)
    requires Valid(k)
    ensures Valid(Scan(k, current))
  {
    ObserveAllValid(k, current);
    var mid, k' := ObserveAll(k, current).known, Scan(k, current);
    forall q | q in k'.misses
      ensures 1 <= k'.misses[q] < DETACH_AFTER_MISSES && exists id :: id in k'.devices && k'.devices[id].port == q
    {
      assert q in Waiting(mid, PortsOf(current));
      var id :| id in mid.devices && mid.devices[id].port == q && q !in PortsOf(current)
                && Misses(mid, q) + 1 < DETACH_AFTER_MISSES;
      assert id in k'.devices && k'.devices[id].port == q;
    }
  }

  /** The miss count a scan leaves for the port of a known device. */
  ghost function NewMisses(k: Known, present: set<Port>, id: nat): nat
    requires id in k.devices
  {
    if k.devices[id].port in present || id in Gone(k, present) then 0 else Misses(k, k.devices[id].port) + 1
  }

  /** One turn of the absence loop. */
  ghost function AbsentStep(k: Known, present: set<Port>, id: nat): Known
    requires id in k.devices
  {
    var port := k.devices[id].port;
    var misses := Misses(k, port) + 1;
    if port in present then k
    else if misses >= DETACH_AFTER_MISSES then
        k.(devices := k.devices - {id}, misses := k.misses[port := misses] - {port})
    else k.(misses := k.misses[port := misses])
  }

  /** The absence loop with the devices in `ids` still to go. */
  ghost predicate Halfway(was: Known, present: set<Port>, ids: set<nat>, k: Known) {
    && k.nextId == was.nextId
    && (forall id :: id in k.devices <==> id in was.devices && (id in ids || id !in Gone(was, present)))
    && (forall id :: id in k.devices ==> k.devices[id] == was.devices[id])
    && (forall id :: id in was.devices ==>
          Misses(k, was.devices[id].port) == if id in ids then
              Misses(was, was.devices[id].port) else NewMisses(was, present, id))
    && (forall q :: q in k.misses ==> k.misses[q] >= 1 && Occupied(was.devices, q))
  }

  lemma HalfwayStart(k: Known, present: set<Port>)
    requires Valid(k)
    ensures Halfway(k, present, k.devices.Keys, k) && Enumerates([], Gone(k, present) - k.devices.Keys)
  {
  }

  lemma HalfwayStep(was: Known, present: set<Port>, ids: set<nat>, k: Known, id: nat)
    requires Valid(was) && Halfway(was, present, ids, k) && id in ids && ids <= was.devices.Keys
    requires forall q :: q in present ==> q !in was.misses
    ensures id in k.devices && k.devices[id] == was.devices[id]
    ensures Halfway(was, present, ids - {id}, AbsentStep(k, present, id))
    ensures id in Gone(was, present) <==>
            was.devices[id].port !in present && Misses(k, was.devices[id].port) + 1 >= DETACH_AFTER_MISSES
  {
    HalfwayDevices(was, present, ids, k, id);
    HalfwayCounters(was, present, ids, k, id);
    var k' := AbsentStep(k, present, id);
    forall x | x in was.devices
      ensures Misses(k', was.devices[x].port)
           == if x in ids - {id} then Misses(was, was.devices[x].port) else NewMisses(was, present, x)
    {
      HalfwayMisses(was, present, ids, k, id, x);
    }
    hide Valid, Gone, Misses, NewMisses, AbsentStep, Occupied;
  }

  /** Which devices are left after one turn of the absence loop. */
  lemma HalfwayDevices(was: Known, present: set<Port>, ids: set<nat>, k: Known, id: nat)
    requires Halfway(was, present, ids, k) && id in ids && ids <= was.devices.Keys
    ensures id in k.devices && k.devices[id] == was.devices[id]
    ensures id in Gone(was, present) <==>
            was.devices[id].port !in present && Misses(k, was.devices[id].port) + 1 >= DETACH_AFTER_MISSES
    ensures var k' := AbsentStep(k, present, id);
      && k'.nextId == was.nextId
      && (forall x :: x in k'.devices <==> x in was.devices && (x in ids - {id} || x !in Gone(was, present)))
      && (forall x :: x in k'.devices ==> k'.devices[x] == was.devices[x])
  {
    var k' := AbsentStep(k, present, id);
    var port := was.devices[id].port;
    assert Misses(k, port) == Misses(was, port);
    assert k'.devices == if id in Gone(was, present) then k.devices - {id} else k.devices;
    hide AbsentStep, Misses, Gone, NewMisses, Occupied;
  }

  /** Which counters are left after one turn of the absence loop. */
  lemma HalfwayCounters(was: Known, present: set<Port>, ids: set<nat>, k: Known, id: nat)
    requires Halfway(was, present, ids, k) && id in ids && ids <= was.devices.Keys && id in k.devices
    ensures forall q :: q in AbsentStep(k, present, id).misses ==>
              AbsentStep(k, present, id).misses[q] >= 1 && Occupied(was.devices, q)
  {
    hide Gone, NewMisses;
    assert Occupied(was.devices, was.devices[id].port);
  }

  /** The miss count of any device after one turn of the absence loop. */
  lemma HalfwayMisses(was: Known, present: set<Port>, ids: set<nat>, k: Known, id: nat, x: nat)
    requires Valid(was) && Halfway(was, present, ids, k) && id in ids && ids <= was.devices.Keys
    requires forall q :: q in present ==> q !in was.misses
    requires id in k.devices && x in was.devices
    ensures Misses(AbsentStep(k, present, id), was.devices[x].port)
         == if x in ids - {id} then Misses(was, was.devices[x].port) else NewMisses(was, present, x)
  {
    var k', port := AbsentStep(k, present, id), was.devices[id].port;
    if x != id {
      assert was.devices[x].port != port;
      assert Misses(k', was.devices[x].port) == Misses(k, was.devices[x].port);
    }
  }

  lemma HalfwayDone(was: Known, present: set<Port>, k: Known)
    requires Valid(was) && Halfway(was, present, {}, k)
    ensures k == Known(was.devices - Gone(was, present), Absences(was, present), was.nextId)
  {
    HalfwayNext(was, present, k);
    hide Halfway, Valid, Waiting, Gone, Misses, Absences;
    forall q
      ensures q in k.misses <==> q in Waiting(was, present)
      ensures q in k.misses ==> k.misses[q] == Misses(was, q) + 1
    {
      DoneAt(was, present, k, q);
    }
    AreAbsences(was, present, k.misses);
  }

  lemma AreAbsences(k: Known, present: set<Port>, m: map<Port, nat>)
    requires forall q :: q in m <==> q in Waiting(k, present)
    requires forall q :: q in m ==> m[q] == Misses(k, q) + 1
    ensures m == Absences(k, present)
  {
    hide Waiting, Misses;
  }

  lemma HalfwayNext(was: Known, present: set<Port>, k: Known)
    requires Halfway(was, present, {}, k)
    ensures k.nextId == was.nextId && k.devices == was.devices - Gone(was, present)
  {
  }

  lemma DoneAt(was: Known, present: set<Port>, k: Known, q: Port)
    requires Valid(was) && Halfway(was, present, {}, k)
    ensures q in k.misses <==> q in Waiting(was, present)
    ensures q in k.misses ==> k.misses[q] == Misses(was, q) + 1
  {
    if Occupied(was.devices, q) {
      var id := IdAt(was.devices, q);
      assert Misses(k, q) == NewMisses(was, present, id);
      assert q in Waiting(was, present) <==> q !in present && Misses(was, q) + 1 < DETACH_AFTER_MISSES;
    }
  }

  lemma EnumeratesTurn(tail: seq<Change>, gone: set<nat>, ids: set<nat>, id: nat)
    requires Enumerates(tail, gone - ids) && id in ids
    ensures if id in gone then
            Enumerates(tail + [Detached(id)], gone - (ids - {id})) else Enumerates(tail, gone - (ids - {id}))
  {
    hide Enumerates;
    if id in gone {
      EnumeratesSnoc(tail, gone - ids, id);
      assert gone - (ids - {id}) == gone - ids + {id};
    } else {
      assert gone - (ids - {id}) == gone - ids;
    }
  }

  lemma EnumeratesSnoc(tail: seq<Change>, ids: set<nat>, id: nat)
    requires Enumerates(tail, ids) && id !in ids
    ensures Enumerates(tail + [Detached(id)], ids + {id})
  {
    var all := tail + [Detached(id)];
    forall x | x in ids + {id} ensures Detached(x) in all {
      if x == id {
        assert all[|tail|] == Detached(id);
      } else {
        assert Detached(x) in tail;
      }
    }
  }

  // ---- the object -------------------------------------------------------------------------

  class DeviceScanner {
    var devices: map<nat, UsbDevice>
    var missCounts: map<Port, nat>
    var nextId: nat

    ghost function View(): Known
      reads this
    {
      Known(devices, missCounts, nextId)
    }

    constructor ()
      ensures View() == Known(map[], map[], 1) && Valid(View())
    {
      devices, missCounts, nextId := map[], map[], 1;
    }

    /** First device at a port, in iteration order. */
    method FindAt(port: Port) returns (found: Option<nat>)
      ensures found.Some? ==> found.value in devices && devices[found.value].port == port
      ensures found.None? ==> !Occupied(devices, port)
    {
      var ids := devices.Keys;
      while ids != {}
        invariant ids <= devices.Keys
        invariant forall id :: id in devices && id !in ids ==> devices[id].port != port
        decreases |ids|
      {
        var id :| id in ids;
        if devices[id].port == port {
          return Some(id);
        }
        ids := ids - {id};
      }
      return None;
    }

    method Observed(o: Observation) returns (changes: seq<Change>)
      requires Valid(View())
      modifies this
      ensures Outcome(View(), changes) == Observe(old(View()), o)
    {
      changes := [];
      missCounts := missCounts - {o.port};
      var existing := FindAt(o.port);
      if o.udid.Some? && (existing.None? || devices[existing.value].udid != o.udid.value) {
        if existing.Some? {
          assert existing.value == IdAt(devices, o.port);
          devices := devices - {existing.value};
          changes := [Detached(existing.value)];
        }
        var device := UsbDevice(nextId, o.udid.value, o.productId, o.port);
        devices := devices[nextId := device];
        nextId := nextId + 1;
        changes := changes + [Attached(device)];
      } else if existing.Some? && o.udid.Some? {
        assert existing.value == IdAt(devices, o.port);
      }
    }

    /** The absence loop, over the known devices in any order. */
    method DetachAbsent(present: set<Port>) returns (changes: seq<Change>)
      requires Valid(View())
      requires forall q :: q in present ==> q !in missCounts
      modifies this`devices, this`missCounts
      ensures View() == Known(old(devices) - Gone(old(View()), present), Absences(old(View()), present), nextId)
      ensures Enumerates(changes, Gone(old(View()), present))
    {
      hide Halfway, Gone, Enumerates, Valid, Absences;
      ghost var was := View();
      HalfwayStart(was, present);
      var ids := devices.Keys;
      changes := [];
      while ids != {}
        invariant ids <= was.devices.Keys && nextId == was.nextId
        invariant Halfway(was, present, ids, View())
        invariant Enumerates(changes, Gone(was, present) - ids)
        decreases |ids|
      {
        var id :| id in ids;
        HalfwayStep(was, present, ids, View(), id);
        EnumeratesTurn(changes, Gone(was, present), ids, id);
        var port := devices[id].port;
        ghost var turn := AbsentStep(View(), present, id);
        if port !in present {
          var misses := (if port in missCounts then missCounts[port] else 0) + 1;
          missCounts := missCounts[port := misses];
          if misses >= DETACH_AFTER_MISSES {
            devices := devices - {id};
            missCounts := missCounts - {port};
            changes := changes + [Detached(id)];
          }
        }
        assert View() == turn;
        ids := ids - {id};
      }
      HalfwayDone(was, present, View());
      assert Gone(was, present) - {} == Gone(was, present);
    }

    /** One successful scan. Everything it leaves is fixed by `Scan`; only the order in which
        absent devices are reported depends on the iteration order of the hash map. */
    method Diff(current: seq<Observation>) returns (changes: seq<Change>)
      requires Valid(View())
      modifies this
      ensures Valid(View())
      ensures View() == Scan(old(View()), current)
      ensures ChangesOf(old(View()), current, changes)
    {
      ghost var was := View();
      changes := [];
      for i := 0 to |current|
        invariant Valid(View()) && Outcome(View(), changes) == ObserveAll(was, current[..i])
      {
        assert current[..i + 1][..i] == current[..i];
        ObserveValid(View(), current[i]);
        var more := Observed(current[i]);
        changes := changes + more;
      }
      assert current[..|current|] == current;
      ObserveAllValid(was, current);
      ScanValid(was, current);
      ghost var first := changes;
      var gone := DetachAbsent(PortsOf(current));
      changes := changes + gone;
      assert changes[|first|..] == gone;
    }

    /** A scan attempt: a failed enumeration changes nothing and reports nothing. */
    method ScanOnce(enumerated: Option<seq<Observation>>) returns (changes: seq<Change>)
      requires Valid(View())
      modifies this
      ensures Valid(View())
      ensures enumerated.None? ==> View() == old(View()) && changes == []
      ensures enumerated.Some? ==> View() == Scan(old(View()), enumerated.value)
                                   && ChangesOf(old(View()), enumerated.value, changes)
    {
      if enumerated.None? {
        return [];
      }
      changes := Diff(enumerated.value);
    }
  }
}
