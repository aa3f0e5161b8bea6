/** Whole sequences of scans: when a device is given up, what the reported changes add up to, and
    how ids live. */
module ScannerRuns {
  import opened Bytes
  import opened Scanner

  function Start(): Known { Known(map[], map[], 1) }

  /** State after a history of successful scans; a failed enumeration leaves no trace in it. */
  ghost function After(history: seq<seq<Observation>>): Known {
    if history == [] then Start() else Scan(After(history[..|history| - 1]), history[|history| - 1])
  }

  lemma {:induction false} AfterValid(history: seq<seq<Observation>>)
    ensures Valid(After(history))
  {
    if history != [] {
      AfterValid(history[..|history| - 1]);
      ScanValid(After(history[..|history| - 1]), history[|history| - 1]);
    }
  }

  // ---- detach timing ----------------------------------------------------------------

  /** For how many scans in a row, up to the latest, has this port been missing? */
  function Trailing(history: seq<seq<Observation>>, q: Port): nat {
    if history == [] || q in PortsOf(history[|history| - 1]) then 0
    else 1 + Trailing(history[..|history| - 1], q)
  }

  lemma {:induction false} TrailingMeans(history: seq<seq<Observation>>, q: Port, m: nat)
    ensures Trailing(history, q) >= m <==>
              |history| >= m && forall j :: |history| - m <= j < |history| ==> q !in PortsOf(history[j])
  {
    if history != [] && m > 0 {
      hide PortsOf;
      var init := history[..|history| - 1];
      TrailingMeans(init, q, m - 1);
      if q !in PortsOf(history[|history| - 1]) && |history| >= m {
        if forall j :: |init| - (m - 1) <= j < |init| ==> q !in PortsOf(init[j]) {
          forall j | |history| - m <= j < |history| ensures q !in PortsOf(history[j]) {
            if j < |init| {
              assert init[j] == history[j];
            }
          }
        }
        if forall j :: |history| - m <= j < |history| ==> q !in PortsOf(history[j]) {
          forall j | |init| - (m - 1) <= j < |init| ensures q !in PortsOf(init[j]) {
            assert init[j] == history[j];
          }
        }
      }
    }
  }

  /** The miss counter of a known device is the number of scans in a row that missed its port. */
  lemma {:induction false} CountersCount(history: seq<seq<Observation>>)
    ensures forall id :: id in After(history).devices ==>
              var q := After(history).devices[id].port;
              Misses(After(history), q) == Trailing(history, q)
  {
    if history != [] {
      var init, current := history[..|history| - 1], history[|history| - 1];
      CountersCount(init);
      AfterValid(init);
      var k, mid, k' := After(init), ObserveAll(After(init), current).known, After(history);
      ObserveAllValid(k, current);
      hide Valid, PortsOf;
      forall id | id in k'.devices
        ensures Misses(k', k'.devices[id].port) == Trailing(history, k'.devices[id].port)
      {
        var q := k'.devices[id].port;
        assert id in mid.devices && mid.devices[id].port == q;
        if q in PortsOf(current) {
          assert q !in Waiting(mid, PortsOf(current));
        } else {
          assert id !in Gone(mid, PortsOf(current));
          assert q in Waiting(mid, PortsOf(current));
          assert id in k.devices && k.devices[id].port == q;
        }
      }
    }
  }

  /** Detach timing: a known device is removed for absence by a scan if and only if its port was
      missing from that scan and from the one before it. A port that is
      present with an unreadable serial counts as present. */
  lemma DetachTiming(history: seq<seq<Observation>>, current: seq<Observation>, id: nat)
    requires id in After(history).devices
    ensures var q := After(history).devices[id].port;
      var all := history + [current];
      id !in After(all).devices && q !in PortsOf(current)
      <==> |all| >= 2 && q !in PortsOf(all[|all| - 1]) && q !in PortsOf(all[|all| - 2])
  {
    var all := history + [current];
    var k, q := After(history), After(history).devices[id].port;
    var mid := ObserveAll(k, current).known;
    assert all[..|history|] == history && After(all) == Scan(k, current);
    AfterValid(history);
    CountersCount(history);
    ObserveAllValid(k, current);
    hide PortsOf, Valid;
    TrailingMeans(all, q, DETACH_AFTER_MISSES);
    if q !in PortsOf(current) {
      assert id in mid.devices && mid.devices[id] == k.devices[id];
      assert id in Gone(mid, PortsOf(current)) <==> Misses(k, q) + 1 >= DETACH_AFTER_MISSES;
      assert Trailing(all, q) == Trailing(history, q) + 1;
    }
  }

  /** Miss counters belong to known devices and never exceed one, and known devices sit at distinct
      ports, after any history. */
  lemma MissCountersBounded(history: seq<seq<Observation>>)
    ensures var k := After(history);
      && (forall q :: q in k.misses ==> k.misses[q] == 1 && Occupied(k.devices, q))
      && (forall a, b :: a in k.devices && b in k.devices && k.devices[a].port == k.devices[b].port ==> a == b)
  {
    AfterValid(history);
  }

  // ---- determinism and identity ---------------------------------------------------------

  lemma {:induction false} DistinctOnce<T>(s: seq<T>, x: T)
    requires forall i, j :: 0 <= i < j < |s| ==> s[i] != s[j]
    ensures multiset(s)[x] == if x in s then 1 else 0
  {
    if s != [] {
      var init := s[..|s| - 1];
      DistinctOnce(init, x);
      assert s == init + [s[|s| - 1]];
    }
  }

  /** Two enumerations of the same ids are permutations of each other. */
  lemma EnumerationsAgree(a: seq<Change>, b: seq<Change>, ids: set<nat>)
    requires Enumerates(a, ids) && Enumerates(b, ids)
    ensures multiset(a) == multiset(b)
  {
    forall c: Change ensures multiset(a)[c] == multiset(b)[c] {
      DistinctOnce(a, c);
      DistinctOnce(b, c);
      assert c in a <==> c.Detached? && c.id in ids;
      assert c in b <==> c.Detached? && c.id in ids;
    }
  }

  /** Scan determinism: whatever the iteration order, two scans of the same state report the same
      attaches and replacements in the same order and the same detaches for absence. */
  lemma ScanDeterminism(k: Known, current: seq<Observation>, a: seq<Change>, b: seq<Change>)
    requires ChangesOf(k, current, a) && ChangesOf(k, current, b)
    ensures var n := |ObserveAll(k, current).changes|;
      n <= |a| && n <= |b| && a[..n] == b[..n] && multiset(a) == multiset(b)
  {
    hide ObserveAll, Gone, Enumerates, PortsOf;
    var n := |ObserveAll(k, current).changes|;
    EnumerationsAgree(a[n..], b[n..], Gone(ObserveAll(k, current).known, PortsOf(current)));
    assert a == a[..n] + a[n..] && b == b[..n] + b[n..];
  }

  /** The serial most recently read at a port during a scan. */
  function LastRead(current: seq<Observation>, q: Port): Option<string> {
    if current == [] then None
    else
      var o := current[|current| - 1];
      if o.port == q && o.udid.Some? then o.udid else LastRead(current[..|current| - 1], q)
  }

  /** All serials read at the port are this one. */
  ghost predicate Confirms(current: seq<Observation>, q: Port, udid: string) {
    forall i :: 0 <= i < |current| && current[i].port == q && current[i].udid.Some? ==> current[i].udid.value == udid
  }

  lemma {:induction false} ObservedIdentity(k: Known, current: seq<Observation>, q: Port)
    requires Valid(k)
    ensures var mid := ObserveAll(k, current).known;
      && (LastRead(current, q).Some? ==>
             Occupied(mid.devices, q) && mid.devices[IdAt(mid.devices, q)].udid == LastRead(current, q).value)
      && (LastRead(current, q).None? ==>
            forall id :: id in mid.devices && mid.devices[id].port == q <==> id in k.devices && k.devices[id].port == q)
      && (forall id :: id in k.devices && k.devices[id].port == q && Confirms(current, q, k.devices[id].udid) ==>
            id in mid.devices && mid.devices[id] == k.devices[id])
  {
    if current != [] {
      var init, o := current[..|current| - 1], current[|current| - 1];
      ObservedIdentity(k, init, q);
      ObserveAllValid(k, init);
      var before := ObserveAll(k, init).known;
      ObserveValid(before, o);
      ObserveElsewhere(before, o);
      IdentityStep(before, o, q);
      hide Observe, Valid, Occupied;
      forall id | id in k.devices && k.devices[id].port == q && Confirms(current, q, k.devices[id].udid)
        ensures Confirms(init, q, k.devices[id].udid)
        ensures o.port == q && o.udid.Some? ==> o.udid.value == k.devices[id].udid
      {
        ConfirmsInit(current, q, k.devices[id].udid);
      }
      hide Confirms;
    }
  }

  lemma ConfirmsInit(current: seq<Observation>, q: Port, udid: string)
    requires current != [] && Confirms(current, q, udid)
    ensures Confirms(current[..|current| - 1], q, udid)
    ensures var o := current[|current| - 1]; o.port == q && o.udid.Some? ==> o.udid.value == udid
  {
  }

  lemma IdentityStep(k: Known, o: Observation, q: Port)
    requires Valid(k)
    ensures var k' := Observe(k, o).known;
      && Valid(k')
      && (o.port == q && o.udid.Some? ==>
             Occupied(k'.devices, q) && k'.devices[IdAt(k'.devices, q)].udid == o.udid.value)
      && (!(o.port == q && o.udid.Some?) ==>
            (forall id :: id in k'.devices && k'.devices[id].port == q <==> id in k.devices && k.devices[id].port == q)
            && (forall id :: id in k.devices && k.devices[id].port == q ==> k'.devices[id] == k.devices[id])
            && (Occupied(k.devices, q) ==> Occupied(k'.devices, q) && IdAt(k'.devices, q) == IdAt(k.devices, q)))
      && (forall id :: id in k.devices && k.devices[id].port == q && (o.port == q && o.udid.Some? ==>
             o.udid.value == k.devices[id].udid) ==>
            id in k'.devices && k'.devices[id] == k.devices[id])
  {
    ObserveValid(k, o);
    var k' := Observe(k, o).known;
    if o.port == q && o.udid.Some? {
      if Occupied(k.devices, q) && k.devices[IdAt(k.devices, q)].udid == o.udid.value {
        assert k'.devices == k.devices;
      } else {
        assert k'.devices[k.nextId] == UsbDevice(k.nextId, o.udid.value, o.productId, o.port);
        assert k.nextId in k'.devices && k'.devices[k.nextId].port == q;
      }
    } else if Occupied(k.devices, q) {
      var id := IdAt(k.devices, q);
      assert id in k'.devices && k'.devices[id].port == q;
    }
  }

  /** Identity: after a scan a port whose serial was read holds a device with the serial last read
      there; and a device whose port was seen with no other serial keeps its id and record. */
  lemma ScanIdentity(k: Known, current: seq<Observation>, q: Port)
    requires Valid(k) && q in PortsOf(current)
    ensures var k' := Scan(k, current);
      && (LastRead(current, q).Some? ==>
            Occupied(k'.devices, q) && k'.devices[IdAt(k'.devices, q)].udid == LastRead(current, q).value)
      && (forall id :: id in k.devices && k.devices[id].port == q && Confirms(current, q, k.devices[id].udid) ==>
            id in k'.devices && k'.devices[id] == k.devices[id])
      && (LastRead(current, q).None? && !Occupied(k.devices, q) ==> !Occupied(k'.devices, q))
  {
    ObservedIdentity(k, current, q);
    ScanValid(k, current);
    var mid, k' := ObserveAll(k, current).known, Scan(k, current);
    if LastRead(current, q).Some? {
      var id := IdAt(mid.devices, q);
      assert id in k'.devices && k'.devices[id] == mid.devices[id];
      assert IdAt(k'.devices, q) == id;
    }
  }

  /** The observation describes the device. */
  predicate Describes(o: Observation, d: UsbDevice) {
    o.udid == Some(d.udid) && o.productId == d.productId && o.port == d.port
  }

  lemma NewlyObserved(k: Known, o: Observation, id: nat)
    requires id in Observe(k, o).known.devices && id !in k.devices
    ensures Describes(o, Observe(k, o).known.devices[id])
  {
  }

  lemma {:induction false} ObservedAsSeen(k: Known, current: seq<Observation>, id: nat) returns (i: nat)
    requires Valid(k) && id in ObserveAll(k, current).known.devices && id !in k.devices
    ensures i < |current| && Describes(current[i], ObserveAll(k, current).known.devices[id])
  {
    var init, o := current[..|current| - 1], current[|current| - 1];
    var before := ObserveAll(k, init).known;
    if id in before.devices {
      i := ObservedAsSeen(k, init, id);
      ObserveAllValid(k, init);
      RecordKept(before, o, id);
    } else {
      i := |current| - 1;
      NewlyObserved(before, o, id);
    }
  }

  lemma RecordKept(k: Known, o: Observation, id: nat)
    requires Valid(k) && id in k.devices && id in Observe(k, o).known.devices
    ensures Observe(k, o).known.devices[id] == k.devices[id]
  {
  }

  /** A device that a scan attaches has the serial, product and port of one of its observations; one that was
      known before keeps its record. */
  lemma AttachedAsSeen(k: Known, current: seq<Observation>, id: nat)
    requires Valid(k) && id in Scan(k, current).devices
    ensures id !in k.devices ==> exists i :: 0 <= i < |current| && Describes(current[i], Scan(k, current).devices[id])
    ensures id in k.devices ==> Scan(k, current).devices[id] == k.devices[id]
  {
    if id !in k.devices {
      var i := ObservedAsSeen(k, current, id);
    } else {
      KeptThroughout(k, current, id);
    }
  }

  lemma {:induction false} KeptThroughout(k: Known, current: seq<Observation>, id: nat)
    requires Valid(k) && id in k.devices && id in ObserveAll(k, current).known.devices
    ensures ObserveAll(k, current).known.devices[id] == k.devices[id]
  {
    if current != [] {
      var init, o := current[..|current| - 1], current[|current| - 1];
      var before := ObserveAll(k, init).known;
      ObserveAllValid(k, init);
      StillThere(k, init, o, id);
      KeptThroughout(k, init, id);
      RecordKept(before, o, id);
    }
  }

  /** A known device that an observation left in place was there before it: ids are not handed out twice. */
  lemma StillThere(k: Known, init: seq<Observation>, o: Observation, id: nat)
    requires Valid(k) && id in k.devices && id in Observe(ObserveAll(k, init).known, o).known.devices
    ensures id in ObserveAll(k, init).known.devices
  {
    ObserveAllValid(k, init);
    hide ObserveAll;
  }

  // ---- event replay ------------------------------------------------------------------

  function Apply(devices: map<nat, UsbDevice>, c: Change): map<nat, UsbDevice> {
    match c
    case Attached(d) => devices[d.id := d]
    case Detached(id) => devices - {id}
  }

  function Replay(devices: map<nat, UsbDevice>, changes: seq<Change>): map<nat, UsbDevice> {
    if changes == [] then devices
    else Apply(Replay(devices, changes[..|changes| - 1]), changes[|changes| - 1])
  }

  lemma {:induction false} ReplayAppend(devices: map<nat, UsbDevice>, a: seq<Change>, b: seq<Change>)
    ensures Replay(devices, a + b) == Replay(Replay(devices, a), b)
  {
    if b == [] {
      assert a + b == a;
    } else {
      var init := b[..|b| - 1];
      ReplayAppend(devices, a, init);
      assert (a + b)[..|a + b| - 1] == a + init;
    }
  }

  lemma ObserveReplays(k: Known, o: Observation)
    ensures Replay(k.devices, Observe(k, o).changes) == Observe(k, o).known.devices
  {
    var changes := Observe(k, o).changes;
    if |changes| == 1 {
      assert changes[..0] == [];
    } else if |changes| == 2 {
      assert changes[..1] == [changes[0]] && changes[..1][..0] == [];
      assert Replay(k.devices, changes[..1]) == k.devices - {changes[0].id};
    }
  }

  lemma {:induction false} ObserveAllReplays(k: Known, current: seq<Observation>)
    ensures Replay(k.devices, ObserveAll(k, current).changes) == ObserveAll(k, current).known.devices
  {
    if current != [] {
      var before := ObserveAll(k, current[..|current| - 1]);
      ObserveAllReplays(k, current[..|current| - 1]);
      ObserveReplays(before.known, current[|current| - 1]);
      ReplayAppend(k.devices, before.changes, Observe(before.known, current[|current| - 1]).changes);
    }
  }

  function Ids(tail: seq<Change>): set<nat> {
    set i | 0 <= i < |tail| && tail[i].Detached? :: tail[i].id
  }

  lemma {:induction false} DetachesReplay(devices: map<nat, UsbDevice>, tail: seq<Change>)
    requires forall i :: 0 <= i < |tail| ==> tail[i].Detached?
    ensures Replay(devices, tail) == devices - Ids(tail)
  {
    if tail != [] {
      var init, last := tail[..|tail| - 1], tail[|tail| - 1];
      DetachesReplay(devices, init);
      assert Ids(tail) == Ids(init) + {last.id} by {
        assert forall i :: 0 <= i < |init| ==> tail[i] == init[i];
        forall x | x in Ids(init) + {last.id} ensures x in Ids(tail) {
          if x == last.id {
            assert tail[|tail| - 1].id == x;
          } else {
            var i :| 0 <= i < |init| && init[i].Detached? && init[i].id == x;
            assert tail[i].id == x;
          }
        }
      }
    }
  }

  /** Event replay: folding the changes a scan returns over the old map gives the new map. */
  lemma EventReplay(k: Known, current: seq<Observation>, changes: seq<Change>)
    requires ChangesOf(k, current, changes)
    ensures Replay(k.devices, changes) == Scan(k, current).devices
  {
    ObserveAllReplays(k, current);
    hide ObserveAll, PortsOf, Gone, Replay, Enumerates;
    var mid := ObserveAll(k, current);
    var tail := changes[|mid.changes|..];
    assert changes == mid.changes + tail;
    ReplayAppend(k.devices, mid.changes, tail);
    EnumeratedIds(tail, Gone(mid.known, PortsOf(current)));
    DetachesReplay(mid.known.devices, tail);
  }

  lemma EnumeratedIds(tail: seq<Change>, ids: set<nat>)
    requires Enumerates(tail, ids)
    ensures Ids(tail) == ids && forall i :: 0 <= i < |tail| ==> tail[i].Detached?
  {
    forall x | x in ids ensures x in Ids(tail) {
      assert Detached(x) in tail;
      var i :| 0 <= i < |tail| && tail[i] == Detached(x);
      assert tail[i].id == x;
    }
  }

  /** No two devices at one port. */
  ghost predicate Apart(devices: map<nat, UsbDevice>) {
    forall a, b :: a in devices && b in devices && devices[a].port == devices[b].port ==> a == b
  }

  lemma ObservationApart(k: Known, o: Observation, j: nat)
    requires Valid(k) && j <= |Observe(k, o).changes|
    ensures Apart(Replay(k.devices, Observe(k, o).changes[..j]))
  {
    var changes := Observe(k, o).changes;
    if j == |changes| {
      assert changes[..j] == changes;
      ObserveReplays(k, o);
      ObserveValid(k, o);
    } else if j == 1 {
      assert changes[..1] == [changes[0]] && changes[..1][..0] == [];
      assert Replay(k.devices, changes[..1]) == k.devices - {changes[0].id};
    } else {
      assert changes[..0] == [];
    }
  }

  lemma {:induction false} ObservationsApart(k: Known, current: seq<Observation>, j: nat)
    requires Valid(k) && j <= |ObserveAll(k, current).changes|
    ensures Apart(Replay(k.devices, ObserveAll(k, current).changes[..j]))
  {
    if current == [] {
      assert ObserveAll(k, current).changes[..j] == [];
    } else {
      var init, o := current[..|current| - 1], current[|current| - 1];
      var before := ObserveAll(k, init);
      var last := Observe(before.known, o);
      var all := before.changes + last.changes;
      if j <= |before.changes| {
        ObservationsApart(k, init, j);
        assert all[..j] == before.changes[..j];
      } else {
        var rest := last.changes[..j - |before.changes|];
        assert all[..j] == before.changes + rest;
        ObserveAllReplays(k, init);
        ReplayAppend(k.devices, before.changes, rest);
        ObserveAllValid(k, init);
        ObservationApart(before.known, o, j - |before.changes|);
      }
    }
  }

  /** Whoever follows the changes one by one never sees two devices at one port: a replacement is reported
      as a detach and then an attach. */
  lemma NeverTwoAtAPort(k: Known, current: seq<Observation>, changes: seq<Change>, j: nat)
    requires Valid(k) && ChangesOf(k, current, changes) && j <= |changes|
    ensures Apart(Replay(k.devices, changes[..j]))
  {
    hide ObserveAll, Gone, PortsOf, Replay, Valid, Enumerates, Apart;
    var mid := ObserveAll(k, current);
    var n := |mid.changes|;
    if j <= n {
      ObservationsApart(k, current, j);
      assert changes[..j] == mid.changes[..j];
    } else {
      ObserveAllReplays(k, current);
      ObserveAllValid(k, current);
      assert changes[..j] == mid.changes + changes[n..][..j - n];
      ReplayAppend(k.devices, mid.changes, changes[n..][..j - n]);
      DetachesApart(mid.known, changes[n..], Gone(mid.known, PortsOf(current)), j - n);
    }
  }

  lemma DetachesApart(k: Known, tail: seq<Change>, ids: set<nat>, j: nat)
    requires Valid(k) && Enumerates(tail, ids) && j <= |tail|
    ensures Apart(Replay(k.devices, tail[..j]))
  {
    hide Replay;
    DetachesReplay(k.devices, tail[..j]);
  }

  // ---- id lifecycle ---------------------------------------------------------------------

  /** One more than the last id attached. */
  function NextAfter(log: seq<Change>): nat {
    if log == [] then 1
    else if log[|log| - 1].Attached? then log[|log| - 1].device.id + 1
    else NextAfter(log[..|log| - 1])
  }

  /** Each attach takes the next id in order; each detach names a device attached at that moment. */
  predicate Proper(log: seq<Change>) {
    log == [] ||
    var init, last := log[..|log| - 1], log[|log| - 1];
    Proper(init) && if last.Attached? then last.device.id == NextAfter(init) else last.id in Replay(map[], init)
  }

  /** The log so far explains the state. */
  ghost predicate Explains(log: seq<Change>, devices: map<nat, UsbDevice>, next: nat) {
    Proper(log) && Replay(map[], log) == devices && NextAfter(log) == next
  }

  lemma ExplainsSnoc(log: seq<Change>, devices: map<nat, UsbDevice>, next: nat, c: Change)
    requires Explains(log, devices, next)
    requires if c.Attached? then c.device.id == next else c.id in devices
    ensures Explains(log + [c], Apply(devices, c), if c.Attached? then next + 1 else next)
  {
    assert (log + [c])[..|log|] == log;
  }

  lemma ExplainsObserve(log: seq<Change>, k: Known, o: Observation)
    requires Valid(k) && Explains(log, k.devices, k.nextId)
    ensures var r := Observe(k, o);
      Explains(log + r.changes, r.known.devices, r.known.nextId)
  {
    hide Explains;
    var r := Observe(k, o);
    if r.changes == [] {
      assert log + [] == log;
    } else if |r.changes| == 1 {
      ExplainsSnoc(log, k.devices, k.nextId, r.changes[0]);
      assert log + r.changes == log + [r.changes[0]];
    } else {
      ExplainsSnoc(log, k.devices, k.nextId, r.changes[0]);
      ExplainsSnoc(log + [r.changes[0]], k.devices - {r.changes[0].id}, k.nextId, r.changes[1]);
      assert log + [r.changes[0]] + [r.changes[1]] == log + r.changes;
    }
  }

  lemma {:induction false} ExplainsObserveAll(log: seq<Change>, k: Known, current: seq<Observation>)
    requires Valid(k) && Explains(log, k.devices, k.nextId)
    ensures var r := ObserveAll(k, current);
      Explains(log + r.changes, r.known.devices, r.known.nextId)
  {
    hide Explains;
    if current == [] {
      assert log + [] == log;
    } else {
      var before := ObserveAll(k, current[..|current| - 1]);
      ExplainsObserveAll(log, k, current[..|current| - 1]);
      ObserveAllValid(k, current[..|current| - 1]);
      ExplainsObserve(log + before.changes, before.known, current[|current| - 1]);
      AppendAssoc(log, before.changes, Observe(before.known, current[|current| - 1]).changes);
    }
  }

  lemma {:induction false} ExplainsDetaches(log: seq<Change>, devices: map<nat, UsbDevice>, next: nat,
    tail: seq<Change>)
    requires Explains(log, devices, next)
    requires forall i :: 0 <= i < |tail| ==> tail[i].Detached? && tail[i].id in devices
    requires forall i, j :: 0 <= i < j < |tail| ==> tail[i] != tail[j]
    ensures Explains(log + tail, Replay(devices, tail), next)
  {
    hide Explains;
    if tail == [] {
      assert log + tail == log;
    } else {
      var init, last := tail[..|tail| - 1], tail[|tail| - 1];
      ExplainsDetaches(log, devices, next, init);
      DetachesReplay(devices, init);
      forall i | 0 <= i < |init| ensures init[i].id != last.id {
        assert tail[i] != last;
      }
      ExplainsSnoc(log + init, Replay(devices, init), next, last);
      assert log + init + [last] == log + tail;
    }
  }

  /** A run of scans with one of the change lists each may return. */
  ghost predicate Reported(history: seq<seq<Observation>>, reports: seq<seq<Change>>) {
    && |reports| == |history|
    && forall i :: 0 <= i < |history| ==> ChangesOf(After(history[..i]), history[i], reports[i])
  }

  function Concat(reports: seq<seq<Change>>): seq<Change> {
    if reports == [] then [] else Concat(reports[..|reports| - 1]) + reports[|reports| - 1]
  }

  lemma TailDetaches(tail: seq<Change>, ids: set<nat>, devices: map<nat, UsbDevice>)
    requires Enumerates(tail, ids) && ids <= devices.Keys
    ensures forall i :: 0 <= i < |tail| ==> tail[i].Detached? && tail[i].id in devices
    ensures forall i, j :: 0 <= i < j < |tail| ==> tail[i] != tail[j]
  {
  }

  lemma GoneAreKnown(k: Known, present: set<Port>)
    ensures Gone(k, present) <= k.devices.Keys
  {
  }

  lemma ExplainsScan(log: seq<Change>, k: Known, current: seq<Observation>, changes: seq<Change>)
    requires Valid(k) && Explains(log, k.devices, k.nextId) && ChangesOf(k, current, changes)
    ensures Explains(log + changes, Scan(k, current).devices, Scan(k, current).nextId)
  {
    hide Explains, Valid, PortsOf, Replay, ObserveAll, Gone, Enumerates;
    EventReplay(k, current, changes);
    ObserveAllReplays(k, current);
    var mid := ObserveAll(k, current);
    var tail, gone := changes[|mid.changes|..], Gone(mid.known, PortsOf(current));
    GoneAreKnown(mid.known, PortsOf(current));
    assert changes == mid.changes + tail;
    ReplayAppend(k.devices, mid.changes, tail);
    TailDetaches(tail, gone, mid.known.devices);
    ExplainsObserveAll(log, k, current);
    ExplainsDetaches(log + mid.changes, mid.known.devices, mid.known.nextId, tail);
    AppendAssoc(log, mid.changes, tail);
  }

  lemma {:induction false} LogExplainsState(history: seq<seq<Observation>>, reports: seq<seq<Change>>)
    requires Reported(history, reports)
    ensures Explains(Concat(reports), After(history).devices, After(history).nextId)
  {
    if history != [] {
      var n := |history| - 1;
      ReportedInit(history, reports);
      hide ChangesOf, Scan, Explains, Valid, Reported;
      LogExplainsState(history[..n], reports[..n]);
      AfterValid(history[..n]);
      ExplainsScan(Concat(reports[..n]), After(history[..n]), history[n], reports[n]);
    } else {
      assert Proper([]);
    }
  }

  lemma ReportedInit(history: seq<seq<Observation>>, reports: seq<seq<Change>>)
    requires history != [] && Reported(history, reports)
    ensures var n := |history| - 1;
      |reports| == |history| && Reported(history[..n], reports[..n])
          && ChangesOf(After(history[..n]), history[n], reports[n])
  {
    hide ChangesOf, After;
    var init := history[..|history| - 1];
    assert forall i :: 0 <= i < |init| ==> init[..i] == history[..i];
  }

  lemma {:induction false} AttachedBelow(log: seq<Change>, i: nat)
    requires Proper(log) && i < |log| && log[i].Attached?
    ensures log[i].device.id < NextAfter(log)
    decreases |log|
  {
    var init := log[..|log| - 1];
    if i < |init| {
      AttachedBelow(init, i);
    }
  }

  lemma {:induction false} ProperPrefix(log: seq<Change>, n: nat)
    requires Proper(log) && n <= |log|
    ensures Proper(log[..n])
    decreases |log| - n
  {
    if n == |log| {
      assert log[..n] == log;
    } else {
      ProperPrefix(log, n + 1);
      assert log[..n + 1][..n] == log[..n];
    }
  }

  /** Whatever is attached came from an attach that no later detach undid. */
  lemma {:induction false} AttachedEarlier(log: seq<Change>, id: nat) returns (i: nat)
    requires Proper(log) && id in Replay(map[], log)
    ensures i < |log| && log[i].Attached? && log[i].device.id == id
    ensures forall m :: i < m < |log| ==> log[m] != Detached(id)
  {
    var init, last := log[..|log| - 1], log[|log| - 1];
    if last.Attached? && last.device.id == id {
      i := |log| - 1;
    } else {
      i := AttachedEarlier(init, id);
      forall m | i < m < |log| ensures log[m] != Detached(id) {
        if m < |init| {
          assert init[m] == log[m];
        }
      }
    }
  }

  lemma AttachOrder(log: seq<Change>, i: nat, j: nat)
    requires Proper(log) && i < j < |log| && log[i].Attached? && log[j].Attached?
    ensures log[i].device.id < log[j].device.id
  {
    ProperPrefix(log, j + 1);
    ProperPrefix(log, j);
    assert log[..j + 1][..j] == log[..j];
    AttachedBelow(log[..j], i);
  }

  lemma DetachOf(log: seq<Change>, j: nat) returns (i: nat)
    requires Proper(log) && j < |log| && log[j].Detached?
    ensures i < j && log[i].Attached? && log[i].device.id == log[j].id
    ensures forall m :: i < m < j ==> log[m] != log[j]
  {
    ProperPrefix(log, j + 1);
    assert log[..j + 1][..j] == log[..j];
    i := AttachedEarlier(log[..j], log[j].id);
    forall m | i < m < j ensures log[m] != log[j] {
      assert log[..j][m] == log[m];
    }
  }

  /** Id lifecycle over any run of scans: attached ids come in strictly increasing order, so none is
      used twice; every detach comes after the attach of its id; and no id is detached twice. */
  lemma IdLifecycle(history: seq<seq<Observation>>, reports: seq<seq<Change>>)
    requires Reported(history, reports)
    ensures var log := Concat(reports);
      && (forall i, j :: 0 <= i < j < |log| && log[i].Attached? && log[j].Attached? ==>
             log[i].device.id < log[j].device.id)
      && (forall j :: 0 <= j < |log| && log[j].Detached? ==>
            exists i :: 0 <= i < j && log[i].Attached? && log[i].device.id == log[j].id)
      && (forall i, j :: 0 <= i < j < |log| && log[i].Detached? && log[j].Detached? ==> log[i].id != log[j].id)
    ensures Replay(map[], Concat(reports)) == After(history).devices
  {
    LogExplainsState(history, reports);
    var log := Concat(reports);
    forall i, j | 0 <= i < j < |log| && log[i].Attached?
        && log[j].Attached? ensures log[i].device.id < log[j].device.id {
      AttachOrder(log, i, j);
    }
    forall j | 0 <= j < |log| && log[j].Detached?
      ensures exists i :: 0 <= i < j && log[i].Attached? && log[i].device.id == log[j].id
    {
      var i := DetachOf(log, j);
    }
    forall i, j | 0 <= i < j < |log| && log[i].Detached? && log[j].Detached? ensures log[i].id != log[j].id {
      var a := DetachOf(log, i);
      var b := DetachOf(log, j);
      if b > i {
        AttachOrder(log, a, b);
      } else {
        assert log[i] != log[j];
      }
    }
  }
}
