/** The daemon's scan loop: apply the changes, then retry what the manager has not claimed. */
module Reconcile {
  import opened Bytes
  import opened Scanner
  import opened ScannerRuns

  /** What the outside does, step by step: the ids whose USB connection is lost just before a step,
      and whether an attempt to open an id at that step succeeds. */
  datatype World = World(drops: nat -> set<nat>, opens: (nat, nat) -> bool) {
    ghost predicate Dropped(id: nat, from: nat, to: nat) {
      exists n: nat :: from <= n < to && id in drops(n)
    }

    ghost predicate Refused(id: nat, from: nat, to: nat) {
      exists n: nat :: from <= n < to && !opens(n, id)
    }

    ghost predicate Opened(id: nat, from: nat, to: nat) {
      exists n: nat :: from <= n < to && opens(n, id)
    }

    /** No disconnect and no failed open in these steps. */
    ghost predicate Calm(from: nat, to: nat) {
      forall id: nat :: !Dropped(id, from, to) && !Refused(id, from, to)
    }
  }

  /** The scans of a run that succeeded. */
  function Successful(scans: seq<Option<seq<Observation>>>): seq<seq<Observation>> {
    if scans == [] then []
    else
      var last := scans[|scans| - 1];
      Successful(scans[..|scans| - 1]) + (if last.Some? then [last.value] else [])
  }

  // ---- a device that survives a scan is never detached on the way ----------------------------

  lemma {:induction false} ReplacedIsGone(k: Known, current: seq<Observation>, id: nat)
    requires Valid(k) && id < k.nextId && Detached(id) in ObserveAll(k, current).changes
    ensures id !in ObserveAll(k, current).known.devices
  {
    if current != [] {
      var init, o := current[..|current| - 1], current[|current| - 1];
      var before := ObserveAll(k, init);
      ObserveAllValid(k, init);
      ReplacedStep(before.known, o, id);
      hide Observe, Valid;
      if Detached(id) in before.changes {
        ReplacedIsGone(k, init, id);
      }
    }
  }

  lemma ReplacedStep(k: Known, o: Observation, id: nat)
    requires Valid(k) && id < k.nextId
    ensures id in Observe(k, o).known.devices ==> id in k.devices && Detached(id) !in Observe(k, o).changes
  {
  }

  lemma SurvivorNotDetached(k: Known, current: seq<Observation>, changes: seq<Change>, id: nat)
    requires Valid(k) && ChangesOf(k, current, changes)
    requires id in k.devices && id in Scan(k, current).devices
    ensures Detached(id) !in changes
  {
    var mid := ObserveAll(k, current);
    var tail := changes[|mid.changes|..];
    assert changes == mid.changes + tail;
    if Detached(id) in mid.changes {
      ReplacedIsGone(k, current, id);
    }
    hide ObserveAll, Valid, Gone, PortsOf;
  }

  lemma ReportedSnoc(history: seq<seq<Observation>>, reports: seq<seq<Change>>, current: seq<Observation>,
    changes: seq<Change>)
    requires Reported(history, reports) && ChangesOf(After(history), current, changes)
    ensures After(history + [current]) == Scan(After(history), current)
    ensures Reported(history + [current], reports + [changes])
  {
    hide ChangesOf, Scan;
    var all := history + [current];
    assert all[..|history|] == history;
    forall i | 0 <= i < |all| ensures ChangesOf(After(all[..i]), all[i], (reports + [changes])[i]) {
      if i < |history| {
        assert all[..i] == history[..i];
      }
    }
  }

  // ---- the object ------------------------------------------------------------------------------

  /** Which device ids have an open mux interface; `clock` numbers the steps of the world. */
  class DeviceManager {
    const world: World
    var managed: set<nat>
    var clock: nat

    constructor (world: World)
      ensures this.world == world && managed == {} && clock == 0
    {
      this.world, managed, clock := world, {}, 0;
    }

    /** Concurrent USB disconnects. */
    method Disconnects()
      modifies this
      ensures managed == old(managed) - world.drops(old(clock)) && clock == old(clock) + 1
    {
      managed := managed - world.drops(clock);
      clock := clock + 1;
    }

    /** Open the interface unless the device is managed already; opening may fail. */
    method AddDevice(id: nat)
      modifies this
      ensures clock == old(clock) + 1
      ensures var held := old(managed) - world.drops(old(clock));
        managed == if id in held || world.opens(old(clock), id) then held + {id} else held
    {
      Disconnects();
      if id !in managed && world.opens(clock - 1, id) {
        managed := managed + {id};
      }
    }

    method RemoveDevice(id: nat)
      modifies this
      ensures clock == old(clock) + 1 && managed == old(managed) - world.drops(old(clock)) - {id}
    {
      Disconnects();
      managed := managed - {id};
    }

    /** Hand the reported changes to the manager, in order. */
    method ApplyChanges(ghost was: map<nat, UsbDevice>, changes: seq<Change>)
      requires managed <= was.Keys
      modifies this
      ensures managed <= Replay(was, changes).Keys && old(clock) <= clock
      ensures forall id :: id in old(managed) && Detached(id) !in changes && !world.Dropped(id, old(clock), clock) ==>
              id in managed
      ensures forall id :: id in managed && id !in old(managed) ==> world.Opened(id, old(clock), clock)
    {
      for i := 0 to |changes|
        invariant managed <= Replay(was, changes[..i]).Keys && old(clock) <= clock
        invariant forall id ::
                    id in old(managed) && Detached(id) !in changes && !world.Dropped(id, old(clock), clock) ==>
                      id in managed
        invariant forall id :: id in managed && id !in old(managed) ==> world.Opened(id, old(clock), clock)
      {
        assert changes[..i + 1][..i] == changes[..i];
        ghost var before := clock;
        match changes[i] {
          case Attached(device) => AddDevice(device.id);
          case Detached(id) => RemoveDevice(id);
        }
        assert forall id :: id in world.drops(before) ==> world.Dropped(id, old(clock), clock);
      }
      assert changes[..|changes|] == changes;
    }

    /** Retry every known device that is not managed, in any order. */
    method Retry(known: set<nat>)
      requires managed <= known
      modifies this
      ensures managed <= known && old(clock) <= clock
      ensures forall id :: id in old(managed) && !world.Dropped(id, old(clock), clock) ==> id in managed
      ensures forall id :: id in known && id !in managed ==>
              world.Dropped(id, old(clock), clock) || world.Refused(id, old(clock), clock)
      ensures forall id :: id in managed && id !in old(managed) ==> world.Opened(id, old(clock), clock)
    {
      var ids := known;
      while ids != {}
        invariant ids <= known && managed <= known && old(clock) <= clock
        invariant forall id :: id in old(managed) && !world.Dropped(id, old(clock), clock) ==> id in managed
        invariant forall id :: id in known && id !in ids && id !in managed ==>
                    world.Dropped(id, old(clock), clock) || world.Refused(id, old(clock), clock)
        invariant forall id :: id in managed && id !in old(managed) ==> world.Opened(id, old(clock), clock)
        decreases |ids|
      {
        var id :| id in ids;
        ghost var before := clock;
        AddDevice(id);
        assert forall x :: x in world.drops(before) ==> world.Dropped(x, old(clock), clock);
        ids := ids - {id};
      }
    }

    /** One scan round. Afterwards every managed id is known to the scanner; a known id that is not
        managed was disconnected or failed to open during the round; an id that was managed and is
        still known is lost only to a disconnect; a newly managed id was opened; and if the round itself
        saw no disconnect and no failed open, the manager has exactly the known devices. */
    method Round(scanner: DeviceScanner, enumerated: Option<seq<Observation>>) returns (changes: seq<Change>)
      requires Valid(scanner.View()) && managed <= scanner.devices.Keys
      modifies this, scanner
      ensures Valid(scanner.View()) && old(clock) <= clock
      ensures scanner.View() == if enumerated.None? then
              old(scanner.View()) else Scan(old(scanner.View()), enumerated.value)
      ensures enumerated.Some? ==> ChangesOf(old(scanner.View()), enumerated.value, changes)
      ensures managed <= scanner.devices.Keys
      ensures forall id :: id in scanner.devices.Keys && id !in managed ==>
                world.Dropped(id, old(clock), clock) || world.Refused(id, old(clock), clock)
      ensures forall id :: id in old(managed) && id in scanner.devices.Keys && id !in managed ==>
              world.Dropped(id, old(clock), clock)
      ensures forall id :: id in managed && id !in old(managed) ==> world.Opened(id, old(clock), clock)
      ensures world.Calm(old(clock), clock) ==> managed == scanner.devices.Keys
    {
      ghost var was := scanner.View();
      changes := scanner.ScanOnce(enumerated);
      if enumerated.Some? {
        EventReplay(was, enumerated.value, changes);
        forall id | id in was.devices && id in scanner.devices ensures Detached(id) !in changes {
          SurvivorNotDetached(was, enumerated.value, changes, id);
        }
      }
      hide Valid, ChangesOf, Scan, Replay;
      ApplyRound(was.devices, scanner.devices, changes);
      ghost var middle := clock;
      Retry(scanner.devices.Keys);
      Widen(old(clock), middle, clock);
    }

    /** `ApplyChanges` for changes that lead from one map to another. */
    method ApplyRound(ghost was: map<nat, UsbDevice>, ghost now: map<nat, UsbDevice>, changes: seq<Change>)
      requires managed <= was.Keys && Replay(was, changes) == now
      requires forall id :: id in was && id in now ==> Detached(id) !in changes
      modifies this
      ensures managed <= now.Keys && old(clock) <= clock
      ensures forall id :: id in old(managed) && id in now && id !in managed ==> world.Dropped(id, old(clock), clock)
      ensures forall id :: id in managed && id !in old(managed) ==> world.Opened(id, old(clock), clock)
    {
      ApplyChanges(was, changes);
    }

    /** What happened in part of a round happened in the round. */
    lemma Widen(a: nat, b: nat, c: nat)
      requires a <= b <= c
      ensures forall id :: world.Dropped(id, a, b) || world.Dropped(id, b, c) ==> world.Dropped(id, a, c)
      ensures forall id :: world.Refused(id, b, c) ==> world.Refused(id, a, c)
      ensures forall id :: world.Opened(id, a, b) || world.Opened(id, b, c) ==> world.Opened(id, a, c)
    {
    }

    /** The loop from the daemon's start: after any number of rounds the scanner is where its successful
        scans alone lead, the reports are a run's, and every managed id is known. */
    method Follow(scanner: DeviceScanner, scans: seq<Option<seq<Observation>>>) returns (reports: seq<seq<Change>>)
      requires scanner.View() == Start() && managed == {}
      modifies this, scanner
      ensures scanner.View() == After(Successful(scans)) && managed <= scanner.devices.Keys
      ensures Reported(Successful(scans), reports)
    {
      reports := [];
      for i := 0 to |scans|
        invariant Valid(scanner.View()) && managed <= scanner.devices.Keys
        invariant scanner.View() == After(Successful(scans[..i])) && Reported(Successful(scans[..i]), reports)
      {
        hide Valid, ChangesOf, Scan, Reported;
        assert scans[..i + 1][..i] == scans[..i];
        ghost var history := Successful(scans[..i]);
        var changes := Round(scanner, scans[i]);
        if scans[i].Some? {
          ReportedSnoc(history, reports, scans[i].value, changes);
          reports := reports + [changes];
        } else {
          assert history + [] == history;
        }
        Disconnects();
      }
      assert scans[..|scans|] == scans;
    }
  }
}
