/**
 Uninstall (internal/uninstall/uninstall_linux.go) as a recoverable state machine
 over unit files, the binary, running units and what systemd has loaded. Each run
 meets its own faults; a failed unit removal or reload puts the removed unit files
 back.
 */
module Uninstall {
  import opened Text
  import PlanDigest

  const UNITS: seq<string> := PlanDigest.UNITS
  const BINARY := PlanDigest.BINARY

  datatype UnitFile = UnitFile(content: string, trusted: bool)
  datatype Binary = Absent | Recognized | Foreign

  /** `loaded` is the set of units systemd read at its last reload. */
  datatype World = World(units: map<string, UnitFile>, binary: Binary, running: set<string>, loaded: set<string>)

  /** A restore that fails leaves nothing or leaves some content behind. */
  datatype RestoreFault = NotCreated | Left(content: string)

  /** A reload succeeds, fails without effect, or takes effect and still reports an error. */
  datatype Reloading = Reloads | Fails | ReportsLate

  /**
   Faults of one run: `unreadable` paths fail their stat or read in `inspect`, and a failing
   stop may still have stopped its unit.
   */
  datatype Faults = Faults(
    unreadable: set<string>, stop: map<string, bool>, remove: set<string>, reload: Reloading,
    restore: map<string, RestoreFault>, binary: bool)

  const NoFaults := Faults({}, map[], {}, Reloads, map[], false)

  type Packaged = string -> string

  predicate Pristine(w: World, packaged: Packaged, name: string) {
    name in w.units ==> w.units[name] == UnitFile(packaged(name), true)
  }

  /**
   `inspect` accepts: every unit path is absent or holds trusted packaged bytes, and the
   binary is absent or recognized.
   */
  predicate Acceptable(w: World, packaged: Packaged) {
    (forall n :: n in UNITS ==> Pristine(w, packaged, n)) && w.binary != Foreign
  }

  /** `inspect` meets an error before it can judge. */
  predicate Blind(f: Faults) {
    BINARY in f.unreadable || exists n :: n in UNITS && n in f.unreadable
  }

  function Present(w: World, names: seq<string>): seq<string> {
    if names == [] then []
    else (if names[0] in w.units then [names[0]] else []) + Present(w, names[1..])
  }

  lemma {:induction false} PresentMembers(w: World, names: seq<string>, n: string)
    ensures n in Present(w, names) <==> n in names && n in w.units
  {
    if names != [] {
      PresentMembers(w, names[1..], n);
      assert n in names <==> n == names[0] || n in names[1..];
    }
  }

  datatype Stage = Stage(world: World, ok: bool)
  datatype Removal = Removal(world: World, removed: seq<string>, ok: bool)

  /** `systemctl disable --now` on each unit in turn, stopping at the first failure. */
  function StopAll(w: World, names: seq<string>, f: Faults): Stage
    decreases |names|
  {
    if names == [] then Stage(w, true)
    else if names[0] in f.stop then Stage(if f.stop[names[0]] then w.(running := w.running - {names[0]}) else w, false)
    else StopAll(w.(running := w.running - {names[0]}), names[1..], f)
  }

  function RemoveAll(w: World, names: seq<string>, f: Faults): Removal
    decreases |names|
  {
    if names == [] then Removal(w, [], true)
    else if names[0] in f.remove then Removal(w, [], false)
    else
      var rest := RemoveAll(w.(units := w.units - {names[0]}), names[1..], f);
      rest.(removed := [names[0]] + rest.removed)
  }

  function RestoreOne(w: World, packaged: Packaged, name: string, f: Faults): World {
    if name in w.units then w
    else if name !in f.restore then w.(units := w.units[name := UnitFile(packaged(name), true)])
    else if f.restore[name].Left? then w.(units := w.units[name := UnitFile(f.restore[name].content, true)])
    else w
  }

  /** `restoreUnits`: every removed unit is tried; errors are only collected. */
  function RestoreAll(w: World, packaged: Packaged, names: seq<string>, f: Faults): World
    decreases |names|
  {
    if names == [] then w else RestoreAll(RestoreOne(w, packaged, names[0], f), packaged, names[1..], f)
  }

  function Reload(w: World): World {
    w.(loaded := set n | n in UNITS && n in w.units)
  }

  function RemoveBinary(w: World, f: Faults): Stage {
    if w.binary == Absent then Stage(w, true)
    else if f.binary then Stage(w, false)
    else Stage(w.(binary := Absent), true)
  }

  /** One `Execute --apply` run. */
  function Run(w: World, packaged: Packaged, f: Faults): Stage {
    if !Acceptable(w, packaged) || Blind(f) then Stage(w, false)
    else
      var active := Present(w, UNITS);
      if active == [] then RemoveBinary(w, f)
      else
        var stopped := StopAll(w, active, f);
        if !stopped.ok then stopped
        else
          var gone := RemoveAll(stopped.world, active, f);
          if gone.ok && f.reload.Reloads? then RemoveBinary(Reload(gone.world), f)
          else Stage(RestoreAll(Settled(gone, f), packaged, gone.removed, f), false)
  }

  /** The world a restore starts from: a completed removal may have been reloaded in spite of the error. */
  function Settled(gone: Removal, f: Faults): World {
    if gone.ok && f.reload.ReportsLate? then Reload(gone.world) else gone.world
  }

  // ----- the command as the source runs it -----

  class Uninstaller {
    const packaged: Packaged
    var world: World

    constructor (packaged: Packaged, world: World)
      ensures this.packaged == packaged && this.world == world
    {
      this.packaged, this.world := packaged, world;
    }

    method InspectUnits(names: seq<string>, f: Faults) returns (ok: bool, active: seq<string>)
      ensures ok <==> forall n :: n in names ==> n !in f.unreadable && Pristine(world, packaged, n)
      ensures ok ==> active == Present(world, names)
    {
      active := [];
      var i := 0;
      while i < |names|
        invariant 0 <= i <= |names|
        invariant forall k :: 0 <= k < i ==> names[k] !in f.unreadable && Pristine(world, packaged, names[k])
        invariant Present(world, names) == active + Present(world, names[i..])
      {
        var name := names[i];
        assert names[i..][1..] == names[i + 1..];
        if name in f.unreadable {
          assert name in names;
          return false, [];
        }
        if name in world.units {
          if !world.units[name].trusted || world.units[name].content != packaged(name) {
            assert name in names && !Pristine(world, packaged, name);
            return false, [];
          }
          active := active + [name];
        }
        i := i + 1;
      }
      return true, active;
    }

    method Inspect(f: Faults) returns (ok: bool, active: seq<string>, binary: bool)
      ensures ok <==> Acceptable(world, packaged) && !Blind(f)
      ensures ok ==> active == Present(world, UNITS) && binary == (world.binary != Absent)
    {
      ok, active := InspectUnits(UNITS, f);
      if !ok || BINARY in f.unreadable || world.binary == Foreign {
        return false, [], false;
      }
      return true, active, world.binary != Absent;
    }

    method RestoreUnits(names: seq<string>, f: Faults)
      modifies this
      ensures world == RestoreAll(old(world), packaged, names, f)
    {
      var i := 0;
      while i < |names|
        invariant 0 <= i <= |names|
        invariant RestoreAll(old(world), packaged, names, f) == RestoreAll(world, packaged, names[i..], f)
      {
        assert names[i..][1..] == names[i + 1..];
        if names[i] !in world.units {
          if names[i] !in f.restore {
            world := world.(units := world.units[names[i] := UnitFile(packaged(names[i]), true)]);
          } else if f.restore[names[i]].Left? {
            world := world.(units := world.units[names[i] := UnitFile(f.restore[names[i]].content, true)]);
          }
        }
        i := i + 1;
      }
    }

    method StopUnits(active: seq<string>, f: Faults) returns (ok: bool)
      modifies this
      ensures Stage(world, ok) == StopAll(old(world), active, f)
    {
      var i := 0;
      while i < |active|
        invariant 0 <= i <= |active|
        invariant StopAll(old(world), active, f) == StopAll(world, active[i..], f)
      {
        assert active[i..][1..] == active[i + 1..];
        if active[i] in f.stop {
          if f.stop[active[i]] {
            world := world.(running := world.running - {active[i]});
          }
          return false;
        }
        world := world.(running := world.running - {active[i]});
        i := i + 1;
      }
      return true;
    }

    method RemoveUnits(active: seq<string>, f: Faults) returns (removed: seq<string>, ok: bool)
      modifies this
      ensures Removal(world, removed, ok) == RemoveAll(old(world), active, f)
    {
      removed := [];
      var i := 0;
      while i < |active|
        invariant 0 <= i <= |active|
        invariant var t := RemoveAll(world, active[i..], f);
                  RemoveAll(old(world), active, f) == Removal(t.world, removed + t.removed, t.ok)
      {
        assert active[i..][1..] == active[i + 1..];
        if active[i] in f.remove {
          return removed, false;
        }
        world := world.(units := world.units - {active[i]});
        ghost var t := RemoveAll(world, active[i + 1..], f);
        assert removed + ([active[i]] + t.removed) == (removed + [active[i]]) + t.removed;
        removed := removed + [active[i]];
        i := i + 1;
      }
      return removed, true;
    }

    method Execute(apply: bool, f: Faults) returns (ok: bool)
      modifies this
      ensures apply ==> Stage(world, ok) == Run(old(world), packaged, f)
      ensures !apply ==> world == old(world) && ok == (Acceptable(world, packaged) && !Blind(f))
    {
      var accepted, active, binary := Inspect(f);
      if !accepted || !apply {
        return accepted && !apply;
      }
      if |active| > 0 {
        StopAllFrame(world, active, f);
        ok := StopUnits(active, f);
        if !ok {
          return;
        }
        RemoveAllFrame(world, active, f);
        var removed;
        removed, ok := RemoveUnits(active, f);
        if ok && !f.reload.Fails? {
          world := Reload(world);
        }
        if !ok || !f.reload.Reloads? {
          RestoreUnits(removed, f);
          return false;
        }
      }
      if binary {
        if f.binary {
          return false;
        }
        world := world.(binary := Absent);
      }
      return true;
    }
  }

  // ----- what the stages touch -----

  lemma {:induction false} StopAllFrame(w: World, names: seq<string>, f: Faults)
    ensures var t := StopAll(w, names, f);
            && t.world == w.(running := t.world.running) && t.world.running <= w.running
            && (forall n :: n in w.running && n !in names ==> n in t.world.running)
            && (t.ok ==> forall n :: n in names ==> n !in t.world.running)
            && (t.ok <==> forall n :: n in names ==> n !in f.stop)
    decreases |names|
  {
    if names != [] {
      assert forall n :: n in names <==> n == names[0] || n in names[1..];
      if names[0] !in f.stop {
        StopAllFrame(w.(running := w.running - {names[0]}), names[1..], f);
      }
    }
  }

  /** A removal pass takes exactly the units of `removed`; all of them when it completes. */
  lemma {:induction false} RemoveAllFrame(w: World, names: seq<string>, f: Faults)
    ensures var t := RemoveAll(w, names, f);
            && t.world == w.(units := t.world.units) && t.removed <= names
            && t.world.units.Keys == w.units.Keys - (set n | n in t.removed)
            && (forall n :: n in t.world.units ==> t.world.units[n] == w.units[n])
            && (t.ok <==> t.removed == names)
            && (t.ok <==> forall n :: n in names ==> n !in f.remove)
    decreases |names|
  {
    if names != [] {
      assert forall n :: n in names <==> n == names[0] || n in names[1..];
      if names[0] !in f.remove {
        RemoveAllFrame(w.(units := w.units - {names[0]}), names[1..], f);
        assert names == [names[0]] + names[1..];
      }
    }
  }

  /** What a restore makes of one missing unit path. */
  predicate RestoredAs(t: World, packaged: Packaged, f: Faults, n: string) {
    if n !in f.restore then n in t.units && t.units[n] == UnitFile(packaged(n), true)
    else if f.restore[n].Left? then n in t.units && t.units[n] == UnitFile(f.restore[n].content, true)
    else n !in t.units
  }

  /** Restoring touches only the named units that are missing. */
  lemma {:induction false} RestoreAllFrame(w: World, packaged: Packaged, names: seq<string>, f: Faults)
    requires Distinct(names)
    requires forall n :: n in names ==> n !in w.units
    ensures var t := RestoreAll(w, packaged, names, f);
            && t == w.(units := t.units)
            && (forall n :: n !in names ==> (n in t.units <==> n in w.units))
            && (forall n :: n in w.units ==> n in t.units && t.units[n] == w.units[n])
            && (forall n :: n in names ==> RestoredAs(t, packaged, f, n))
    decreases |names|
  {
    if names != [] {
      var next := RestoreOne(w, packaged, names[0], f);
      assert forall n :: n in names <==> n == names[0] || n in names[1..];
      RestoreAllFrame(next, packaged, names[1..], f);
    }
  }

  lemma {:induction false} NonePresent(w: World, names: seq<string>)
    requires forall n :: n in names ==> n !in w.units
    ensures Present(w, names) == []
  {
    if names != [] {
      NonePresent(w, names[1..]);
    }
  }

  lemma {:induction false} PresentKeepsDistinct(w: World, names: seq<string>)
    requires Distinct(names)
    ensures Distinct(Present(w, names))
  {
    if names != [] {
      PresentKeepsDistinct(w, names[1..]);
      PresentMembers(w, names[1..], names[0]);
      assert names[0] !in names[1..];
    }
  }

  lemma {:induction false} PresentUnits(w: World)
    ensures Distinct(Present(w, UNITS))
    ensures forall n :: n in Present(w, UNITS) <==> n in UNITS && n in w.units
  {
    assert UNITS[0][9] == 'g' && UNITS[1][9] == 'o' && UNITS[2][9] == 'r';
    PresentKeepsDistinct(w, UNITS);
    forall n
      ensures n in Present(w, UNITS) <==> n in UNITS && n in w.units
    {
      PresentMembers(w, UNITS, n);
    }
  }

  // ----- one run -----

  function Stopped(w: World, f: Faults): Stage {
    StopAll(w, Present(w, UNITS), f)
  }

  function Gone(w: World, f: Faults): Removal {
    RemoveAll(Stopped(w, f).world, Present(w, UNITS), f)
  }

  /** The run gets as far as removing unit files and then puts them back. */
  predicate TurnsBack(w: World, packaged: Packaged, f: Faults) {
    && Acceptable(w, packaged) && !Blind(f) && Present(w, UNITS) != [] && Stopped(w, f).ok
    && !(Gone(w, f).ok && f.reload.Reloads?)
  }

  /** The units a run takes away and must put back, if any. */
  function PutBack(w: World, packaged: Packaged, f: Faults): seq<string> {
    if TurnsBack(w, packaged, f) then Gone(w, f).removed else []
  }

  /** What systemd still has loaded when a run turns back. */
  function LoadedBack(w: World, f: Faults): set<string> {
    if Gone(w, f).ok && f.reload.ReportsLate? then {} else w.loaded
  }

  /** Stopping and removing: what is gone, and what stays. */
  lemma {:induction false} GoneFrame(w: World, f: Faults)
    ensures var gone := Gone(w, f);
            && gone.world == World(gone.world.units, w.binary, Stopped(w, f).world.running, w.loaded)
            && Distinct(gone.removed)
            && (forall n :: n in gone.removed ==> n in UNITS && n in w.units)
            && (forall n :: n in gone.world.units <==> n in w.units && n !in gone.removed)
            && (forall n :: n in gone.world.units ==> gone.world.units[n] == w.units[n])
            && (gone.ok <==> forall n :: n in UNITS && n in w.units ==> n !in f.remove)
            && (gone.ok <==> forall n :: n in UNITS && n in w.units ==> n in gone.removed)
    ensures Stopped(w, f).ok <==> forall n :: n in UNITS && n in w.units ==> n !in f.stop
    ensures Stopped(w, f).ok ==> forall n :: n in UNITS && n in w.units ==> n !in Stopped(w, f).world.running
    ensures Stopped(w, f).world == w.(running := Stopped(w, f).world.running)
  {
    var active := Present(w, UNITS);
    PresentUnits(w);
    StopAllFrame(w, active, f);
    RemoveAllFrame(Stopped(w, f).world, active, f);
    var removed := Gone(w, f).removed;
    assert forall i :: 0 <= i < |removed| ==> removed[i] == active[i];
    if |removed| < |active| {
      PrefixMisses(active, removed);
    }
  }

  lemma {:induction false} PrefixMisses(names: seq<string>, front: seq<string>)
    requires Distinct(names) && front <= names && |front| < |names|
    ensures exists n :: n in names && n !in front
  {
    assert names[|front|] in names && names[|front|] !in front;
  }

  /** A run that turns back: every unit path it did not remove is as before, the others are as restored. */
  lemma {:induction false} TurnedBack(w: World, packaged: Packaged, f: Faults)
    requires TurnsBack(w, packaged, f)
    ensures var t, removed := Run(w, packaged, f), PutBack(w, packaged, f);
            && !t.ok && t.world == World(t.world.units, w.binary, Stopped(w, f).world.running, LoadedBack(w, f))
            && (forall n :: n in removed ==> n in UNITS && n in w.units && RestoredAs(t.world, packaged, f, n))
            && (forall n :: n !in removed ==> (n in t.world.units <==> n in w.units))
            && (forall n :: n !in removed && n in w.units ==> t.world.units[n] == w.units[n])
  {
    GoneFrame(w, f);
    var gone := Gone(w, f);
    RestoreAllFrame(Settled(gone, f), packaged, gone.removed, f);
    assert Run(w, packaged, f) == Stage(RestoreAll(Settled(gone, f), packaged, gone.removed, f), false);
    assert gone.ok ==> Reload(gone.world).loaded == {};
  }

  /** A run that does not turn back keeps every unit path, or completes with none left and nothing loaded. */
  lemma {:induction false} WentOn(w: World, packaged: Packaged, f: Faults)
    requires Acceptable(w, packaged) && !TurnsBack(w, packaged, f)
    ensures var t := Run(w, packaged, f);
            && t.world.running <= w.running && (!t.ok ==> t.world.binary == w.binary)
            && (t.world.binary == w.binary || t.world.binary == Absent)
            && (Blind(f) ==> t.world == w)
            && if Blind(f) || Present(w, UNITS) == [] || !Stopped(w, f).ok
               then t.world.units == w.units && t.world.loaded == w.loaded
                 && (Blind(f) || Present(w, UNITS) != [] ==> !t.ok)
               else t.world.loaded == {} && (forall n :: n in UNITS ==> n !in t.world.units)
                    && forall n :: n in UNITS && n in w.units ==> n !in t.world.running
  {
    StopAllFrame(w, Present(w, UNITS), f);
    if Blind(f) {
      assert Run(w, packaged, f) == Stage(w, false);
    } else if Present(w, UNITS) == [] {
      assert Run(w, packaged, f) == RemoveBinary(w, f);
    } else if !Stopped(w, f).ok {
      assert Run(w, packaged, f) == Stopped(w, f);
    } else {
      RemovalCompletes(w, f);
      assert Run(w, packaged, f) == RemoveBinary(Reload(Gone(w, f).world), f);
    }
  }

  lemma {:induction false} RemovalCompletes(w: World, f: Faults)
    requires Stopped(w, f).ok && Gone(w, f).ok
    ensures var t := Reload(Gone(w, f).world);
            && t.loaded == {} && t.binary == w.binary && t.running <= w.running
            && forall n :: n in UNITS ==> n !in t.units && (n in w.units ==> n !in t.running)
  {
    GoneFrame(w, f);
    StopAllFrame(w, Present(w, UNITS), f);
    assert forall n :: n in UNITS ==> n !in Gone(w, f).world.units;
  }

  /** A unit file of the host that a run changes or removes is one of the three, with the trusted packaged bytes. */
  ghost predicate OwnUnit(w: World, t: World, packaged: Packaged, n: string) {
    n in w.units && !(n in t.units && t.units[n] == w.units[n]) ==>
      n in UNITS && w.units[n].content == packaged(n) && w.units[n].trusted
  }

  /**
   What a run may touch: a recognized binary, its own unit files with the packaged bytes,
   and the processes of those units; and no unit file appears that was not there.
   */
  lemma {:induction false} RunTouchesOnlyItsOwn(w: World, packaged: Packaged, f: Faults)
    ensures var t := Run(w, packaged, f).world;
            && (t.binary != w.binary ==> w.binary == Recognized && t.binary == Absent)
            && (forall n :: OwnUnit(w, t, packaged, n))
            && (forall n :: n in t.units ==> n in w.units)
            && t.running <= w.running
            && (forall n :: n in w.running && n !in t.running ==> n in UNITS && n in w.units)
  {
    if Acceptable(w, packaged) && !Blind(f) {
      PresentUnits(w);
      StopAllFrame(w, Present(w, UNITS), f);
      GoneFrame(w, f);
      if TurnsBack(w, packaged, f) {
        TurnedBack(w, packaged, f);
      } else {
        WentOnOwn(w, packaged, f);
      }
    }
  }

  lemma {:induction false} WentOnOwn(w: World, packaged: Packaged, f: Faults)
    requires Acceptable(w, packaged) && !TurnsBack(w, packaged, f) && !Blind(f)
    ensures var t := Run(w, packaged, f).world;
            && (t.binary == w.binary || t.binary == Absent)
            && t.running == (if Present(w, UNITS) == [] then w else Stopped(w, f).world).running
            && (t.units == w.units || t.units == Gone(w, f).world.units)
  {
    GoneFrame(w, f);
    if Present(w, UNITS) == [] {
      assert Run(w, packaged, f) == RemoveBinary(w, f);
    } else if !Stopped(w, f).ok {
      assert Run(w, packaged, f) == Stopped(w, f);
    } else {
      assert Run(w, packaged, f) == RemoveBinary(Reload(Gone(w, f).world), f);
    }
  }

  /** What a run refuses: a foreign binary, a unit file that is not the packaged one, or a path it cannot read. */
  ghost predicate Objectionable(w: World, packaged: Packaged, f: Faults) {
    || w.binary == Foreign || BINARY in f.unreadable
    || exists n :: n in UNITS
         && (n in f.unreadable || (n in w.units && (w.units[n].content != packaged(n) || !w.units[n].trusted)))
  }

  /** A run refuses exactly that, and then changes nothing. */
  lemma {:induction false} RefusedExactly(w: World, packaged: Packaged, f: Faults)
    ensures Acceptable(w, packaged) && !Blind(f) <==> !Objectionable(w, packaged, f)
    ensures Objectionable(w, packaged, f) ==> Run(w, packaged, f) == Stage(w, false)
  {
    if !Objectionable(w, packaged, f) {
      assert forall n :: n in UNITS ==> Pristine(w, packaged, n);
    } else if w.binary != Foreign && !Blind(f) {
      var n :| n in UNITS && n in w.units && (w.units[n].content != packaged(n) || !w.units[n].trusted);
      assert !Pristine(w, packaged, n);
    }
  }

  // ----- is the next run accepted? -----

  /** A restore leaves nothing or the packaged content. */
  predicate LeavesClean(packaged: Packaged, f: Faults, n: string) {
    n in f.restore && f.restore[n].Left? ==> f.restore[n].content == packaged(n)
  }

  /**
   After any run from an accepted world, `inspect` accepts again exactly when no
   attempted restore left other content behind.
   */
  lemma {:induction false} RunStaysAccepted(w: World, packaged: Packaged, f: Faults)
    requires Acceptable(w, packaged)
    ensures Acceptable(Run(w, packaged, f).world, packaged)
       <==> forall n :: n in PutBack(w, packaged, f) ==> LeavesClean(packaged, f, n)
  {
    var t, removed := Run(w, packaged, f).world, PutBack(w, packaged, f);
    if TurnsBack(w, packaged, f) {
      TurnedBack(w, packaged, f);
      forall n | n in UNITS
        ensures Pristine(t, packaged, n) <==> (n in removed ==> LeavesClean(packaged, f, n))
      {
        assert Pristine(w, packaged, n);
        assert n in removed ==> RestoredAs(t, packaged, f, n);
      }
    } else {
      WentOn(w, packaged, f);
    }
  }

  /** Other content left by a restore blocks every later run: `inspect` refuses the file. */
  lemma {:induction false} PartialRestoreBlocksRetry(w: World, packaged: Packaged, f: Faults, n: string, later: Faults)
    requires Acceptable(w, packaged) && n in PutBack(w, packaged, f) && !LeavesClean(packaged, f, n)
    ensures var t := Run(w, packaged, f).world;
            !Acceptable(t, packaged) && Run(t, packaged, later) == Stage(t, false)
  {
    RunStaysAccepted(w, packaged, f);
  }

  // ----- recovery -----

  /** Between runs: `inspect` accepts, and systemd has loaded no unit whose file is missing. */
  predicate Recoverable(w: World, packaged: Packaged) {
    Acceptable(w, packaged) && forall n :: n in w.loaded ==> n in UNITS && n in w.units
  }

  /** A restore puts the packaged content back, even if it reports an error. */
  predicate PutsBack(packaged: Packaged, f: Faults, n: string) {
    n in f.restore ==> f.restore[n] == Left(packaged(n))
  }

  /** A restore keeps the world recoverable: it leaves no other content, and no missing file of a loaded unit. */
  predicate RestoresWell(w: World, packaged: Packaged, f: Faults, n: string) {
    && LeavesClean(packaged, f, n)
    && (n in f.restore && f.restore[n].NotCreated? ==> n !in LoadedBack(w, f))
  }

  /**
   A run keeps the world recoverable exactly when every restore it attempts leaves no
   other content and no loaded unit without its file.
   */
  lemma {:induction false} RunStaysRecoverable(w: World, packaged: Packaged, f: Faults)
    requires Recoverable(w, packaged)
    ensures Recoverable(Run(w, packaged, f).world, packaged)
       <==> forall n :: n in PutBack(w, packaged, f) ==> RestoresWell(w, packaged, f, n)
  {
    var t, removed := Run(w, packaged, f).world, PutBack(w, packaged, f);
    RunStaysAccepted(w, packaged, f);
    if TurnsBack(w, packaged, f) {
      TurnedBack(w, packaged, f);
      assert forall n :: n in removed ==> RestoredAs(t, packaged, f, n);
      assert forall n :: n in LoadedBack(w, f) ==> n in w.loaded;
    } else {
      WentOn(w, packaged, f);
    }
  }

  /**
   From a recoverable world the binary is removed only when no unit file is left and
   systemd has nothing of ours loaded; a unit file that stays away has its unit stopped;
   and a failed run keeps the binary. When every restore puts the content back, a run
   changes no unit file or has removed and reloaded them all.
   */
  lemma {:induction false} RemovalIsOrdered(w: World, packaged: Packaged, f: Faults)
    requires Recoverable(w, packaged)
    ensures var t := Run(w, packaged, f);
            && (w.binary != Absent && t.world.binary == Absent ==>
                  t.world.loaded == {} && forall n :: n in UNITS ==> n !in t.world.units)
            && (forall n :: n in UNITS && n in w.units && n !in t.world.units ==> n !in t.world.running)
            && (!t.ok ==> t.world.binary == w.binary)
            && ((forall n :: n in PutBack(w, packaged, f) ==> PutsBack(packaged, f, n)) ==>
                  t.world.units == w.units || (t.world.loaded == {} && forall n :: n in UNITS ==> n !in t.world.units))
  {
    var t := Run(w, packaged, f);
    PresentUnits(w);
    GoneFrame(w, f);
    if TurnsBack(w, packaged, f) {
      TurnedBack(w, packaged, f);
      if forall n :: n in PutBack(w, packaged, f) ==> PutsBack(packaged, f, n) {
        forall n
          ensures n in t.world.units <==> n in w.units
          ensures n in w.units ==> t.world.units[n] == w.units[n]
        {
          assert n in PutBack(w, packaged, f) ==> RestoredAs(t.world, packaged, f, n) && Pristine(w, packaged, n);
        }
        assert t.world.units == w.units;
      }
    } else {
      WentOn(w, packaged, f);
      assert Present(w, UNITS) == [] ==> forall n :: n in UNITS ==> n !in w.units;
      assert Present(w, UNITS) == [] ==> w.loaded == {};
    }
  }

  /** Any number of runs, each with its own faults. */
  function RunMany(w: World, packaged: Packaged, fs: seq<Faults>): World {
    if fs == [] then w else Run(RunMany(w, packaged, fs[..|fs| - 1]), packaged, fs[|fs| - 1]).world
  }

  ghost predicate RestoresSucceed(w: World, packaged: Packaged, fs: seq<Faults>) {
    forall k, n :: 0 <= k < |fs| && n in PutBack(RunMany(w, packaged, fs[..k]), packaged, fs[k]) ==>
      RestoresWell(RunMany(w, packaged, fs[..k]), packaged, fs[k], n)
  }

  lemma {:induction false} RunsStayRecoverable(w: World, packaged: Packaged, fs: seq<Faults>)
    requires Recoverable(w, packaged) && RestoresSucceed(w, packaged, fs)
    ensures Recoverable(RunMany(w, packaged, fs), packaged)
  {
    if fs != [] {
      var n := |fs| - 1;
      forall k | 0 <= k < n
        ensures fs[..n][..k] == fs[..k]
      {
      }
      RunsStayRecoverable(w, packaged, fs[..n]);
      RunStaysRecoverable(RunMany(w, packaged, fs[..n]), packaged, fs[n]);
    }
  }

  /**
   After any sequence of runs whose restores succeed, `inspect` still accepts and one
   fault-free run removes every unit file and the binary.
   */
  lemma {:induction false} RetryCompletes(w: World, packaged: Packaged, fs: seq<Faults>)
    requires Recoverable(w, packaged) && RestoresSucceed(w, packaged, fs)
    ensures var now := RunMany(w, packaged, fs);
            var t := Run(now, packaged, NoFaults);
            && Acceptable(now, packaged) && t.ok && t.world.binary == Absent && t.world.loaded == {}
            && (forall n :: n in UNITS ==> n !in t.world.units)
            && (forall n :: n in UNITS && n in now.units ==> n !in t.world.running)
  {
    RunsStayRecoverable(w, packaged, fs);
    CleanRunCompletes(RunMany(w, packaged, fs), packaged);
    var now := RunMany(w, packaged, fs);
    assert Present(now, UNITS) == [] ==> now.loaded == {} by { PresentUnits(now); }
  }

  /** A fault-free run from any accepted world removes every unit file and the binary. */
  lemma {:induction false} CleanRunCompletes(w: World, packaged: Packaged)
    requires Acceptable(w, packaged)
    ensures var t := Run(w, packaged, NoFaults);
            && t.ok && t.world.binary == Absent && (forall n :: n in UNITS ==> n !in t.world.units)
            && (forall n :: n in UNITS && n in w.units ==> n !in t.world.running)
            && t.world.loaded == if Present(w, UNITS) == [] then w.loaded else {}
  {
    PresentUnits(w);
    GoneFrame(w, NoFaults);
    WentOn(w, packaged, NoFaults);
  }

  // ----- when a retry skips the reload -----

  /** After a run with faults `f` systemd has units loaded, the binary is there, and no unit file is. */
  predicate LosesReload(w: World, f: Faults) {
    && w.binary != Absent && w.loaded != {}
    && if Present(w, UNITS) == [] then f.binary || Blind(f)
       else
         && f.reload.Fails? && !Blind(f)
         && forall n :: n in UNITS && n in w.units ==>
              n !in f.stop && n !in f.remove && n in f.restore && f.restore[n].NotCreated?
  }

  /** The run after one with faults `f` removes the binary while systemd still has a unit loaded. */
  ghost predicate BinaryGoesWhileLoaded(w: World, packaged: Packaged, f: Faults, later: Faults) {
    var t := Run(w, packaged, f).world;
    var u := Run(t, packaged, later).world;
    t.binary != Absent && u.binary == Absent && u.loaded != {}
  }

  lemma {:induction false} LostReload(w: World, packaged: Packaged, f: Faults)
    requires Acceptable(w, packaged) && LosesReload(w, f)
    ensures var t := Run(w, packaged, f).world;
            && Acceptable(t, packaged) && Present(t, UNITS) == [] && t.loaded == w.loaded && t.binary == w.binary
            && t.running <= w.running
  {
    var t := Run(w, packaged, f).world;
    GoneFrame(w, f);
    StopAllFrame(w, Present(w, UNITS), f);
    if Present(w, UNITS) == [] {
      assert t == w;
    } else {
      TurnedBack(w, packaged, f);
      RunStaysAccepted(w, packaged, f);
      assert forall n :: n in UNITS && n in w.units ==> RestoredAs(t, packaged, f, n);
      NonePresent(t, UNITS);
    }
  }

  /**
   The run after any accepted one can remove the binary with a unit still loaded exactly
   when that run lost its reload; then the next fault-free run does it, and reports
   success. The run before must have failed to reload and put no unit file back, or have
   found things so and failed to inspect or to remove the binary.
   */
  lemma {:induction false} BinaryGoesWhileLoadedExactly(w: World, packaged: Packaged, f: Faults)
    requires Acceptable(w, packaged)
    ensures (exists later :: BinaryGoesWhileLoaded(w, packaged, f, later)) <==> LosesReload(w, f)
    ensures LosesReload(w, f) ==>
              var u := Run(Run(w, packaged, f).world, packaged, NoFaults);
              u.ok && u.world.binary == Absent && u.world.loaded == w.loaded
  {
    if LosesReload(w, f) {
      LostReload(w, packaged, f);
      CleanRunCompletes(Run(w, packaged, f).world, packaged);
      assert BinaryGoesWhileLoaded(w, packaged, f, NoFaults);
    }
    if later :| BinaryGoesWhileLoaded(w, packaged, f, later) {
      OnlyALostReload(w, packaged, f, later);
    }
  }

  lemma {:induction false} OnlyALostReload(w: World, packaged: Packaged, f: Faults, later: Faults)
    requires Acceptable(w, packaged) && BinaryGoesWhileLoaded(w, packaged, f, later)
    ensures LosesReload(w, f)
  {
    var t := Run(w, packaged, f).world;
    LaterRunSkipsReload(t, packaged, later);
    GoneFrame(w, f);
    if TurnsBack(w, packaged, f) {
      TurnedBack(w, packaged, f);
      forall n | n in UNITS && n in w.units
        ensures n in PutBack(w, packaged, f) && n in f.restore && f.restore[n].NotCreated?
      {
        assert n !in t.units;
      }
    } else {
      WentOn(w, packaged, f);
      if t.units == w.units {
        NonePresent(w, UNITS);
      }
    }
  }

  /** A run removes the binary with something loaded only when it finds no unit file. */
  lemma {:induction false} LaterRunSkipsReload(t: World, packaged: Packaged, later: Faults)
    requires t.binary != Absent && Run(t, packaged, later).world.binary == Absent
             && Run(t, packaged, later).world.loaded != {}
    ensures Present(t, UNITS) == [] && t.loaded != {} && forall n :: n in UNITS ==> n !in t.units
  {
    PresentUnits(t);
    if TurnsBack(t, packaged, later) {
      TurnedBack(t, packaged, later);
    } else if Acceptable(t, packaged) {
      WentOn(t, packaged, later);
    }
  }

  /** One unit, one failed reload and one failed restore are enough. */
  lemma {:induction false} RetryCanSkipTheReload(packaged: Packaged)
    ensures var unit := UNITS[0];
            var w := World(map[unit := UnitFile(packaged(unit), true)], Recognized, {}, {unit});
            var f := Faults({}, map[], {}, Fails, map[unit := NotCreated], false);
            && Recoverable(w, packaged)
            && Run(Run(w, packaged, f).world, packaged, NoFaults) == Stage(World(map[], Absent, {}, {unit}), true)
  {
    var unit := UNITS[0];
    var w := World(map[unit := UnitFile(packaged(unit), true)], Recognized, {}, {unit});
    var f := Faults({}, map[], {}, Fails, map[unit := NotCreated], false);
    assert unit in w.loaded;
    assert Recoverable(w, packaged) && LosesReload(w, f);
    PresentUnits(w);
    assert unit in Present(w, UNITS);
    LostReload(w, packaged, f);
    GoneFrame(w, f);
    TurnedBack(w, packaged, f);
    var t := Run(w, packaged, f).world;
    assert RestoredAs(t, packaged, f, unit);
    assert t == World(map[], Recognized, {}, {unit});
    assert Run(t, packaged, NoFaults) == RemoveBinary(t, NoFaults);
  }
}
