/**
 Install and upgrade as one transaction (`Apply`, internal/lifecycle/manager_linux.go):
 a body of fallible steps that logs each change, and a deferred rollback that undoes
 any prefix of it.
 */
module Lifecycle {
  import opened Wrappers
  import opened LifecycleHost
  import opened LifecycleLog

  /** One `put`: content with mode and owner, replacing an existing file or keeping it. */
  datatype Put = Put(path: string, entry: Entry, replace: bool)

  ghost predicate DistinctPuts(puts: seq<Put>) {
    && (forall i, j :: 0 <= i < j < |puts| ==> puts[i].path != puts[j].path)
    && forall i :: 0 <= i < |puts| ==> puts[i].entry.special == 0
  }

  function PutOne(files: map<string, Entry>, p: Put): map<string, Entry> {
    if p.path in files && !p.replace then files else files[p.path := p.entry]
  }

  /** The files after all puts of a release took effect. */
  function InstallAll(files: map<string, Entry>, puts: seq<Put>): map<string, Entry> {
    if puts == [] then files else PutOne(InstallAll(files, puts[..|puts| - 1]), puts[|puts| - 1])
  }

  lemma {:induction false} InstallAllAt(files: map<string, Entry>, puts: seq<Put>, path: string)
    requires forall i :: 0 <= i < |puts| ==> puts[i].path != path
    ensures Lookup(InstallAll(files, puts), path) == Lookup(files, path)
  {
    if puts != [] {
      InstallAllAt(files, puts[..|puts| - 1], path);
    }
  }

  lemma {:induction false} InstallStep(files: map<string, Entry>, puts: seq<Put>, i: nat)
    requires i < |puts|
    ensures InstallAll(files, puts[..i + 1]) == PutOne(InstallAll(files, puts[..i]), puts[i])
  {
    assert puts[..i + 1][..i] == puts[..i];
  }

  ghost predicate NamedBefore(puts: seq<Put>, n: nat, path: string) {
    exists i :: 0 <= i < n && i < |puts| && puts[i].path == path
  }

  /** Every snapshot is for one of the first `n` puts. */
  ghost predicate ChangedBy(changed: seq<Snapshot>, puts: seq<Put>, n: nat) {
    forall k :: 0 <= k < |changed| ==> NamedBefore(puts, n, changed[k].path)
  }

  lemma {:induction false} NotYetChanged(changed: seq<Snapshot>, puts: seq<Put>, n: nat)
    requires DistinctPuts(puts) && n < |puts| && ChangedBy(changed, puts, n)
    ensures !Touched(changed, puts[n].path)
    ensures forall prior :: ChangedBy(changed + [Snapshot(puts[n].path, prior)], puts, n + 1)
    ensures ChangedBy(changed, puts, n + 1)
  {
    forall k | 0 <= k < |changed|
      ensures changed[k].path != puts[n].path && NamedBefore(puts, n + 1, changed[k].path)
    {
      assert NamedBefore(puts, n, changed[k].path);
    }
    assert NamedBefore(puts, n + 1, puts[n].path);
  }

  function OriginOf(host: Host): Origin
    reads host
  {
    Origin(host.files, host.dirs, host.running, host.enabled, host.loaded)
  }

  /** A unit started from the new release. */
  function Installed(files: map<string, Entry>, puts: seq<Put>, unit: string): Process {
    var now := InstallAll(files, puts);
    Launch(now, Definitions(now), unit)
  }

  /** The units after an install that starts the gateway: one that runs already is left alone. */
  function WithGateway(running: map<string, Process>, files: map<string, Entry>, loaded: map<string, string>)
    : map<string, Process>
  {
    if GATEWAY in running then running else running[GATEWAY := Launch(files, loaded, GATEWAY)]
  }

  /** Every installation directory exists. */
  ghost predicate Furnished(dirs: set<string>) {
    forall d :: d in DIRECTORIES ==> d in dirs
  }

  class Transaction {
    const host: Host
    ghost const origin: Origin
    var changed: seq<Snapshot>
    var created: seq<string>
    var prior: seq<string>
    var started: seq<string>
    var unitsInstalled: bool
    ghost var stray: Option<string>

    constructor (host: Host)
      ensures this.host == host
      ensures origin == OriginOf(host)
      ensures changed == [] && created == [] && prior == [] && started == [] && !unitsInstalled && stray == None
    {
      this.host := host;
      origin := Origin(host.files, host.dirs, host.running, host.enabled, host.loaded);
      changed, created, prior, started, unitsInstalled, stray := [], [], [], [], false, None;
    }

    /** Every change to files and directories so far is logged. */
    ghost predicate Logged()
      reads this, host
    {
      && Rooted(origin.files, origin.dirs)
      && FilesLogged(origin.files, host.files, changed)
      && DirsLogged(origin.dirs, host.dirs, created)
      && (host.copy.Some? ==> ROOT in origin.dirs)
    }

    // ----- the body's stages -----

    method CreateDirectories(smooth: bool) returns (ok: bool)
      requires Logged() && created == []
      modifies this`created, host`dirs
      ensures Logged()
      ensures ok ==> Furnished(host.dirs)
      ensures smooth ==> ok
    {
      var i := 0;
      DirectoryNames();
      while i < |DIRECTORIES|
        invariant 0 <= i <= |DIRECTORIES| && Logged()
        invariant i == 0 ==> created == []
        invariant forall j :: 0 <= j < i ==> DIRECTORIES[j] in host.dirs
      {
        var d := DIRECTORIES[i];
        var readable: bool :| smooth ==> readable;
        if !readable {
          return false;
        }
        if d !in host.dirs {
          DirAdded(origin.dirs, host.dirs, created, d);
          ok := host.MakeDir(d, smooth);
          if !ok {
            return;
          }
          created := created + [d];
          var owned: bool :| smooth ==> owned;
          if !owned {
            return false;
          }
        }
        i := i + 1;
      }
      return true;
    }

    /** The protected rollback copy of every file about to be replaced. */
    method CopyForRollback(paths: seq<string>, smooth: bool) returns (ok: bool)
      requires Logged() && ROOT in origin.dirs
      modifies host`copy
      ensures Logged()
      ensures ok ==> host.copy.Some? && forall p :: p in paths && p in host.files ==>
                p in host.copy.value && host.copy.value[p] == Plain(host.files[p])
      ensures smooth ==> ok
    {
      var made: bool :| smooth ==> made;
      if !made {
        return false;
      }
      host.copy := Some(map[]);
      var i := 0;
      while i < |paths|
        invariant 0 <= i <= |paths| && host.copy.Some?
        invariant forall k :: 0 <= k < i && paths[k] in host.files ==>
                    paths[k] in host.copy.value && host.copy.value[paths[k]] == Plain(host.files[paths[k]])
      {
        var captured, snap := host.Capture(paths[i], smooth);
        if !captured {
          return false;
        }
        if snap.prior.Some? {
          var written: bool :| smooth ==> written;
          host.copy := Some(host.copy.value[paths[i] := snap.prior.value]);
          if !written {
            return false;
          }
        }
        i := i + 1;
      }
      return true;
    }

    method ListActive(smooth: bool) returns (ok: bool)
      requires prior == []
      modifies this`prior
      ensures forall u :: u in prior ==> u in UNITS && u in host.running
      ensures ok ==> forall u :: u in UNITS && u in host.running ==> u in prior
      ensures smooth ==> ok
    {
      var i := 0;
      while i < |UNITS|
        invariant 0 <= i <= |UNITS|
        invariant forall u :: u in prior ==> u in UNITS && u in host.running
        invariant forall k :: 0 <= k < i && UNITS[k] in host.running ==> UNITS[k] in prior
      {
        var known: bool :| smooth ==> known;
        if !known {
          return false;
        }
        if UNITS[i] in host.running {
          prior := prior + [UNITS[i]];
        }
        i := i + 1;
      }
      return true;
    }

    method StopPrior(smooth: bool) returns (ok: bool)
      requires UnitsLogged(origin, host.running, prior, started, stray) && started == [] && stray == None
      modifies host`running
      ensures UnitsLogged(origin, host.running, prior, started, stray)
      ensures ok ==> forall u :: u in prior ==> u !in host.running
      ensures smooth ==> ok
    {
      var i := 0;
      while i < |prior|
        invariant 0 <= i <= |prior|
        invariant UnitsLogged(origin, host.running, prior, started, stray)
        invariant forall k :: 0 <= k < i ==> prior[k] !in host.running
      {
        var stopped := host.Stop(prior[i], smooth);
        if !stopped {
          return false;
        }
        i := i + 1;
      }
      return true;
    }

    /** `put`: snapshot, then write, unless the file exists and is to be kept. */
    method PutFile(p: Put, smooth: bool) returns (ok: bool)
      requires Logged() && !Touched(changed, p.path) && p.entry.special == 0
      modifies this`changed, host`files
      ensures Logged()
      ensures ok ==> host.files == PutOne(old(host.files), p)
      ensures changed == old(changed)
              || changed == old(changed) + [Snapshot(p.path, PlainLookup(old(host.files), p.path))]
      ensures smooth ==> ok
    {
      var captured, snap := host.Capture(p.path, smooth);
      if !captured {
        return false;
      }
      if snap.prior.Some? && !p.replace {
        return true;
      }
      ghost var before, logged := host.files, changed;
      changed := changed + [snap];
      var written := host.Write(p.path, p.entry, smooth);
      SnapshotCovers(origin.files, before, host.files, logged, p.path, p.entry);
      ok := written;
    }

    method InstallFiles(puts: seq<Put>, smooth: bool) returns (ok: bool)
      requires Logged() && changed == [] && host.files == origin.files && DistinctPuts(puts)
      modifies this`changed, host`files
      ensures Logged()
      ensures ok ==> host.files == InstallAll(origin.files, puts)
      ensures forall p :: Touched(changed, p) ==> exists i :: 0 <= i < |puts| && puts[i].path == p
      ensures smooth ==> ok
    {
      var i := 0;
      while i < |puts|
        invariant 0 <= i <= |puts| && Logged()
        invariant host.files == InstallAll(origin.files, puts[..i])
        invariant ChangedBy(changed, puts, i)
      {
        InstallStep(origin.files, puts, i);
        NotYetChanged(changed, puts, i);
        ok := PutFile(puts[i], smooth);
        if !ok {
          return;
        }
        i := i + 1;
      }
      assert puts[..i] == puts;
      return true;
    }

    /** Restarting the units an upgrade stopped, each with a readiness wait. */
    method StartPrior(smooth: bool) returns (ok: bool)
      requires UnitsLogged(origin, host.running, prior, started, stray) && started == [] && stray == None
      requires forall u :: u in prior ==> u !in host.running
      modifies this`started, this`stray, host`running
      ensures UnitsLogged(origin, host.running, prior, started, stray)
      ensures ok ==> stray == None && forall u :: u in prior ==>
                u in host.running && host.running[u] == Launch(host.files, host.loaded, u)
      ensures stray.Some? ==> host.running[stray.value] == Launch(host.files, host.loaded, stray.value)
      ensures smooth ==> ok
    {
      var i := 0;
      while i < |prior|
        invariant 0 <= i <= |prior| && started == prior[..i] && stray == None
        invariant UnitsLogged(origin, host.running, prior, started, stray)
        invariant forall u :: u in prior && u in host.running ==> u in started
        invariant forall u :: u in started ==>
                    u in host.running && host.running[u] == Launch(host.files, host.loaded, u)
      {
        var unit := prior[i];
        assert prior[..i + 1] == prior[..i] + [unit];
        var up := host.Start(unit, smooth);
        if !up {
          if unit in host.running && unit !in started {
            stray := Some(unit);
          }
          return false;
        }
        started := started + [unit];
        var ready: bool :| smooth ==> ready;
        if !ready {
          return false;
        }
        i := i + 1;
      }
      assert prior[..i] == prior;
      return true;
    }

    /** The start of a fresh installation: the gateway, its readiness, and enabling it. */
    method StartGateway(smooth: bool) returns (ok: bool)
      requires started == [] && host.running == origin.running && host.enabled == origin.enabled
      modifies this`started, host`running, host`enabled
      ensures GatewayOnly(origin, host.running, host.enabled, true)
      ensures forall u :: u in started ==> u == GATEWAY
      ensures ok ==>
                && host.running == WithGateway(origin.running, host.files, host.loaded)
                && host.enabled == origin.enabled + {GATEWAY}
      ensures smooth ==> ok
    {
      var up := host.Start(GATEWAY, smooth);
      if !up {
        return false;
      }
      started := [GATEWAY];
      var ready: bool :| smooth ==> ready;
      if !ready {
        return false;
      }
      ok := host.Enable(GATEWAY, smooth);
    }

    // ----- the rollback's stages -----

    /** Stop what this transaction started; other units are untouched. */
    method StopStarted(smooth: bool) returns (ok: bool)
      modifies host`running
      ensures Halted(old(host.running), host.running, started)
      ensures ok ==> forall u :: u in started ==> u !in host.running
      ensures smooth ==> ok
    {
      ok := true;
      var i := 0;
      while i < |started|
        invariant 0 <= i <= |started|
        invariant Halted(old(host.running), host.running, started)
        invariant ok ==> forall k :: 0 <= k < i ==> started[k] !in host.running
        invariant smooth ==> ok
      {
        var done := host.Stop(started[i], smooth);
        ok := ok && done;
        i := i + 1;
      }
    }

    /** Write every snapshot back, newest first; errors do not stop the loop. */
    method RestoreFiles(smooth: bool) returns (ok: bool)
      requires FilesLogged(origin.files, host.files, changed)
      modifies host`files
      ensures ok ==> FilesRestored(origin.files, host.files, changed)
      ensures smooth ==> ok
    {
      ok := true;
      var i := |changed|;
      while i > 0
        invariant 0 <= i <= |changed|
        invariant forall p :: !Touched(changed, p) ==> Lookup(host.files, p) == Lookup(origin.files, p)
        invariant ok ==> forall k :: i <= k < |changed| ==> Lookup(host.files, changed[k].path) == changed[k].prior
        invariant smooth ==> ok
      {
        i := i - 1;
        var item := changed[i];
        assert Touched(changed, item.path);
        var done;
        if item.prior.Some? {
          done := host.Write(item.path, item.prior.value, smooth);
        } else {
          done := host.RemoveFile(item.path, smooth);
        }
        ok := ok && done;
      }
    }

    /** Remove the created directories, newest first. */
    method RemoveCreated(smooth: bool) returns (ok: bool)
      requires Rooted(origin.files, origin.dirs) && DirsLogged(origin.dirs, host.dirs, created)
               && (host.copy.Some? ==> ROOT in origin.dirs)
      modifies host`dirs
      ensures ok && host.files.Keys == origin.files.Keys ==> host.dirs == origin.dirs
      ensures smooth && host.files.Keys == origin.files.Keys ==> ok
    {
      ok := true;
      var i := |created|;
      assert created[..i] == created;
      while i > 0
        invariant 0 <= i <= |created|
        invariant ok && host.files.Keys == origin.files.Keys ==> DirsLogged(origin.dirs, host.dirs, created[..i])
        invariant smooth && host.files.Keys == origin.files.Keys ==> ok
      {
        i := i - 1;
        if ok && host.files.Keys == origin.files.Keys {
          NextDirEmpty(origin, host.files, host.dirs, created, i, host.copy.Some?);
        }
        var done := host.RemoveDir(created[i], smooth);
        ok := ok && done;
      }
    }

    /** Start every unit that was active before. */
    method RestartPrior(smooth: bool) returns (ok: bool)
      modifies host`running
      ensures Relaunched(old(host.running), host.running, prior, host.files, host.loaded)
      ensures ok ==> forall u :: u in prior ==> u in host.running
      ensures smooth ==> ok
    {
      ok := true;
      var i := 0;
      while i < |prior|
        invariant 0 <= i <= |prior|
        invariant Relaunched(old(host.running), host.running, prior, host.files, host.loaded)
        invariant ok ==> forall k :: 0 <= k < i ==> prior[k] in host.running
        invariant smooth ==> ok
      {
        var done := host.Start(prior[i], smooth);
        ok := ok && done;
        i := i + 1;
      }
    }

    /** Where the units stand in the middle of the transaction. */
    ghost predicate UnitsInHand(upgrade: bool, start: bool)
      reads this, host
    {
      if upgrade
      then UnitsLogged(origin, host.running, prior, started, stray) && host.enabled == origin.enabled
      else && GatewayOnly(origin, host.running, host.enabled, start && unitsInstalled) && prior == [] && stray == None
           && forall u :: u in started ==> u == GATEWAY && start && unitsInstalled
    }

    /** The rollback's file half: restore files, remove created directories, reload definitions. */
    method UndoFiles(smooth: bool) returns (ok: bool)
      requires Logged()
      modifies host`files, host`dirs, host`loaded
      ensures ok ==>
                FilesRestored(origin.files, host.files, changed) && host.dirs == origin.dirs
                  && host.loaded == Definitions(origin.files)
      ensures ok ==> DataAt(host.files, BINARY) == DataAt(origin.files, BINARY)
      ensures smooth ==> ok
    {
      var restored := RestoreFiles(smooth);
      if restored {
        RestoredExactly(origin.files, host.files, changed);
        RestoredData(origin.files, host.files, changed);
      }
      var removed := RemoveCreated(smooth);
      var reloaded := host.Reload(smooth);
      return restored && removed && reloaded;
    }

    /** The units' first half: a started gateway is disabled, started units are stopped. */
    method HaltUnits(upgrade: bool, start: bool, smooth: bool) returns (ok: bool)
      requires UnitsInHand(upgrade, start)
      modifies host`running, host`enabled
      ensures upgrade ==> Halted(old(host.running), host.running, started) && host.enabled == origin.enabled
      ensures upgrade && ok ==> forall u :: u in started ==> u !in host.running
      ensures !upgrade && ok ==> UnitsBack(origin, host.running, host.enabled, false, start && unitsInstalled, stray)
      ensures smooth ==> ok
    {
      var first := true;
      if !upgrade && start && unitsInstalled {
        first := host.DisableNow(GATEWAY, smooth);
      }
      var second := StopStarted(smooth);
      return first && second;
    }

    /** Everything but the rollback copy. */
    method Undo(upgrade: bool, start: bool, smooth: bool) returns (ok: bool)
      requires Logged() && UnitsInHand(upgrade, start)
      modifies host`files, host`dirs, host`running, host`enabled, host`loaded
      ensures ok ==>
                FilesRestored(origin.files, host.files, changed) && host.dirs == origin.dirs
                  && host.loaded == Definitions(origin.files)
      ensures ok ==> UnitsBack(origin, host.running, host.enabled, upgrade, start && unitsInstalled, stray)
      ensures ok && stray.Some? ==>
                stray.value in old(host.running) && stray.value in host.running
                  && host.running[stray.value] == old(host.running)[stray.value]
      ensures smooth ==> ok
    {
      ghost var before := host.running;
      var halted := HaltUnits(upgrade, start, smooth);
      ghost var still := host.running;
      var undone := UndoFiles(smooth);
      var relaunched := RestartPrior(smooth);
      ok := halted && undone && relaunched;
      if !ok {
        return;
      }
      if !upgrade {
        RelaunchedNone(still, host.running, host.files, host.loaded);
      } else {
        UpgradeUnitsBack(origin, before, still, host.running, prior, started, stray, host.files, host.loaded);
      }
    }

    /** Everything the rollback is for: files, directories, definitions and units are back. */
    twostate predicate Undone(upgrade: bool, start: bool)
      reads this, host
    {
      && FilesRestored(origin.files, host.files, changed) && host.dirs == origin.dirs
      && host.loaded == Definitions(origin.files)
      && UnitsBack(origin, host.running, host.enabled, upgrade, start && unitsInstalled, stray)
      && (stray.Some? ==>
            && stray.value in old(host.running) && stray.value in host.running
            && host.running[stray.value] == old(host.running)[stray.value])
    }

    /**
     The deferred rollback: everything is undone unless one of the undoing operations
     failed, and then the copy is kept whole; a complete rollback also removes the copy,
     and if that fails part of it may be gone.
     */
    method Rollback(upgrade: bool, start: bool, smooth: bool) returns (undone: bool, ok: bool)
      requires Logged() && UnitsInHand(upgrade, start)
      modifies host
      ensures undone ==> Undone(upgrade, start)
      ensures ok ==> undone && host.copy == None
      ensures !undone ==> host.copy == old(host.copy)
      ensures smooth ==> ok
    {
      undone := Undo(upgrade, start, smooth);
      ok := undone;
      if ok && host.copy.Some? {
        ok := host.RemoveCopy(smooth);
      }
    }

    /** The deferred function of a failed body: the rollback, and what it amounts to. */
    method Recover(upgrade: bool, start: bool, puts: seq<Put>, smooth: bool) returns (r: Result)
      requires Logged() && UnitsInHand(upgrade, start)
      requires forall p :: Touched(changed, p) ==> exists i :: 0 <= i < |puts| && puts[i].path == p
      modifies host
      ensures !r.Done() && (r.Undone() ==> Undone(upgrade, start) && Rooted(host.files, host.dirs))
      ensures r.Undone() && PlainPuts(origin.files, puts) ==> host.files == origin.files
      ensures r.RolledBack? ==> host.copy == None
      ensures r.RollbackIncomplete? ==> host.copy == old(host.copy)
      ensures smooth ==> r.RolledBack?
    {
      var undone, ok := Rollback(upgrade, start, smooth);
      if !undone {
        return RollbackIncomplete;
      }
      UndoneFiles(origin, host.files, host.dirs, changed, puts);
      return if ok then RolledBack else RolledBackCopyKept;
    }

    /** The deferred function of a successful body: remove the rollback copy, if there is one. */
    method Commit(smooth: bool) returns (r: Result)
      modifies host`copy
      ensures r.Done() && (r.Applied? ==> host.copy == None)
      ensures smooth ==> r.Applied?
    {
      var removed := true;
      if host.copy.Some? {
        removed := host.RemoveCopy(smooth);
      }
      return if removed then Applied else AppliedCopyKept;
    }

    // ----- the whole transaction -----

    /** The rollback copy holds the original of every file listed. */
    ghost predicate CopyHolds(copied: seq<string>)
      reads this, host
    {
      host.copy.Some? && forall p :: p in copied && p in origin.files ==>
          p in host.copy.value && host.copy.value[p] == Plain(origin.files[p])
    }

    ghost predicate Untouched()
      reads this, host
    {
      && origin == OriginOf(host) && host.copy == None
      && changed == [] && created == [] && prior == [] && started == [] && !unitsInstalled && stray == None
      && Rooted(host.files, host.dirs)
    }

    /** Upgrade only: copy, list and stop. */
    method Quiesce(copied: seq<string>, smooth: bool) returns (ok: bool)
      requires Logged() && UnitsLogged(origin, host.running, prior, started, stray) && prior == []
               && started == [] && stray == None
      requires ROOT in origin.dirs && host.files == origin.files && host.running == origin.running
      modifies this`prior, host`copy, host`running
      ensures Logged() && UnitsLogged(origin, host.running, prior, started, stray)
      ensures ok ==>
                CopyHolds(copied) && (forall u :: u in UNITS && u in origin.running ==> u in prior)
                    && forall u :: u in prior ==> u !in host.running
      ensures smooth ==> ok
    {
      ok := CopyForRollback(copied, smooth);
      if !ok {
        return;
      }
      ok := ListActive(smooth);
      if !ok {
        return;
      }
      ok := StopPrior(smooth);
    }

    /** After the files are in place: reload definitions and start what should run. */
    method Activate(upgrade: bool, start: bool, smooth: bool) returns (ok: bool)
      requires UnitsInHand(upgrade, start) && started == [] && stray == None && unitsInstalled
      requires upgrade ==> forall u :: u in prior ==> u !in host.running
      requires !upgrade ==> host.running == origin.running && host.enabled == origin.enabled
      modifies this`started, this`stray, host`running, host`enabled, host`loaded
      ensures UnitsInHand(upgrade, start)
      ensures ok ==> host.loaded == Definitions(host.files) && stray == None
      ensures ok && upgrade ==> forall u :: u in prior ==>
                u in host.running && host.running[u] == Launch(host.files, host.loaded, u)
      ensures ok && !upgrade && start ==>
                && host.running == WithGateway(origin.running, host.files, host.loaded)
                && host.enabled == origin.enabled + {GATEWAY}
      ensures stray.Some? ==>
                upgrade && host.loaded == Definitions(host.files)
                  && host.running[stray.value] == Launch(host.files, host.loaded, stray.value)
      ensures smooth ==> ok
    {
      var valid: bool :| smooth ==> valid;
      if !valid {
        return false;
      }
      var reloaded := host.Reload(smooth);
      if !reloaded {
        return false;
      }
      ok := true;
      if upgrade {
        ok := StartPrior(smooth);
      } else if start {
        ok := StartGateway(smooth);
      }
    }

    /** Before any file changes: identities, directories and, for an upgrade, a quiet host. */
    method Prepare(upgrade: bool, start: bool, copied: seq<string>, smooth: bool) returns (ok: bool)
      requires Untouched() && (upgrade ==> ROOT in host.dirs)
      modifies this`created, this`prior, host`dirs, host`copy, host`running
      ensures Logged() && UnitsInHand(upgrade, start)
      ensures ok ==> Furnished(host.dirs)
      ensures ok && upgrade ==>
                && CopyHolds(copied) && (forall u :: u in UNITS && u in origin.running ==> u in prior)
                && forall u :: u in prior ==> u !in host.running
      ensures smooth ==> ok
    {
      assert DirsLogged(origin.dirs, host.dirs, created);
      var identities: bool :| smooth ==> identities;
      if !identities {
        return false;
      }
      ok := CreateDirectories(smooth);
      if ok && upgrade {
        ok := Quiesce(copied, smooth);
      }
    }

    /** Write the release and start what should run. */
    method Deploy(upgrade: bool, start: bool, puts: seq<Put>, smooth: bool) returns (ok: bool)
      requires Logged() && UnitsInHand(upgrade, start) && DistinctPuts(puts) && host.files == origin.files
      requires changed == [] && started == [] && stray == None && !unitsInstalled
      requires upgrade ==> forall u :: u in prior ==> u !in host.running
      modifies this`changed, this`unitsInstalled, this`started, this`stray, host`files, host`running, host`enabled,
               host`loaded
      ensures Logged() && UnitsInHand(upgrade, start)
      ensures forall p :: Touched(changed, p) ==> exists i :: 0 <= i < |puts| && puts[i].path == p
      ensures ok ==>
                host.files == InstallAll(origin.files, puts) && host.loaded == Definitions(host.files) && stray == None
      ensures ok && upgrade ==> forall u :: u in prior ==>
                u in host.running && host.running[u] == Launch(host.files, host.loaded, u)
      ensures ok && !upgrade && start ==>
                && host.running == WithGateway(origin.running, host.files, host.loaded)
                && host.enabled == origin.enabled + {GATEWAY}
      ensures stray.Some? ==>
                && upgrade && stray.value in host.running
                && host.running[stray.value] == Installed(origin.files, puts, stray.value)
      ensures smooth ==> ok
    {
      var templated: bool :| smooth ==> templated;
      if !templated {
        return false;
      }
      ok := InstallFiles(puts, smooth);
      if !ok {
        return;
      }
      unitsInstalled := true;
      ok := Activate(upgrade, start, smooth);
    }

    /** The body of `Apply`; whatever step fails, the log covers what was done. */
    method Body(upgrade: bool, start: bool, puts: seq<Put>, copied: seq<string>, smooth: bool) returns (ok: bool)
      requires Untouched() && DistinctPuts(puts) && (upgrade ==> ROOT in host.dirs)
      modifies this, host
      ensures Logged() && UnitsInHand(upgrade, start)
      ensures upgrade && changed != [] ==> CopyHolds(copied)
      ensures forall p :: Touched(changed, p) ==> exists i :: 0 <= i < |puts| && puts[i].path == p
      ensures ok ==>
                && host.files == InstallAll(origin.files, puts) && Furnished(host.dirs)
                && host.loaded == Definitions(host.files) && stray == None
      ensures ok && upgrade ==>
                && (forall u :: u in UNITS && u in origin.running ==> u in prior)
                && forall u :: u in prior ==> u in host.running && host.running[u] == Launch(host.files, host.loaded, u)
      ensures ok && !upgrade && start ==>
                && host.running == WithGateway(origin.running, host.files, host.loaded)
                && host.enabled == origin.enabled + {GATEWAY}
      ensures stray.Some? ==>
                && upgrade && stray.value in host.running
                && host.running[stray.value] == Installed(origin.files, puts, stray.value)
      ensures smooth ==> ok
    {
      ok := Prepare(upgrade, start, copied, smooth);
      if ok {
        ok := Deploy(upgrade, start, puts, smooth);
      }
    }
  }

  datatype Result = Applied | AppliedCopyKept | RolledBack | RolledBackCopyKept | RollbackIncomplete {
    /** The release is installed, whatever became of the rollback copy. */
    predicate Done() { Applied? || AppliedCopyKept? }

    /** The host is as it was, whatever became of the rollback copy. */
    predicate Undone() { RolledBack? || RolledBackCopyKept? }
  }

  /** How the transaction ended, for callers' reasoning: its log and what a failing start left running. */
  datatype Trail = Trail(changed: seq<Snapshot>, stray: Option<string>, gatewayTouched: bool)

  /** Whether no step of the transaction fails, and whether no step of its rollback does. */
  datatype Course = Course(smooth: bool, undoSmooth: bool)

  /**
   `Apply` after its gate: all of the release is installed and what ran runs again, or
   the host is as it was, or an undoing operation failed and the protected copy still
   holds the originals. Only a failed removal of the copy can lose part of it, and then
   nothing needs it any more. With no failing step the release is applied.
   */
  method Apply(host: Host, upgrade: bool, start: bool, puts: seq<Put>, copied: seq<string>, course: Course)
    returns (r: Result, ghost trail: Trail)
    requires host.copy == None && Rooted(host.files, host.dirs) && DistinctPuts(puts) && (upgrade ==> ROOT in host.dirs)
    modifies host
    ensures r.Done() ==>
              && host.files == InstallAll(old(host.files), puts) && Furnished(host.dirs)
              && host.loaded == Definitions(host.files)
              && (upgrade ==> host.running.Keys == old(host.running.Keys) && host.enabled == old(host.enabled)
                              && forall u :: u in UNITS && u in host.running ==>
                                   host.running[u] == Launch(host.files, host.loaded, u))
              && (!upgrade && start ==>
                    && host.running == WithGateway(old(host.running), host.files, host.loaded)
                    && host.enabled == old(host.enabled) + {GATEWAY})
              && (!upgrade && !start ==> host.running == old(host.running) && host.enabled == old(host.enabled))
    ensures r.Undone() ==>
              && FilesRestored(old(host.files), host.files, trail.changed) && host.dirs == old(host.dirs)
              && host.loaded == Definitions(old(host.files))
              && UnitsBack(old(OriginOf(host)), host.running, host.enabled, upgrade, trail.gatewayTouched, trail.stray)
    ensures r.Applied? || r.RolledBack? ==> host.copy == None
    ensures r.Done() || r.Undone() ==>
              Rooted(host.files, host.dirs) && (ROOT in old(host.dirs) || r.Done() ==> ROOT in host.dirs)
    ensures r.Undone() && PlainPuts(old(host.files), puts) ==> host.files == old(host.files)
    ensures course.smooth ==> r.Applied?
    ensures course.undoSmooth ==> !r.RolledBackCopyKept? && !r.RollbackIncomplete?
    ensures r.RollbackIncomplete? && upgrade && trail.changed != [] ==>
              && host.copy.Some?
              && forall p :: p in copied && p in old(host.files) ==>
                   p in host.copy.value && host.copy.value[p] == Plain(old(host.files)[p])
    ensures trail.stray.Some? ==> upgrade && trail.stray.value in UNITS
    ensures r.Undone() && !upgrade && GATEWAY !in old(host.running) && GATEWAY !in old(host.enabled) ==>
              GATEWAY !in host.running && GATEWAY !in host.enabled
    ensures r.Undone() && trail.stray.Some? ==>
              trail.stray.value in host.running
                && host.running[trail.stray.value] == Installed(old(host.files), puts, trail.stray.value)
  {
    var t := new Transaction(host);
    var ok := t.Body(upgrade, start, puts, copied, course.smooth);
    trail := Trail(t.changed, t.stray, start && t.unitsInstalled);
    if ok {
      FurnishedIsRooted(t.origin, host.files, host.dirs, t.created);
      if upgrade {
        UpgradedUnits(t.origin, host.running, t.prior, t.started, host.files, host.loaded);
      }
      r := t.Commit(course.smooth);
    } else {
      r := t.Recover(upgrade, start, puts, course.undoSmooth);
    }
  }

  /** No existing file that is to be put has special mode bits. */
  ghost predicate PlainPuts(files: map<string, Entry>, puts: seq<Put>) {
    forall i :: 0 <= i < |puts| && puts[i].path in files ==> files[puts[i].path].special == 0
  }

  /** Undone files are rooted as before, and exactly as before if no file to be put had special bits. */
  lemma {:induction false} UndoneFiles(
    o: Origin, files: map<string, Entry>, dirs: set<string>, changed: seq<Snapshot>, puts: seq<Put>)
    requires Rooted(o.files, o.dirs) && FilesRestored(o.files, files, changed) && dirs == o.dirs
    requires forall p :: Touched(changed, p) ==> exists i :: 0 <= i < |puts| && puts[i].path == p
    ensures Rooted(files, dirs)
    ensures PlainPuts(o.files, puts) ==> files == o.files
  {
    RestoredExactly(o.files, files, changed);
  }

  /** With every installation directory in place any set of files is rooted. */
  lemma {:induction false} FurnishedIsRooted(
    o: Origin, files: map<string, Entry>, dirs: set<string>, created: seq<string>)
    requires Rooted(o.files, o.dirs) && DirsLogged(o.dirs, dirs, created) && Furnished(dirs)
    ensures Rooted(files, dirs) && ROOT in dirs
  {
    DirectoryNames();
    assert DIRECTORIES[0] in DIRECTORIES;
  }

  /** A successful upgrade runs exactly the units that ran before, on the new binary and definitions. */
  lemma {:induction false} UpgradedUnits(
    o: Origin, running: map<string, Process>, prior: seq<string>, started: seq<string>, files: map<string, Entry>,
    loaded: map<string, string>)
    requires UnitsLogged(o, running, prior, started, None)
    requires forall u :: u in UNITS && u in o.running ==> u in prior
    requires forall u :: u in prior ==> u in running && running[u] == Launch(files, loaded, u)
    ensures running.Keys == o.running.Keys
    ensures forall u :: u in UNITS && u in running ==> running[u] == Launch(files, loaded, u)
  {
    assert forall u :: u in running <==> u in o.running;
  }

  // ----- where the promise stops -----

  /**
   With a synced origin a rolled-back upgrade runs the original processes exactly when
   no failing start left a unit running, or that unit runs the same binary and
   definition under the new release as under the old: the rollback does not stop such a
   unit, and starting it again is a no-op.
   */
  lemma {:induction false} OriginalProcessesExactly(
    o: Origin, puts: seq<Put>, running: map<string, Process>, enabled: set<string>, stray: Option<string>)
    requires Synced(o) && UnitsBack(o, running, enabled, true, false, stray)
    requires stray.Some? ==> stray.value in UNITS && running[stray.value] == Installed(o.files, puts, stray.value)
    ensures running == o.running
       <==> stray.None? || Installed(o.files, puts, stray.value) == Launch(o.files, Definitions(o.files), stray.value)
  {
    if stray.None? || Installed(o.files, puts, stray.value) == Launch(o.files, Definitions(o.files), stray.value) {
      assert forall u :: u in running ==> running[u] == o.running[u];
      assert running == o.running;
    }
  }

  /** Whatever a stray unit runs, every other unit can be back. */
  lemma {:induction false} BackExceptStray(o: Origin, stray: string, process: Process)
    requires stray in o.running
    ensures UnitsBack(o, o.running[stray := process], o.enabled, true, false, Some(stray))
  {
    assert o.running[stray := process].Keys == o.running.Keys;
  }

  /** A set-id binary comes back without its special bits. */
  lemma {:induction false} SpecialBitsAreLost(e: Entry, files: map<string, Entry>)
    requires e.special != 0
    requires FilesRestored(map[BINARY := e], files, [Snapshot(BINARY, Some(Plain(e)))])
    ensures BINARY in files && files[BINARY] == Plain(e) && files != map[BINARY := e]
  {
    var changed := [Snapshot(BINARY, Some(Plain(e)))];
    assert changed[0].path == BINARY;
    assert Touched(changed, BINARY);
    assert Lookup(files, BINARY) == PlainLookup(map[BINARY := e], BINARY);
  }
}
