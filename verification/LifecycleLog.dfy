/**
 What `Apply` (internal/lifecycle/manager_linux.go) records about the work it has
 done, and what each record guarantees: the invariants that every prefix of the work
 keeps and that the rollback consumes.
 */
module LifecycleLog {
  import opened Wrappers
  import opened LifecycleHost

  /** The host when the transaction began. */
  datatype Origin = Origin(
    files: map<string, Entry>, dirs: set<string>, running: map<string, Process>, enabled: set<string>,
    loaded: map<string, string>)

  // ----- files -----

  ghost predicate Touched(changed: seq<Snapshot>, path: string) {
    exists i :: 0 <= i < |changed| && changed[i].path == path
  }

  /** Every file that differs from the origin has a snapshot of its original, and no path has two. */
  ghost predicate FilesLogged(origin: map<string, Entry>, files: map<string, Entry>, changed: seq<Snapshot>) {
    && (forall i, j :: 0 <= i < j < |changed| ==> changed[i].path != changed[j].path)
    && (forall i :: 0 <= i < |changed| ==> changed[i].prior == PlainLookup(origin, changed[i].path))
    && forall p :: !Touched(changed, p) ==> Lookup(files, p) == Lookup(origin, p)
  }

  /** The origin's files, where every snapshotted file has lost its special bits. */
  ghost predicate FilesRestored(origin: map<string, Entry>, files: map<string, Entry>, changed: seq<Snapshot>) {
    forall p :: Lookup(files, p) == if Touched(changed, p) then PlainLookup(origin, p) else Lookup(origin, p)
  }

  /** Recording a snapshot before a write covers the write, whether or not it took effect. */
  lemma {:induction false} SnapshotCovers(
    origin: map<string, Entry>, files: map<string, Entry>, later: map<string, Entry>, changed: seq<Snapshot>,
    path: string, e: Entry)
    requires FilesLogged(origin, files, changed) && !Touched(changed, path)
    requires later == files || later == files[path := e]
    ensures FilesLogged(origin, later, changed + [Snapshot(path, PlainLookup(files, path))])
  {
    var more := changed + [Snapshot(path, PlainLookup(files, path))];
    assert Lookup(files, path) == Lookup(origin, path);
    assert PlainLookup(files, path) == PlainLookup(origin, path);
    assert forall i :: 0 <= i < |changed| ==> more[i] == changed[i];
    assert more[|changed|].path == path;
    forall p | !Touched(more, p)
      ensures Lookup(later, p) == Lookup(origin, p)
    {
      assert !Touched(changed, p) && p != path;
    }
  }

  /** Restoration is exact precisely when no snapshotted file carried special bits. */
  lemma {:induction false} RestoredExactly(
    origin: map<string, Entry>, files: map<string, Entry>, changed: seq<Snapshot>)
    requires FilesRestored(origin, files, changed)
    ensures files == origin <==> forall p :: Touched(changed, p) && p in origin ==> origin[p].special == 0
    ensures files.Keys == origin.Keys
  {
    forall p
      ensures p in files <==> p in origin
      ensures p in origin ==> files[p] == if Touched(changed, p) then Plain(origin[p]) else origin[p]
    {
      assert Lookup(files, p) == if Touched(changed, p) then PlainLookup(origin, p) else Lookup(origin, p);
    }
    if forall p :: Touched(changed, p) && p in origin ==> origin[p].special == 0 {
      forall p | p in origin
        ensures files[p] == origin[p]
      {
        assert Touched(changed, p) ==> origin[p].special == 0;
      }
      assert files == origin;
    }
    if files == origin {
      forall p | Touched(changed, p) && p in origin
        ensures origin[p].special == 0
      {
        assert files[p] == Plain(origin[p]);
      }
    }
  }

  /** Content is always restored, so unit definitions and the binary are as before. */
  lemma {:induction false} RestoredData(origin: map<string, Entry>, files: map<string, Entry>, changed: seq<Snapshot>)
    requires FilesRestored(origin, files, changed)
    ensures forall p :: DataAt(files, p) == DataAt(origin, p)
    ensures Definitions(files) == Definitions(origin)
  {
    forall p
      ensures DataAt(files, p) == DataAt(origin, p)
    {
      assert Lookup(files, p) == if Touched(changed, p) then PlainLookup(origin, p) else Lookup(origin, p);
    }
    forall u | u in UNITS
      ensures u in Definitions(files) <==> u in Definitions(origin)
      ensures u in Definitions(files) ==> Definitions(files)[u] == Definitions(origin)[u]
    {
      assert DataAt(files, UnitPath(u)) == DataAt(origin, UnitPath(u));
    }
  }

  // ----- directories -----

  /** Files and installer directories lie inside directories that exist. */
  ghost predicate Rooted(files: map<string, Entry>, dirs: set<string>) {
    && (forall d :: d in dirs ==> d in DIRECTORIES)
    && (dirs != {} ==> ROOT in dirs)
    && forall p, d :: p in files && d in DIRECTORIES && Inside(p, d) ==> d in dirs
  }

  /** The directories made so far, in the installer's order. */
  ghost predicate DirsLogged(origin: set<string>, dirs: set<string>, created: seq<string>) {
    && dirs == origin + (set i | 0 <= i < |created| :: created[i])
    && (forall i :: 0 <= i < |created| ==> created[i] in DIRECTORIES && created[i] !in origin)
    && (forall i, j :: 0 <= i < j < |created| ==> created[i] != created[j] && created[j] != ROOT)
  }

  lemma {:induction false} DirectoryNames()
    ensures DIRECTORIES[0] == ROOT && DIRECTORIES[1] != ROOT && DIRECTORIES[2] != ROOT
            && DIRECTORIES[1] != DIRECTORIES[2]
    ensures forall i, j :: 1 <= i < 3 && 0 <= j < 3 ==> !Inside(DIRECTORIES[j], DIRECTORIES[i])
    ensures !Inside(ROOT, ROOT)
  {
    assert |DIRECTORIES[0]| == 13 && |DIRECTORIES[1]| == 22 && |DIRECTORIES[2]| == 21;
    assert DIRECTORIES[1][14] == 'p' && DIRECTORIES[2][14] == 's';
    assert (DIRECTORIES[2] + "/")[14] == 's';
  }

  /** Going backwards, the next created directory is empty once the files are restored. */
  lemma {:induction false} NextDirEmpty(
    origin: Origin, files: map<string, Entry>, dirs: set<string>, created: seq<string>, n: nat, copied: bool)
    requires Rooted(origin.files, origin.dirs) && files.Keys == origin.files.Keys
    requires n < |created| && DirsLogged(origin.dirs, dirs, created[..n + 1])
    requires copied ==> ROOT in origin.dirs
    ensures EmptyDir(files, dirs, copied, created[n])
    ensures DirsLogged(origin.dirs, dirs - {created[n]}, created[..n])
  {
    var d, made := created[n], created[..n + 1];
    DirectoryNames();
    assert made[n] == d && d in DIRECTORIES && d !in origin.dirs;
    forall p | p in files
      ensures !Inside(p, d)
    {
      assert p in origin.files;
    }
    forall e | e in dirs
      ensures !Inside(e, d) && e in DIRECTORIES
    {
      if e in origin.dirs {
        assert ROOT in origin.dirs && d != ROOT;
      } else {
        var i :| 0 <= i < |made| && made[i] == e;
        assert n > 0 ==> made[0] != made[n] && made[n] != ROOT;
        assert d == ROOT ==> n == 0 && e == ROOT;
      }
    }
    DropLast(origin.dirs, dirs, created, n);
  }

  lemma {:induction false} DropLast(origin: set<string>, dirs: set<string>, created: seq<string>, n: nat)
    requires n < |created| && DirsLogged(origin, dirs, created[..n + 1])
    ensures DirsLogged(origin, dirs - {created[n]}, created[..n])
  {
    var made, less := created[..n + 1], created[..n];
    forall i | 0 <= i < n
      ensures less[i] == made[i] && made[i] != made[n]
    {
    }
    forall x
      ensures x in dirs - {created[n]} <==> x in origin + (set i | 0 <= i < |less| :: less[i])
    {
      if x in dirs && x !in origin && x != created[n] {
        var i :| 0 <= i < |made| && made[i] == x;
        assert less[i] == x;
      }
      if x in (set i | 0 <= i < |less| :: less[i]) {
        var i :| 0 <= i < |less| && less[i] == x;
        assert made[i] == x;
      }
    }
  }

  lemma {:induction false} DirAdded(origin: set<string>, dirs: set<string>, created: seq<string>, d: string)
    requires DirsLogged(origin, dirs, created) && d in DIRECTORIES && d !in dirs && (created != [] ==> d != ROOT)
    ensures DirsLogged(origin, dirs + {d}, created + [d])
  {
    var more := created + [d];
    forall i | 0 <= i < |created|
      ensures created[i] in dirs && more[i] == created[i]
    {
    }
    assert more[|created|] == d;
    forall x
      ensures x in dirs + {d} <==> x in origin + (set i | 0 <= i < |more| :: more[i])
    {
      if x in (set i | 0 <= i < |created| :: created[i]) {
        var i :| 0 <= i < |created| && created[i] == x;
        assert more[i] == x;
      }
    }
  }

  // ----- units -----

  /** systemd has the installed definitions, and our running units run the installed binary. */
  ghost predicate Synced(o: Origin) {
    && o.loaded == Definitions(o.files)
    && forall u :: u in UNITS && u in o.running ==> o.running[u] == Launch(o.files, o.loaded, u)
  }

  /**
   During an upgrade: units not listed in `prior` are untouched, no other unit runs,
   and a listed unit that runs is the original process unless this transaction
   started it (`started`) or a failing start left it running (`stray`).
   */
  ghost predicate UnitsLogged(
    o: Origin, running: map<string, Process>, prior: seq<string>, started: seq<string>, stray: Option<string>) {
    && (forall u :: u in prior ==> u in UNITS && u in o.running)
    && (forall u :: u in started ==> u in prior)
    && (forall u :: u in running ==> u in o.running)
    && (forall u :: u in o.running && u !in prior ==> u in running && running[u] == o.running[u])
    && (forall u :: u in running && u !in started && stray != Some(u) ==> running[u] == o.running[u])
    && (stray.Some? ==> stray.value in prior && stray.value in running && stray.value !in started)
  }

  /** During an install: only the gateway may differ, and only once the units are in place and a start was asked for. */
  ghost predicate GatewayOnly(o: Origin, running: map<string, Process>, enabled: set<string>, may: bool) {
    && running - {GATEWAY} == o.running - {GATEWAY} && enabled - {GATEWAY} == o.enabled - {GATEWAY}
    && (!may ==> running == o.running && enabled == o.enabled)
  }

  /** Stopping removed exactly units of `started`. */
  ghost predicate Halted(before: map<string, Process>, after: map<string, Process>, started: seq<string>) {
    && (forall u :: u in after ==> u in before && after[u] == before[u])
    && (forall u :: u in before && u !in started ==> u in after)
  }

  /** Starting added only units of `prior`, launched from the present files and definitions. */
  ghost predicate Relaunched(
    before: map<string, Process>, after: map<string, Process>, prior: seq<string>, files: map<string, Entry>,
    loaded: map<string, string>) {
    && (forall u :: u in before ==> u in after && after[u] == before[u])
    && (forall u :: u in after && u !in before ==> u in prior && after[u] == Launch(files, loaded, u))
  }

  lemma {:induction false} RelaunchedNone(
    before: map<string, Process>, after: map<string, Process>, files: map<string, Entry>, loaded: map<string, string>)
    requires Relaunched(before, after, [], files, loaded)
    ensures after == before
  {
    assert forall u :: u in after <==> u in before;
  }

  /**
   Stop what was started, restore, start what was active: exactly the original units
   run again, each as its original process unless a failing start had left it running.
   */
  lemma {:induction false} UpgradeUnitsBack(
    o: Origin, before: map<string, Process>, halted: map<string, Process>, after: map<string, Process>,
    prior: seq<string>, started: seq<string>, stray: Option<string>, files: map<string, Entry>,
    loaded: map<string, string>)
    requires UnitsLogged(o, before, prior, started, stray)
    requires Halted(before, halted, started) && forall u :: u in started ==> u !in halted
    requires Relaunched(halted, after, prior, files, loaded) && forall u :: u in prior ==> u in after
    requires DataAt(files, BINARY) == DataAt(o.files, BINARY) && loaded == Definitions(o.files)
    ensures after.Keys == o.running.Keys
    ensures stray.Some? ==> stray.value in after && after[stray.value] == before[stray.value]
    ensures Synced(o) ==> forall u :: u in after && stray != Some(u) ==> after[u] == o.running[u]
  {
    forall u
      ensures u in after <==> u in o.running
    {
      if u in o.running && u !in prior {
        assert u in before && u !in started && u in halted;
      }
    }
    if Synced(o) {
      forall u | u in after && stray != Some(u)
        ensures after[u] == o.running[u]
      {
        if u in halted {
          assert u in before && u !in started && halted[u] == before[u];
        } else {
          assert u in prior && after[u] == Launch(files, loaded, u);
        }
      }
    }
  }

  /** Units after a completed rollback; `may` says a gateway start was attempted by an install. */
  ghost predicate UnitsBack(
    o: Origin, running: map<string, Process>, enabled: set<string>, upgrade: bool, may: bool, stray: Option<string>) {
    if upgrade
    then
      && running.Keys == o.running.Keys && enabled == o.enabled
      && (stray.Some? ==> stray.value in running)
      && (Synced(o) ==> forall u :: u in running && stray != Some(u) ==> running[u] == o.running[u])
    else
      && GatewayOnly(o, running, enabled, may)
      && (may ==> GATEWAY !in running && GATEWAY !in enabled)
  }
}
