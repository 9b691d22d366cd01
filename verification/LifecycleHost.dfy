/**
 The host that install and upgrade change (internal/lifecycle/manager_linux.go):
 files with mode and owner, the installer's directories, the rollback copy and
 systemd units. Each primitive may fail unless the input `smooth` says that it does
 not, and a failing one may or may not have taken effect. `special` stands for the
 set-id and sticky bits, which `capture` does not keep.
 */
module LifecycleHost {
  import opened Wrappers
  import PlanDigest

  datatype Entry = Entry(data: string, perm: nat, special: nat, uid: nat, gid: nat)

  /** A running unit: the binary and the unit definition it was started with. */
  datatype Process = Process(binary: Option<string>, unit: Option<string>)

  datatype Snapshot = Snapshot(path: string, prior: Option<Entry>)

  const ROOT := "/etc/hostlens"
  const DIRECTORIES: seq<string> := PlanDigest.DIRECTORIES
  const UNITS: seq<string> := PlanDigest.UNITS
  const GATEWAY := PlanDigest.GATEWAY
  const BINARY := PlanDigest.BINARY

  function UnitPath(unit: string): string {
    "/etc/systemd/system/" + unit
  }

  function Plain(e: Entry): Entry {
    e.(special := 0)
  }

  function Lookup(files: map<string, Entry>, path: string): Option<Entry> {
    if path in files then Some(files[path]) else None
  }

  function PlainLookup(files: map<string, Entry>, path: string): Option<Entry> {
    if path in files then Some(Plain(files[path])) else None
  }

  function DataAt(files: map<string, Entry>, path: string): Option<string> {
    if path in files then Some(files[path].data) else None
  }

  /** What systemd reads from the unit files on a reload. */
  function Definitions(files: map<string, Entry>): map<string, string> {
    map u | u in UNITS && UnitPath(u) in files :: files[UnitPath(u)].data
  }

  function Launch(files: map<string, Entry>, loaded: map<string, string>, unit: string): Process {
    Process(DataAt(files, BINARY), if unit in loaded then Some(loaded[unit]) else None)
  }

  predicate Inside(path: string, dir: string) {
    dir + "/" <= path
  }

  /** The directory holds nothing: no file, no installer directory, no rollback copy. */
  predicate EmptyDir(files: map<string, Entry>, dirs: set<string>, copied: bool, dir: string) {
    && (forall p :: p in files ==> !Inside(p, dir))
    && (forall d :: d in dirs ==> !Inside(d, dir))
    && !(copied && dir == ROOT)
  }

  class Host {
    var files: map<string, Entry>
    var dirs: set<string>
    var copy: Option<map<string, Entry>>
    var running: map<string, Process>
    var enabled: set<string>
    var loaded: map<string, string>

    constructor (
      files: map<string, Entry>, dirs: set<string>, running: map<string, Process>, enabled: set<string>,
      loaded: map<string, string>)
      ensures this.files == files && this.dirs == dirs && copy == None && this.running == running
              && this.enabled == enabled && this.loaded == loaded
    {
      this.files, this.dirs, copy := files, dirs, None;
      this.running, this.enabled, this.loaded := running, enabled, loaded;
    }

    /** `capture`: content, permission bits and owner, or absence. */
    method Capture(path: string, smooth: bool) returns (ok: bool, snap: Snapshot)
      ensures ok ==> snap == Snapshot(path, PlainLookup(files, path))
      ensures smooth ==> ok
    {
      ok :| smooth ==> ok;
      snap := Snapshot(path, PlainLookup(files, path));
    }

    /** `write`: temporary file and rename; an error after the rename leaves the new file in place. */
    method Write(path: string, e: Entry, smooth: bool) returns (ok: bool)
      requires e.special == 0
      modifies this`files
      ensures ok ==> files == old(files)[path := e]
      ensures files == old(files) || files == old(files)[path := e]
      ensures smooth ==> ok
    {
      var moved: bool, synced: bool :| smooth ==> moved && synced;
      if moved {
        files := files[path := e];
      }
      return moved && synced;
    }

    /** `os.Remove` of a file, where absence is no error. */
    method RemoveFile(path: string, smooth: bool) returns (ok: bool)
      modifies this`files
      ensures ok ==> files == old(files) - {path}
      ensures !ok ==> files == old(files)
      ensures smooth ==> ok
    {
      ok :| smooth ==> ok;
      if ok {
        files := files - {path};
      }
    }

    method MakeDir(dir: string, smooth: bool) returns (ok: bool)
      modifies this`dirs
      ensures dirs == if ok then old(dirs) + {dir} else old(dirs)
      ensures smooth ==> ok
    {
      ok :| smooth ==> ok;
      if ok {
        dirs := dirs + {dir};
      }
    }

    /** `os.Remove` of a directory; it also fails when the directory is not empty. */
    method RemoveDir(dir: string, smooth: bool) returns (ok: bool)
      modifies this`dirs
      ensures dirs == if ok then old(dirs) - {dir} else old(dirs)
      ensures ok ==> EmptyDir(files, old(dirs), copy.Some?, dir)
      ensures smooth && EmptyDir(files, old(dirs), copy.Some?, dir) ==> ok
    {
      var broken: bool :| smooth ==> !broken;
      if broken || !EmptyDir(files, dirs, copy.Some?, dir) {
        return false;
      }
      dirs := dirs - {dir};
      return true;
    }

    /** `os.RemoveAll` of the rollback copy; a failing one may have removed any part of it. */
    method RemoveCopy(smooth: bool) returns (ok: bool)
      requires copy.Some?
      modifies this`copy
      ensures ok ==> copy == None
      ensures !ok ==> copy.Some? && forall p :: p in copy.value ==>
                p in old(copy.value) && copy.value[p] == old(copy.value)[p]
      ensures smooth ==> ok
    {
      ok :| smooth ==> ok;
      if ok {
        copy := None;
      } else {
        var gone: set<string> := *;
        copy := Some(copy.value - gone);
      }
    }

    /** `systemctl stop`. */
    method Stop(unit: string, smooth: bool) returns (ok: bool)
      modifies this`running
      ensures ok ==> running == old(running) - {unit}
      ensures running == old(running) || running == old(running) - {unit}
      ensures smooth ==> ok
    {
      var done: bool, reported: bool :| smooth ==> done && reported;
      if done {
        running := running - {unit};
      }
      return done && reported;
    }

    /** What a start leaves: a unit that already runs is left alone. */
    function Running(unit: string): map<string, Process>
      reads this
    {
      if unit in running then running else running[unit := Launch(files, loaded, unit)]
    }

    /** `systemctl start`. */
    method Start(unit: string, smooth: bool) returns (ok: bool)
      modifies this`running
      ensures ok ==> running == old(Running(unit))
      ensures running == old(running) || running == old(Running(unit))
      ensures smooth ==> ok
    {
      var done: bool, reported: bool :| smooth ==> done && reported;
      if done && unit !in running {
        running := running[unit := Launch(files, loaded, unit)];
      }
      return done && reported;
    }

    /** `systemctl disable --now`. */
    method DisableNow(unit: string, smooth: bool) returns (ok: bool)
      modifies this`running, this`enabled
      ensures ok ==> running == old(running) - {unit} && enabled == old(enabled) - {unit}
      ensures running == old(running) || running == old(running) - {unit}
      ensures enabled == old(enabled) || enabled == old(enabled) - {unit}
      ensures smooth ==> ok
    {
      var disabled: bool, stopped: bool, reported: bool :| smooth ==> disabled && stopped && reported;
      if disabled {
        enabled := enabled - {unit};
      }
      if stopped {
        running := running - {unit};
      }
      ok := disabled && stopped && reported;
    }

    method Enable(unit: string, smooth: bool) returns (ok: bool)
      modifies this`enabled
      ensures ok ==> enabled == old(enabled) + {unit}
      ensures enabled == old(enabled) || enabled == old(enabled) + {unit}
      ensures smooth ==> ok
    {
      var done: bool, reported: bool :| smooth ==> done && reported;
      if done {
        enabled := enabled + {unit};
      }
      ok := done && reported;
    }

    /** `systemctl daemon-reload`. */
    method Reload(smooth: bool) returns (ok: bool)
      modifies this`loaded
      ensures ok ==> loaded == Definitions(files)
      ensures smooth ==> ok
    {
      var done: bool, reported: bool :| smooth ==> done && reported;
      if done {
        loaded := Definitions(files);
      }
      return done && reported;
    }
  }
}
