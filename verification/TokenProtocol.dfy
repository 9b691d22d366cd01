/**
 Concurrent use of the token store (internal/auth/store.go): any number of
 updaters serialised by the file lock, any number of lock-free readers, with a
 failure or a crash possible at every step. Files are inodes: a reader keeps the
 inode it opened, an updater writes a private temporary inode and renames it over
 the store path. `published` and `applied` are history variables; `bytes` is the length of
 a list's JSON text, which neither a read nor an update lets exceed the store's bound.
 */
module TokenProtocol {
  import opened Wrappers
  import opened TokenRecords

  datatype Content = Partial | Whole(list: seq<Token>, bytes: nat)
  datatype FileName = StorePath | Temp(nonce: nat)

  datatype Phase =
    | Idle
    | Locked(op: Op)
    | HasRead(op: Op, base: seq<Token>)
    | Changed(op: Op, base: seq<Token>, next: seq<Token>, bytes: nat)
    | TempOpen(op: Op, base: seq<Token>, next: seq<Token>, bytes: nat, nonce: nat, inode: nat)
    | TempReady(op: Op, base: seq<Token>, next: seq<Token>, bytes: nat, nonce: nat, inode: nat)
    | Replaced(op: Op)

  /** A reader remembers which published list was current when it opened the path. */
  datatype Reader = Away | Opened(inode: Option<nat>, index: nat) | Done(list: seq<Token>, index: nat)

  datatype State = State(
    names: map<FileName, nat>, inodes: map<nat, Content>, lock: Option<nat>,
    updaters: map<nat, Phase>, readers: map<nat, Reader>,
    published: seq<seq<Token>>, applied: seq<Op>)

  datatype Action =
    | Acquire(pid: nat, op: Op)
    | ReadStore(pid: nat)
    | ApplyChange(pid: nat, bytes: nat)
    | OpenTemp(pid: nat, nonce: nat, inode: nat)
    | WriteTemp(pid: nat)
    | Rename(pid: nat)
    | Finish(pid: nat)
    | Abort(pid: nat)
    | Crash(pid: nat)
    | ReaderOpen(rid: nat)
    | ReaderRead(rid: nat)

  function PhaseOf(s: State, pid: nat): Phase {
    if pid in s.updaters then s.updaters[pid] else Idle
  }

  function ReaderOf(s: State, rid: nat): Reader {
    if rid in s.readers then s.readers[rid] else Away
  }

  predicate Readable(s: State, inode: Option<nat>) {
    inode.None? || (inode.value in s.inodes && s.inodes[inode.value].Whole?)
  }

  /** What a complete file, or an absent one, decodes to. */
  function Decode(s: State, inode: Option<nat>): seq<Token>
    requires Readable(s, inode)
  {
    if inode.None? then [] else s.inodes[inode.value].list
  }

  function PathInode(s: State): Option<nat> {
    if StorePath in s.names then Some(s.names[StorePath]) else None
  }

  /** The file at the path is absent or within the size bound. */
  predicate InBound(s: State) {
    StorePath in s.names && s.names[StorePath] in s.inodes && s.inodes[s.names[StorePath]].Whole? ==>
      s.inodes[s.names[StorePath]].bytes <= MAX_STORE_BYTES
  }

  /** What `read` accepts at the path. */
  ghost predicate Acceptable(s: State) {
    Readable(s, PathInode(s)) && Accepted(Decode(s, PathInode(s))) && InBound(s)
  }

  ghost predicate Enabled(s: State, a: Action) {
    match a
    case Acquire(pid, op) => PhaseOf(s, pid).Idle? && s.lock.None? && Requested(op)
    case ReadStore(pid) => PhaseOf(s, pid).Locked? && Acceptable(s)
    case ApplyChange(pid, bytes) =>
      var p := PhaseOf(s, pid);
      p.HasRead? && FreshFor(p.op, p.base) && Change(p.op, p.base).Some? && bytes <= MAX_STORE_BYTES
    case OpenTemp(pid, nonce, inode) => PhaseOf(s, pid).Changed? && Temp(nonce) !in s.names && inode !in s.inodes
    case WriteTemp(pid) => PhaseOf(s, pid).TempOpen?
    case Rename(pid) => PhaseOf(s, pid).TempReady?
    case Finish(pid) => PhaseOf(s, pid).Replaced?
    case Abort(pid) => !PhaseOf(s, pid).Idle? && !PhaseOf(s, pid).Replaced?
    case Crash(pid) => !PhaseOf(s, pid).Idle?
    case ReaderOpen(rid) => !ReaderOf(s, rid).Opened? && |s.published| > 0
    case ReaderRead(rid) => ReaderOf(s, rid).Opened? && Readable(s, ReaderOf(s, rid).inode)
  }

  function Enter(s: State, pid: nat, p: Phase): State {
    s.(updaters := s.updaters[pid := p])
  }

  function Leave(s: State, pid: nat): State {
    s.(updaters := s.updaters[pid := Idle], lock := None)
  }

  ghost function After(s: State, a: Action): State
    requires Enabled(s, a)
  {
    match a
    case Acquire(pid, op) => Enter(s, pid, Locked(op)).(lock := Some(pid))
    case ReadStore(pid) => Enter(s, pid, HasRead(PhaseOf(s, pid).op, Decode(s, PathInode(s))))
    case ApplyChange(pid, bytes) =>
      var p := PhaseOf(s, pid);
      Enter(s, pid, Changed(p.op, p.base, Change(p.op, p.base).value, bytes))
    case OpenTemp(pid, nonce, inode) =>
      var p := PhaseOf(s, pid);
      Enter(s, pid, TempOpen(p.op, p.base, p.next, p.bytes, nonce, inode))
        .(names := s.names[Temp(nonce) := inode], inodes := s.inodes[inode := Partial])
    case WriteTemp(pid) =>
      var p := PhaseOf(s, pid);
      Enter(s, pid, TempReady(p.op, p.base, p.next, p.bytes, p.nonce, p.inode))
        .(inodes := s.inodes[p.inode := Whole(p.next, p.bytes)])
    case Rename(pid) =>
      var p := PhaseOf(s, pid);
      Enter(s, pid, Replaced(p.op))
        .(names := (s.names - {Temp(p.nonce)})[StorePath := p.inode],
          published := s.published + [p.next], applied := s.applied + [p.op])
    case Finish(pid) => Leave(s, pid)
    case Abort(pid) =>
      var p := PhaseOf(s, pid);
      Leave(s, pid).(names := if p.TempOpen? || p.TempReady? then s.names - {Temp(p.nonce)} else s.names)
    case Crash(pid) => Leave(s, pid)
    case ReaderOpen(rid) => s.(readers := s.readers[rid := Opened(PathInode(s), |s.published| - 1)])
    case ReaderRead(rid) =>
      var r := ReaderOf(s, rid);
      s.(readers := s.readers[rid := Done(Decode(s, r.inode), r.index)])
  }

  ghost predicate Init(s: State, first: seq<Token>) {
    && Accepted(first) && s.published == [first] && s.applied == []
    && s.lock.None? && s.updaters == map[] && s.readers == map[]
    && (forall n :: n in s.names ==> s.names[n] in s.inodes)
    && (forall n :: n in s.names && n != StorePath ==> StorePath in s.names ==> s.names[n] != s.names[StorePath])
    && InBound(s)
    && if StorePath in s.names
       then s.inodes[s.names[StorePath]].Whole? && s.inodes[s.names[StorePath]].list == first
       else first == []
  }

  ghost predicate LeadsTo(s: State, a: Action, t: State) {
    Enabled(s, a) && t == After(s, a)
  }

  ghost predicate Run(states: seq<State>, actions: seq<Action>, first: seq<Token>) {
    && |states| == |actions| + 1 && Init(states[0], first)
    && forall k :: 0 <= k < |actions| ==> Takes(states, actions, k)
  }

  /** Step `k` of a run is enabled and leads to the next state. */
  ghost predicate Takes(states: seq<State>, actions: seq<Action>, k: nat)
    requires |states| == |actions| + 1 && k < |actions|
  {
    LeadsTo(states[k], actions[k], states[k + 1])
  }

  // ----- the invariant -----

  function Latest(s: State): seq<Token>
    requires |s.published| > 0
  {
    s.published[|s.published| - 1]
  }

  /** The path holds the last published list, complete. */
  ghost predicate PathWhole(s: State) {
    && |s.published| > 0 && Readable(s, PathInode(s)) && Decode(s, PathInode(s)) == Latest(s)
    && InBound(s)
  }

  ghost predicate Chained(s: State) {
    && History(s.applied, s.published) && Accepted(s.published[0])
    && forall k :: 0 <= k < |s.applied| ==>
         Requested(s.applied[k]) && Change(s.applied[k], s.published[k]) == Some(s.published[k + 1])
  }

  ghost predicate HolderOnly(s: State) {
    forall pid: nat :: !PhaseOf(s, pid).Idle? ==> s.lock == Some(pid)
  }

  /** A working updater started from the latest list and owns a private inode. */
  ghost predicate WorkSound(s: State, p: Phase)
    requires |s.published| > 0
  {
    && (!p.Idle? ==> Requested(p.op))
    && (p.HasRead? ==> p.base == Latest(s))
    && (p.Changed? || p.TempOpen? || p.TempReady? ==>
          p.base == Latest(s) && FreshFor(p.op, p.base) && Change(p.op, p.base) == Some(p.next)
          && p.bytes <= MAX_STORE_BYTES)
    && (p.TempOpen? || p.TempReady? ==>
          && Temp(p.nonce) in s.names && s.names[Temp(p.nonce)] == p.inode && p.inode in s.inodes
          && PathInode(s) != Some(p.inode)
          && forall rid :: ReaderOf(s, rid).Opened? ==> ReaderOf(s, rid).inode != Some(p.inode))
    && (p.TempReady? ==> s.inodes[p.inode] == Whole(p.next, p.bytes))
  }

  ghost predicate ReaderSound(s: State, r: Reader) {
    && (r.Opened? ==> r.index < |s.published| && Readable(s, r.inode) && Decode(s, r.inode) == s.published[r.index])
    && (r.Done? ==> r.index < |s.published| && r.list == s.published[r.index])
  }

  ghost predicate Inv(s: State) {
    && PathWhole(s) && Chained(s) && HolderOnly(s)
    && (forall n :: n in s.names ==> s.names[n] in s.inodes)
    && (forall pid :: WorkSound(s, PhaseOf(s, pid)))
    && (forall rid :: ReaderSound(s, ReaderOf(s, rid)))
  }

  lemma {:induction false} InitInv(s: State, first: seq<Token>)
    requires Init(s, first)
    ensures Inv(s)
  {
  }

  /** Appending one published change keeps the chain. */
  lemma {:induction false} ChainGrows(s: State, op: Op, next: seq<Token>)
    requires Chained(s) && |s.published| > 0
    requires Requested(op) && FreshFor(op, Latest(s)) && Change(op, Latest(s)) == Some(next)
    ensures Chained(s.(published := s.published + [next], applied := s.applied + [op]))
  {
    var t := s.(published := s.published + [next], applied := s.applied + [op]);
    forall k | 0 <= k < |t.applied|
      ensures Step(t.applied[k], t.published[k], t.published[k + 1])
      ensures Requested(t.applied[k]) && Change(t.applied[k], t.published[k]) == Some(t.published[k + 1])
    {
      if k < |s.applied| {
        assert t.applied[k] == s.applied[k] && t.published[k] == s.published[k]
               && t.published[k + 1] == s.published[k + 1];
        assert Step(s.applied[k], s.published[k], s.published[k + 1]);
      }
    }
  }

  lemma {:induction false} EarlyStepInv(s: State, a: Action)
    requires Inv(s) && Enabled(s, a) && (a.Acquire? || a.ReadStore? || a.ApplyChange?)
    ensures Inv(After(s, a))
  {
    var t := After(s, a);
    assert forall pid :: pid != a.pid ==> PhaseOf(t, pid) == PhaseOf(s, pid);
    assert forall rid :: ReaderOf(t, rid) == ReaderOf(s, rid);
    assert WorkSound(s, PhaseOf(s, a.pid)) && WorkSound(t, PhaseOf(t, a.pid));
  }

  lemma {:induction false} LeaveInv(s: State, a: Action)
    requires Inv(s) && Enabled(s, a) && (a.Finish? || a.Abort? || a.Crash?)
    ensures Inv(After(s, a))
  {
    var t := After(s, a);
    forall pid: nat
      ensures PhaseOf(t, pid) == Idle
    {
      assert !PhaseOf(s, a.pid).Idle?;
      assert pid != a.pid ==> PhaseOf(t, pid) == PhaseOf(s, pid);
    }
    assert PathInode(t) == PathInode(s);
    forall rid
      ensures ReaderSound(t, ReaderOf(t, rid))
    {
      assert ReaderOf(t, rid) == ReaderOf(s, rid) && ReaderSound(s, ReaderOf(s, rid));
    }
  }

  lemma {:induction false} TempStepInv(s: State, a: Action)
    requires Inv(s) && Enabled(s, a) && (a.OpenTemp? || a.WriteTemp?)
    ensures Inv(After(s, a))
  {
    var t := After(s, a);
    assert forall pid :: pid != a.pid ==> PhaseOf(t, pid) == PhaseOf(s, pid);
    assert forall rid :: ReaderOf(t, rid) == ReaderOf(s, rid);
    assert WorkSound(s, PhaseOf(s, a.pid));
    forall rid
      ensures ReaderSound(t, ReaderOf(t, rid))
    {
      assert ReaderSound(s, ReaderOf(s, rid));
    }
  }

  lemma {:induction false} RenameInv(s: State, a: Action)
    requires Inv(s) && Enabled(s, a) && a.Rename?
    ensures Inv(After(s, a))
  {
    var t, p := After(s, a), PhaseOf(s, a.pid);
    assert WorkSound(s, p);
    ChainGrows(s, p.op, p.next);
    assert forall pid :: pid != a.pid ==> PhaseOf(t, pid) == PhaseOf(s, pid);
    forall rid
      ensures ReaderSound(t, ReaderOf(t, rid))
    {
      assert ReaderOf(t, rid) == ReaderOf(s, rid);
      assert ReaderSound(s, ReaderOf(s, rid));
    }
  }

  lemma {:induction false} ReaderStepInv(s: State, a: Action)
    requires Inv(s) && Enabled(s, a) && (a.ReaderOpen? || a.ReaderRead?)
    ensures Inv(After(s, a))
  {
    var t := After(s, a);
    assert forall rid :: rid != a.rid ==> ReaderOf(t, rid) == ReaderOf(s, rid);
    assert ReaderSound(s, ReaderOf(s, a.rid));
    forall pid
      ensures WorkSound(t, PhaseOf(t, pid))
    {
      assert PhaseOf(t, pid) == PhaseOf(s, pid);
      assert WorkSound(s, PhaseOf(s, pid));
    }
  }

  lemma {:induction false} StepInv(s: State, a: Action)
    requires Inv(s) && Enabled(s, a)
    ensures Inv(After(s, a))
  {
    if a.ReaderOpen? || a.ReaderRead? {
      ReaderStepInv(s, a);
    } else if a.Rename? {
      RenameInv(s, a);
    } else if a.OpenTemp? || a.WriteTemp? {
      TempStepInv(s, a);
    } else if a.Acquire? || a.ReadStore? || a.ApplyChange? {
      EarlyStepInv(s, a);
    } else {
      LeaveInv(s, a);
    }
  }

  lemma {:induction false} RunInv(states: seq<State>, actions: seq<Action>, first: seq<Token>, k: nat)
    requires Run(states, actions, first) && k < |states|
    ensures Inv(states[k])
  {
    if k == 0 {
      InitInv(states[0], first);
    } else {
      RunInv(states, actions, first, k - 1);
      assert Takes(states, actions, k - 1);
      StepInv(states[k - 1], actions[k - 1]);
    }
  }

  // ----- what every run guarantees -----

  /**
   At every moment of every run the path holds one complete list that the next read
   accepts, the last of a chain in which each list is its predecessor with exactly one
   requested change applied.
   */
  lemma {:induction false} StoreAlwaysWhole(states: seq<State>, actions: seq<Action>, first: seq<Token>, k: nat)
    requires Run(states, actions, first) && k < |states|
    ensures var s := states[k];
            && |s.published| == |s.applied| + 1 && Acceptable(s) && Decode(s, PathInode(s)) == Latest(s)
            && forall i :: 0 <= i < |s.applied| ==>
                 Requested(s.applied[i]) && Change(s.applied[i], s.published[i]) == Some(s.published[i + 1])
  {
    RunInv(states, actions, first, k);
    HistoryAccepted(states[k].applied, states[k].published, |states[k].applied|);
  }

  /** Undisturbed, the first half of an allowed update runs through and leaves files and history alone. */
  lemma {:induction false} UpdateReads(s: State, pid: nat, op: Op, bytes: nat)
    returns (locked: State, read: State, changed: State)
    requires Inv(s) && s.lock.None? && Requested(op) && FreshFor(op, Latest(s)) && Change(op, Latest(s)).Some?
    requires bytes <= MAX_STORE_BYTES
    ensures LeadsTo(s, Acquire(pid, op), locked) && LeadsTo(locked, ReadStore(pid), read)
    ensures LeadsTo(read, ApplyChange(pid, bytes), changed)
    ensures PhaseOf(changed, pid) == Changed(op, Latest(s), Change(op, Latest(s)).value, bytes)
    ensures changed.names == s.names && changed.inodes == s.inodes && changed.published == s.published
  {
    HistoryAccepted(s.applied, s.published, |s.applied|);
    locked := After(s, Acquire(pid, op));
    assert PathInode(locked) == PathInode(s) && Decode(locked, PathInode(locked)) == Latest(s);
    read := After(locked, ReadStore(pid));
    changed := After(read, ApplyChange(pid, bytes));
  }

  /** Undisturbed, the second half publishes the changed list and leaves the lock. */
  lemma {:induction false} UpdateWrites(s: State, pid: nat, nonce: nat, inode: nat)
    returns (writing: State, ready: State, replaced: State, done: State)
    requires PhaseOf(s, pid).Changed? && Temp(nonce) !in s.names && inode !in s.inodes
    ensures LeadsTo(s, OpenTemp(pid, nonce, inode), writing) && LeadsTo(writing, WriteTemp(pid), ready)
    ensures LeadsTo(ready, Rename(pid), replaced) && LeadsTo(replaced, Finish(pid), done)
    ensures done.published == s.published + [PhaseOf(s, pid).next] && done.lock.None?
  {
    writing := After(s, OpenTemp(pid, nonce, inode));
    ready := After(writing, WriteTemp(pid));
    replaced := After(ready, Rename(pid));
    done := After(replaced, Finish(pid));
  }

  /** Only a rename changes what the path holds: a failure or crash before it loses nothing and adds nothing. */
  lemma {:induction false} OnlyRenameChangesTheList(states: seq<State>, actions: seq<Action>, first: seq<Token>, k: nat)
    requires Run(states, actions, first) && k < |actions|
    ensures Takes(states, actions, k)
    ensures var s, t := states[k], states[k + 1];
            && Readable(s, PathInode(s)) && Readable(t, PathInode(t))
            && (actions[k].Rename? ==>
                  && t.applied == s.applied + [PhaseOf(s, actions[k].pid).op]
                  && t.published == s.published + [PhaseOf(s, actions[k].pid).next])
            && (!actions[k].Rename? ==>
                  && t.applied == s.applied && t.published == s.published
                  && Decode(t, PathInode(t)) == Decode(s, PathInode(s)))
  {
    RunInv(states, actions, first, k);
    RunInv(states, actions, first, k + 1);
    assert Takes(states, actions, k);
  }

  lemma {:induction false} HistoryOnlyGrows(states: seq<State>, actions: seq<Action>, first: seq<Token>, a: nat, b: nat)
    requires Run(states, actions, first) && a <= b < |states|
    ensures states[a].published <= states[b].published && states[a].applied <= states[b].applied
    decreases b - a
  {
    if a < b {
      HistoryOnlyGrows(states, actions, first, a, b - 1);
      assert states[b - 1].published <= states[b - 1 + 1].published
             && states[b - 1].applied <= states[b - 1 + 1].applied by {
        OnlyRenameChangesTheList(states, actions, first, b - 1);
      }
    }
  }

  /** No lost update: every list ever published survives, record by record, in every later list. */
  lemma {:induction false} NothingPublishedIsLost(
    states: seq<State>, actions: seq<Action>, first: seq<Token>, a: nat, b: nat)
    requires Run(states, actions, first) && a <= b < |states|
    ensures states[a].published <= states[b].published && states[a].applied <= states[b].applied
    ensures |states[a].published| > 0 && |states[b].published| > 0 && Evolves(Latest(states[a]), Latest(states[b]))
  {
    HistoryOnlyGrows(states, actions, first, a, b);
    assert |states[a].published| > 0 by { RunInv(states, actions, first, a); }
    assert History(states[b].applied, states[b].published) by { RunInv(states, actions, first, b); }
    HistoryEvolves(states[b].applied, states[b].published, |states[a].published| - 1, |states[b].published| - 1);
  }

  /** A reader that opened at step `j` and has not opened again since holds the list current then. */
  lemma {:induction false} ReaderKeepsItsList(
    states: seq<State>, actions: seq<Action>, first: seq<Token>, j: nat, k: nat, rid: nat)
    requires Run(states, actions, first) && j < k < |states| && actions[j] == ReaderOpen(rid)
    requires forall i :: j < i < k ==> actions[i] != ReaderOpen(rid)
    ensures |states[j].published| > 0
    ensures var r := ReaderOf(states[k], rid); !r.Away? && r.index == |states[j].published| - 1
    decreases k
  {
    assert Takes(states, actions, k - 1);
    RunInv(states, actions, first, j);
    if k > j + 1 {
      ReaderKeepsItsList(states, actions, first, j, k - 1, rid);
      assert actions[k - 1] != ReaderOpen(rid);
      ReaderUnmoved(states[k - 1], actions[k - 1], rid);
    }
  }

  lemma {:induction false} ReaderUnmoved(s: State, a: Action, rid: nat)
    requires Enabled(s, a) && a != ReaderOpen(rid) && !ReaderOf(s, rid).Away?
    ensures var r := ReaderOf(After(s, a), rid); !r.Away? && r.index == ReaderOf(s, rid).index
  {
  }

  /** A lock-free reader sees one whole published list: the one current when it opened the path. */
  lemma {:induction false} ReadersSeeWholeLists(
    states: seq<State>, actions: seq<Action>, first: seq<Token>, j: nat, k: nat, rid: nat)
    requires Run(states, actions, first) && j < k < |states| && actions[j] == ReaderOpen(rid)
    requires (forall i :: j < i < k ==> actions[i] != ReaderOpen(rid)) && ReaderOf(states[k], rid).Done?
    ensures |states[j].published| > 0 && ReaderOf(states[k], rid).list == Latest(states[j])
    ensures Accepted(ReaderOf(states[k], rid).list)
  {
    var s := states[k];
    RunInv(states, actions, first, k);
    ReaderKeepsItsList(states, actions, first, j, k, rid);
    assert ReaderSound(s, ReaderOf(s, rid));
    HistoryOnlyGrows(states, actions, first, j, k);
    HistoryAccepted(s.applied, s.published, ReaderOf(s, rid).index);
  }

  /** No reader that opens the path after a revocation was published finds the record valid at any instant. */
  lemma {:induction false} RevokedForEveryLaterReader(
    states: seq<State>, actions: seq<Action>, first: seq<Token>, j: nat, k: nat, rid: nat, r: nat, id: string)
    requires Run(states, actions, first) && j < k < |states| && actions[j] == ReaderOpen(rid)
    requires (forall i :: j < i < k ==> actions[i] != ReaderOpen(rid)) && ReaderOf(states[k], rid).Done?
    requires r < |states[j].applied| && states[j].applied[r] == Op.Revoke(id)
    ensures forall i, now :: 0 <= i < |ReaderOf(states[k], rid).list| && ReaderOf(states[k], rid).list[i].id == id ==>
              !Live(ReaderOf(states[k], rid).list[i], now)
  {
    ReadersSeeWholeLists(states, actions, first, j, k, rid);
    RunInv(states, actions, first, j);
    var s, list := states[j], Latest(states[j]);
    HistoryEvolves(s.applied, s.published, r + 1, |s.published| - 1);
    assert Change(Op.Revoke(id), s.published[r]) == Some(s.published[r + 1]);
    RevokedStaysDead(id, s.published[r], list);
    var dead :| 0 <= dead < |s.published[r]| && list[dead].id == id && forall now :: !Live(list[dead], now);
    forall i, now | 0 <= i < |list| && list[i].id == id
      ensures !Live(list[i], now)
    {
      assert i == dead;
    }
  }
}
