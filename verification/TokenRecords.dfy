/**
 Token records and the three changes a store update can make
 (internal/auth/store.go). Time is an abstract integer instant; Go's zero time,
 which means "no expiry" in a record and is never after the clock, is `Never`.
 */
module TokenRecords {
  import opened Wrappers

  const MAX_STORE_BYTES: nat := 1024 * 1024

  datatype Expiry = Never | At(instant: int)
  datatype Token = Token(
    id: string, name: string, roles: seq<string>, expires: Expiry, revoked: bool, hash: string, legacy: bool)

  predicate RoleValid(role: string) {
    role == "observe" || role == "repair"
  }

  predicate IsHex(text: string) {
    forall c :: c in text ==> '0' <= c <= '9' || 'a' <= c <= 'f' || 'A' <= c <= 'F'
  }

  predicate RecordValid(t: Token) {
    && t.id != "" && t.name != "" && |t.hash| == 64 && IsHex(t.hash)
    && (!t.revoked ==> t.roles != [])
    && forall r :: r in t.roles ==> RoleValid(r)
  }

  ghost predicate DistinctIDs(records: seq<Token>) {
    forall i, j :: 0 <= i < j < |records| ==> records[i].id != records[j].id
  }

  ghost predicate DistinctHashes(records: seq<Token>) {
    forall i, j :: 0 <= i < j < |records| ==> records[i].hash != records[j].hash
  }

  /** What `read` accepts of a decoded list. */
  ghost predicate Accepted(records: seq<Token>) {
    && (forall i :: 0 <= i < |records| ==> RecordValid(records[i]))
    && DistinctIDs(records) && DistinctHashes(records)
  }

  lemma {:induction false} HexByPosition(text: string)
    ensures IsHex(text) <==> forall k :: 0 <= k < |text| ==>
              '0' <= text[k] <= '9' || 'a' <= text[k] <= 'f' || 'A' <= text[k] <= 'F'
  {
    if IsHex(text) {
      assert forall k :: 0 <= k < |text| ==> text[k] in text;
    }
  }

  /** A record as the reader wants it: named, with 64 hex characters of hash, and with roles while it is active. */
  ghost predicate Sound(t: Token) {
    && t.id != "" && t.name != "" && |t.hash| == 64
    && (forall k :: 0 <= k < 64 ==>
          '0' <= t.hash[k] <= '9' || 'a' <= t.hash[k] <= 'f' || 'A' <= t.hash[k] <= 'F')
    && (t.revoked || t.roles != []) && forall r :: r in t.roles ==> r == "observe" || r == "repair"
  }

  /** A list is accepted exactly when every record is sound and no identifier or hash occurs twice. */
  lemma {:induction false} AcceptedExactly(records: seq<Token>)
    ensures Accepted(records) <==>
              && (forall i :: 0 <= i < |records| ==> Sound(records[i]))
              && forall i, j :: 0 <= i < j < |records| ==>
                   records[i].id != records[j].id && records[i].hash != records[j].hash
  {
    forall i | 0 <= i < |records|
      ensures RecordValid(records[i]) <==> Sound(records[i])
    {
      HexByPosition(records[i].hash);
    }
  }

  /** The validation loop of `read`, with its two seen-sets. */
  method CheckRecords(records: seq<Token>) returns (ok: bool)
    ensures ok <==> Accepted(records)
  {
    var ids: set<string>, hashes: set<string>, i := {}, {}, 0;
    while i < |records|
      invariant 0 <= i <= |records|
      invariant Accepted(records[..i])
      invariant forall x :: x in ids <==> exists k :: 0 <= k < i && records[k].id == x
      invariant forall x :: x in hashes <==> exists k :: 0 <= k < i && records[k].hash == x
    {
      var record := records[i];
      if record.id == "" || |record.hash| != 64 || record.name == "" || !IsHex(record.hash) {
        return false;
      }
      if record.id in ids || record.hash in hashes {
        return false;
      }
      ids, hashes := ids + {record.id}, hashes + {record.hash};
      if !record.revoked && |record.roles| == 0 {
        return false;
      }
      if exists r :: r in record.roles && !RoleValid(r) {
        return false;
      }
      i := i + 1;
    }
    assert records[..i] == records;
    return true;
  }

  /** The token opens the door at this instant. */
  predicate Live(t: Token, now: int) {
    !t.revoked && (t.expires.Never? || now < t.expires.instant)
  }

  predicate After(e: Expiry, now: int) {
    e.At? && e.instant > now
  }

  datatype Op =
    | Create(token: Token, now: int)
    | Revoke(id: string)
    | Rotate(id: string, token: Token, overlap: Expiry, now: int, closureNow: int)

  predicate PlainName(name: string) {
    name != "" && |name| <= 128 && '\0' !in name && '\n' !in name && '\r' !in name
  }

  /** The checks a call makes before it touches the store. */
  predicate Requested(op: Op) {
    match op
    case Create(t, now) =>
      && PlainName(t.name) && t.roles != [] && (forall r :: r in t.roles ==> RoleValid(r))
      && (t.expires.Never? || After(t.expires, now)) && !t.revoked && !t.legacy
    case Revoke(_) => true
    case Rotate(id, t, overlap, now, _) =>
      && id != "" && After(overlap, now)
      && (t.expires.Never? || (After(t.expires, now) && overlap.instant <= t.expires.instant))
      && !t.revoked && !t.legacy
  }

  function IndexOf(records: seq<Token>, id: string): (k: nat)
    ensures k <= |records|
    ensures k < |records| ==> records[k].id == id
    ensures forall i :: 0 <= i < k ==> records[i].id != id
  {
    if records == [] || records[0].id == id then 0 else 1 + IndexOf(records[1..], id)
  }

  predicate Rotatable(t: Token, id: string, now: int) {
    t.id == id && !t.revoked && (t.expires.Never? || After(t.expires, now))
  }

  function RotatableIndex(records: seq<Token>, id: string, now: int): (k: nat)
    ensures k <= |records|
    ensures k < |records| ==> Rotatable(records[k], id, now)
    ensures forall i :: 0 <= i < k ==> !Rotatable(records[i], id, now)
  {
    if records == [] || Rotatable(records[0], id, now) then 0 else 1 + RotatableIndex(records[1..], id, now)
  }

  /** The change a locked update applies to the list it read; `None` is an error. */
  function Change(op: Op, records: seq<Token>): Option<seq<Token>> {
    match op
    case Create(t, _) => Some(records + [t])
    case Revoke(id) =>
      var k := IndexOf(records, id);
      if k == |records| then None else Some(records[k := records[k].(revoked := true)])
    case Rotate(id, t, overlap, _, now) =>
      var k := RotatableIndex(records, id, now);
      if k == |records| || overlap.Never? then None
      else if records[k].expires.At? && overlap.instant > records[k].expires.instant then None
      else
        var heir := t.(name := records[k].name, roles := records[k].roles);
        Some(records[k := records[k].(expires := overlap)] + [heir])
  }

  /** The rotation of the first rotatable record, as an update loop finds it. */
  lemma {:induction false} RotateAt(
    records: seq<Token>, index: nat, id: string, t: Token, overlap: Expiry, now: int, closureNow: int)
    requires index < |records| && Rotatable(records[index], id, closureNow)
    requires forall i :: 0 <= i < index ==> !Rotatable(records[i], id, closureNow)
    requires overlap.At? && !(records[index].expires.At? && overlap.instant > records[index].expires.instant)
    ensures Change(Rotate(id, t, overlap, now, closureNow), records)
         == Some(records[index := records[index].(expires := overlap)]
                 + [t.(name := records[index].name, roles := records[index].roles)])
  {
    assert index == RotatableIndex(records, id, closureNow);
  }

  /** New identifiers are random: well formed and not yet in the list. */
  ghost predicate FreshFor(op: Op, records: seq<Token>) {
    !op.Revoke? ==>
      && op.token.id != "" && |op.token.hash| == 64 && IsHex(op.token.hash)
      && forall i :: 0 <= i < |records| ==> records[i].id != op.token.id && records[i].hash != op.token.hash
  }

  /** Every list a change yields from an accepted list is accepted by the next read. */
  lemma {:induction false} ChangeAccepted(op: Op, records: seq<Token>)
    requires Accepted(records) && Requested(op) && FreshFor(op, records)
    ensures Change(op, records).Some? ==> Accepted(Change(op, records).value)
  {
    match op {
      case Create(t, _) => AppendAccepted(records, t);
      case Revoke(id) =>
        var k := IndexOf(records, id);
        if k < |records| {
          ReplaceAccepted(records, k, records[k].(revoked := true));
        }
      case Rotate(id, t, overlap, _, now) =>
        var k := RotatableIndex(records, id, now);
        if k < |records| {
          var retired := records[k].(expires := overlap);
          ReplaceAccepted(records, k, retired);
          assert forall i :: 0 <= i < |records| ==>
                   records[k := retired][i].id == records[i].id && records[k := retired][i].hash == records[i].hash;
          AppendAccepted(records[k := retired], t.(name := records[k].name, roles := records[k].roles));
        }
    }
  }

  lemma {:induction false} AppendAccepted(records: seq<Token>, t: Token)
    requires Accepted(records) && RecordValid(t)
    requires forall i :: 0 <= i < |records| ==> records[i].id != t.id && records[i].hash != t.hash
    ensures Accepted(records + [t])
  {
  }

  lemma {:induction false} ReplaceAccepted(records: seq<Token>, k: nat, t: Token)
    requires Accepted(records) && k < |records| && RecordValid(t)
    requires t.id == records[k].id && t.hash == records[k].hash
    ensures Accepted(records[k := t])
  {
  }

  /** The record at a position keeps its identity and roles, and is live at no new instant. */
  ghost predicate Narrowed(before: Token, after: Token) {
    && after.id == before.id && after.hash == before.hash && after.roles == before.roles
    && after.name == before.name && after.legacy == before.legacy
    && forall now :: Live(after, now) ==> Live(before, now)
  }

  /** `later` extends `earlier` position by position. */
  ghost predicate Evolves(earlier: seq<Token>, later: seq<Token>) {
    |earlier| <= |later| && forall i :: 0 <= i < |earlier| ==> Narrowed(earlier[i], later[i])
  }

  lemma {:induction false} ChangeNarrows(op: Op, records: seq<Token>)
    ensures Change(op, records).Some? ==> Evolves(records, Change(op, records).value)
  {
  }

  /** A revoked token is live at no instant, from then on. */
  lemma {:induction false} RevokedStaysDead(id: string, records: seq<Token>, later: seq<Token>)
    requires Change(Revoke(id), records).Some? && Evolves(Change(Revoke(id), records).value, later)
    ensures exists i :: 0 <= i < |records| && records[i].id == id && later[i].id == id
              && forall now :: !Live(later[i], now)
  {
    var k := IndexOf(records, id);
    var next := Change(Revoke(id), records).value;
    assert Narrowed(next[k], later[k]);
  }

  /**
   Right after a rotation the heir is live at every instant at which the retired
   token still is, and the retired token was rotatable and carries the heir's roles.
   */
  lemma {:induction false} RotationLeavesNoGap(op: Op, records: seq<Token>)
    requires op.Rotate? && Requested(op) && Change(op, records).Some?
    ensures var next := Change(op, records).value;
            var k := RotatableIndex(records, op.id, op.closureNow);
            && k < |records| && |next| == |records| + 1
            && next[k].id == op.id && next[k].expires == op.overlap
            && next[|records|].id == op.token.id && next[|records|].roles == next[k].roles == records[k].roles
            && (forall now :: Live(next[k], now) ==> Live(next[|records|], now))
            && (forall i :: 0 <= i < |records| && i != k ==> next[i] == records[i])
  {
  }

  // ----- whole histories -----

  /** One update: the list is unchanged, or one requested change with fresh identifiers was applied. */
  ghost predicate Step(op: Op, before: seq<Token>, after: seq<Token>) {
    after == before || (Requested(op) && FreshFor(op, before) && Change(op, before) == Some(after))
  }

  ghost predicate History(ops: seq<Op>, lists: seq<seq<Token>>) {
    |lists| == |ops| + 1 && forall k :: 0 <= k < |ops| ==> Step(ops[k], lists[k], lists[k + 1])
  }

  lemma {:induction false} HistoryEvolves(ops: seq<Op>, lists: seq<seq<Token>>, a: nat, b: nat)
    requires History(ops, lists) && a <= b < |lists|
    ensures Evolves(lists[a], lists[b])
    decreases b - a
  {
    if a < b {
      HistoryEvolves(ops, lists, a, b - 1);
      assert Step(ops[b - 1], lists[b - 1], lists[b - 1 + 1]);
      ChangeNarrows(ops[b - 1], lists[b - 1]);
    }
  }

  lemma {:induction false} StepAccepted(op: Op, before: seq<Token>, after: seq<Token>)
    requires Accepted(before) && Step(op, before, after)
    ensures Accepted(after)
  {
    if after != before {
      ChangeAccepted(op, before);
    }
  }

  lemma {:induction false} HistoryAccepted(ops: seq<Op>, lists: seq<seq<Token>>, k: nat)
    requires History(ops, lists) && Accepted(lists[0]) && k < |lists|
    ensures Accepted(lists[k])
  {
    if k > 0 {
      HistoryAccepted(ops, lists, k - 1);
      assert Step(ops[k - 1], lists[k - 1], lists[k - 1 + 1]);
      StepAccepted(ops[k - 1], lists[k - 1], lists[k]);
    }
  }

  /** Update `k` of the history rotated `parent` into `child`. */
  ghost predicate RotatedAt(ops: seq<Op>, lists: seq<seq<Token>>, k: nat, parent: string, child: string)
    requires History(ops, lists)
  {
    && k < |ops| && ops[k].Rotate? && ops[k].id == parent && ops[k].token.id == child
    && lists[k + 1] != lists[k]
  }

  ghost predicate Rotated(ops: seq<Op>, lists: seq<seq<Token>>, parent: string, child: string)
    requires History(ops, lists)
  {
    exists k :: RotatedAt(ops, lists, k, parent, child)
  }

  ghost predicate Lineage(ops: seq<Op>, lists: seq<seq<Token>>, ids: seq<string>)
    requires History(ops, lists)
  {
    forall j :: 0 < j < |ids| ==> Rotated(ops, lists, ids[j - 1], ids[j])
  }

  ghost predicate HasRoles(records: seq<Token>, id: string, roles: seq<string>) {
    exists i :: 0 <= i < |records| && records[i].id == id && records[i].roles == roles
  }

  lemma {:induction false} RotationKeepsRoles(
    ops: seq<Op>, lists: seq<seq<Token>>, parent: string, child: string, k: nat, roles: seq<string>)
    requires History(ops, lists) && Accepted(lists[0]) && RotatedAt(ops, lists, k, parent, child)
    requires HasRoles(lists[|ops|], parent, roles)
    ensures HasRoles(lists[|ops|], child, roles)
  {
    var before, after, last := lists[k], lists[k + 1], lists[|ops|];
    assert Step(ops[k], before, after);
    RotationLeavesNoGap(ops[k], before);
    HistoryEvolves(ops, lists, k + 1, |ops|);
    HistoryAccepted(ops, lists, |ops|);
    var p := RotatableIndex(before, parent, ops[k].closureNow);
    assert Narrowed(after[p], last[p]) && Narrowed(after[|before|], last[|before|]);
    var i :| 0 <= i < |last| && last[i].id == parent && last[i].roles == roles;
    assert i == p;
  }

  /** Roles are constant along any rotation lineage. */
  lemma {:induction false} LineageKeepsRoles(
    ops: seq<Op>, lists: seq<seq<Token>>, ids: seq<string>, j: nat, roles: seq<string>)
    requires History(ops, lists) && Accepted(lists[0]) && Lineage(ops, lists, ids)
    requires j < |ids| && HasRoles(lists[|ops|], ids[0], roles)
    ensures HasRoles(lists[|ops|], ids[j], roles)
  {
    if j > 0 {
      LineageKeepsRoles(ops, lists, ids, j - 1, roles);
      assert Rotated(ops, lists, ids[j - 1], ids[j]);
      var k :| RotatedAt(ops, lists, k, ids[j - 1], ids[j]);
      RotationKeepsRoles(ops, lists, ids[j - 1], ids[j], k, roles);
    }
  }
}
