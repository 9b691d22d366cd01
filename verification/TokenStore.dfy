/**
 The token store as the source runs it (internal/auth/store.go): a file that each
 call reads afresh and that an update replaces by rename. Every operating-system
 call may fail, where `*` chooses, unless the input `smooth` says that none does. `size`
 is the length of a list's JSON text, and the encoding itself is lossless.
 */
module TokenStore {
  import opened Wrappers
  import opened TokenRecords

  /** The list with its first record of this identifier revoked and every other record as it was. */
  ghost predicate Revocation(before: seq<Token>, id: string, k: nat, after: seq<Token>) {
    && k < |before| == |after| && before[k].id == id && (forall i :: 0 <= i < k ==> before[i].id != id)
    && after[k] == before[k].(revoked := true)
    && forall i :: 0 <= i < |before| && i != k ==> after[i] == before[i]
  }

  /** Not revoked and not yet expired. */
  ghost predicate Current(t: Token, at: int) {
    !t.revoked && (t.expires.Never? || at < t.expires.instant)
  }

  /**
   The list with the first current record of this identifier expiring at `overlap` and an
   heir of its name and roles behind all others, which are as they were.
   */
  ghost predicate Rotation(op: Op, before: seq<Token>, k: nat, after: seq<Token>)
    requires op.Rotate?
  {
    && k < |before| && |after| == |before| + 1 && before[k].id == op.id && Current(before[k], op.closureNow)
    && (forall i :: 0 <= i < k && before[i].id == op.id ==> !Current(before[i], op.closureNow))
    && op.overlap.At? && (before[k].expires.At? ==> op.overlap.instant <= before[k].expires.instant)
    && after[k] == before[k].(expires := op.overlap)
    && after[|before|]
       == Token(op.token.id, before[k].name, before[k].roles, op.token.expires, false, op.token.hash, false)
    && forall i :: 0 <= i < |before| && i != k ==> after[i] == before[i]
  }

  class Store {
    var file: Option<seq<Token>>
    const size: seq<Token> -> nat

    constructor (size: seq<Token> -> nat)
      ensures file == None && this.size == size
    {
      file, this.size := None, size;
    }

    /** An absent file reads as the empty list. */
    function Records(): seq<Token>
      reads this
    {
      if file.Some? then file.value else []
    }

    ghost predicate Readable()
      reads this
    {
      file.Some? ==> size(file.value) <= MAX_STORE_BYTES && Accepted(file.value)
    }

    /** `read`: with no I/O failure it returns the list exactly when the list is acceptable. */
    method Read(smooth: bool) returns (r: Option<seq<Token>>)
      ensures r.Some? ==> r.value == Records() && Readable()
      ensures smooth && Readable() ==> r.Some?
    {
      var broken: bool := *;
      if broken && !smooth {
        return None;
      }
      if file.None? {
        return Some([]);
      }
      if size(file.value) > MAX_STORE_BYTES {
        return None;
      }
      var ok := CheckRecords(file.value);
      return if ok then Some(file.value) else None;
    }

    /** The write half of `update`: temporary file, then rename; a late error leaves the new list in place. */
    method Publish(records: seq<Token>, smooth: bool) returns (ok: bool, ghost renamed: bool)
      modifies this
      ensures renamed ==> file == Some(records) && size(records) <= 1048576
      ensures !renamed ==> file == old(file) && !ok
      ensures smooth && size(records) <= 1048576 ==> ok
    {
      if size(records) > MAX_STORE_BYTES {
        return false, false;
      }
      var prepared: bool, moved: bool, synced: bool := *, *, *;
      if !smooth && (!prepared || !moved) {
        return false, false;
      }
      file := Some(records);
      return smooth || synced, true;
    }

    /** A call either leaves the file alone or applies its one change to the list it found there. */
    twostate predicate AppliedOnly(op: Op, renamed: bool)
      reads this
    {
      if renamed
      then old(Readable()) && Requested(op) && Change(op, old(Records())) == Some(Records())
        && size(Records()) <= MAX_STORE_BYTES
      else file == old(file)
    }

    method Create(name: string, roles: seq<string>, expires: Expiry, now: int, id: string, hash: string, smooth: bool)
      returns (r: Option<Token>, ghost op: Op, ghost renamed: bool)
      modifies this
      ensures op == Op.Create(Token(id, name, roles, expires, false, hash, false), now)
      ensures AppliedOnly(op, renamed)
      ensures old(Readable()) && FreshFor(op, old(Records())) ==> Readable()
      ensures renamed ==> Records() == old(Records()) + [Token(id, name, roles, expires, false, hash, false)]
      ensures r.Some? ==> renamed && r.value == Token(id, name, roles, expires, false, "", false)
      ensures smooth ==>
                (r.Some? <==>
                 && old(Readable()) && 0 < |name| <= 128 && '\0' !in name && '\n' !in name && '\r' !in name
                 && roles != [] && (forall role :: role in roles ==> role == "observe" || role == "repair")
                 && (expires.Never? || now < expires.instant)
                 && size(old(Records()) + [Token(id, name, roles, expires, false, hash, false)]) <= 1048576)
    {
      var record := Token(id, name, roles, expires, false, hash, false);
      op, renamed := Op.Create(record, now), false;
      if !PlainName(name) || roles == [] || (expires.At? && !After(expires, now)) {
        return None, op, renamed;
      }
      if exists role :: role in roles && !RoleValid(role) {
        return None, op, renamed;
      }
      var read := Read(smooth);
      if read.None? {
        return None, op, renamed;
      }
      var ok;
      if FreshFor(op, read.value) {
        ChangeAccepted(op, read.value);
      }
      ok, renamed := Publish(read.value + [record], smooth);
      return if ok then Some(record.(hash := "")) else None, op, renamed;
    }

    method Revoke(id: string, smooth: bool) returns (ok: bool, ghost renamed: bool)
      modifies this
      ensures AppliedOnly(Op.Revoke(id), renamed)
      ensures old(Readable()) ==> Readable()
      ensures renamed ==> exists k: nat :: Revocation(old(Records()), id, k, Records())
      ensures ok ==> renamed
      ensures smooth ==>
                (ok <==>
                 && old(Readable())
                 && exists k: nat, after :: Revocation(old(Records()), id, k, after) && size(after) <= 1048576)
    {
      renamed := false;
      var read := Read(smooth);
      if read.None? {
        return false, renamed;
      }
      var records, index := read.value, 0;
      while index < |records|
        invariant 0 <= index <= |records| && records == read.value && file == old(file) && !renamed
        invariant forall i :: 0 <= i < index ==> records[i].id != id
      {
        if records[index].id == id {
          records := records[index := records[index].(revoked := true)];
          assert index == IndexOf(read.value, id);
          ChangeAccepted(Op.Revoke(id), read.value);
          RevocationUnique(read.value, id, index, records);
          ok, renamed := Publish(records, smooth);
          assert renamed ==> Revocation(old(Records()), id, index, Records());
          return;
        }
        index := index + 1;
      }
      return false, renamed;
    }

    static lemma {:induction false} RevocationUnique(before: seq<Token>, id: string, k: nat, after: seq<Token>)
      requires Revocation(before, id, k, after)
      ensures forall j: nat, other :: Revocation(before, id, j, other) ==> j == k && other == after
    {
      forall j: nat, other | Revocation(before, id, j, other)
        ensures j == k && other == after
      {
        assert j == k;
        assert forall i :: 0 <= i < |before| ==> other[i] == after[i];
      }
    }

    method Rotate(
      id: string, expires: Expiry, overlap: Expiry, now: int, closureNow: int, newID: string, hash: string,
      smooth: bool)
      returns (r: Option<Token>, ghost op: Op, ghost renamed: bool)
      modifies this
      ensures op == Op.Rotate(id, Token(newID, "", [], expires, false, hash, false), overlap, now, closureNow)
      ensures AppliedOnly(op, renamed)
      ensures old(Readable()) && FreshFor(op, old(Records())) ==> Readable()
      ensures renamed ==> exists k: nat :: Rotation(op, old(Records()), k, Records())
      ensures r.Some? ==> renamed && Records() != [] && r.value == Records()[|Records()| - 1].(hash := "")
      ensures smooth ==>
                (r.Some? <==>
                 && old(Readable()) && id != "" && overlap.At? && now < overlap.instant
                 && (expires.At? ==> now < expires.instant && overlap.instant <= expires.instant)
                 && exists k: nat, after :: Rotation(op, old(Records()), k, after) && size(after) <= 1048576)
    {
      var change := Op.Rotate(id, Token(newID, "", [], expires, false, hash, false), overlap, now, closureNow);
      op, renamed := change, false;
      if id == "" || !After(overlap, now)
        || (expires.At? && (!After(expires, now) || overlap.instant > expires.instant)) {
        return None, op, renamed;
      }
      var read := Read(smooth);
      if read.None? {
        return None, op, renamed;
      }
      var records, index := read.value, 0;
      while index < |records|
        invariant 0 <= index <= |records| && records == read.value && file == old(file) && !renamed
        invariant forall i :: 0 <= i < index ==> !Rotatable(records[i], id, closureNow)
      {
        var prior := records[index];
        if prior.id == id && !prior.revoked && !(prior.expires.At? && !After(prior.expires, closureNow)) {
          if prior.expires.At? && overlap.instant > prior.expires.instant {
            NoRotation(op, records, index);
            return None, op, renamed;
          }
          r, renamed := PublishRotation(records, index, change, smooth);
          return r, op, renamed;
        }
        index := index + 1;
      }
      NoRotation(op, records, index);
      return None, op, renamed;
    }

    /** The rotation of the record that the loop found, published in one update. */
    method PublishRotation(records: seq<Token>, index: nat, op: Op, smooth: bool)
      returns (r: Option<Token>, ghost renamed: bool)
      requires records == Records() && Readable() && op.Rotate? && Requested(op) && index < |records|
      requires op.overlap.At? && Rotatable(records[index], op.id, op.closureNow)
      requires forall i :: 0 <= i < index ==> !Rotatable(records[i], op.id, op.closureNow)
      requires records[index].expires.At? ==> op.overlap.instant <= records[index].expires.instant
      modifies this
      ensures AppliedOnly(op, renamed)
      ensures FreshFor(op, records) ==> Readable()
      ensures renamed ==> Rotation(op, records, index, Records())
      ensures r.Some? ==> renamed && Records() != [] && r.value == Records()[|Records()| - 1].(hash := "")
      ensures smooth ==>
                (r.Some? <==> exists k: nat, after :: Rotation(op, records, k, after) && size(after) <= 1048576)
    {
      RotateAt(records, index, op.id, op.token, op.overlap, op.now, op.closureNow);
      if FreshFor(op, records) {
        ChangeAccepted(op, records);
      }
      var heir := op.token.(name := records[index].name, roles := records[index].roles);
      var next := records[index := records[index].(expires := op.overlap)] + [heir];
      RotationUnique(op, records, index, next);
      var ok;
      ok, renamed := Publish(next, smooth);
      assert Rotation(op, records, index, next) && (smooth ==> (ok <==> size(next) <= 1048576));
      return if ok then Some(heir.(hash := "")) else None, renamed;
    }

    static lemma {:induction false} RotationUnique(op: Op, before: seq<Token>, k: nat, after: seq<Token>)
      requires op.Rotate? && Rotation(op, before, k, after)
      ensures forall j: nat, other :: Rotation(op, before, j, other) ==> j == k && other == after
    {
      forall j: nat, other | Rotation(op, before, j, other)
        ensures j == k && other == after
      {
        assert j == k;
        assert forall i :: 0 <= i <= |before| ==> other[i] == after[i];
      }
    }

    /** No record to rotate, or one that expires before the overlap ends. */
    static lemma {:induction false} NoRotation(op: Op, before: seq<Token>, k: nat)
      requires op.Rotate? && op.overlap.At?
      requires k <= |before| && forall i :: 0 <= i < k ==> !Rotatable(before[i], op.id, op.closureNow)
      requires k < |before| ==>
                 && Rotatable(before[k], op.id, op.closureNow)
                 && before[k].expires.At? && op.overlap.instant > before[k].expires.instant
      ensures forall j: nat, after :: !Rotation(op, before, j, after)
    {
      forall j: nat, after | Rotation(op, before, j, after)
        ensures false
      {
        assert Rotatable(before[j], op.id, op.closureNow);
        assert j == k;
      }
    }

    static predicate Opens(t: Token, secret: string, now: int, modern: string -> string, legacy: string -> string) {
      (if t.legacy then legacy(secret) else modern(secret)) == t.hash && Live(t, now)
    }

    /** `Verify`: without an I/O failure a secret passes exactly when some stored record opens for it now. */
    method Verify(secret: string, now: int, modern: string -> string, legacy: string -> string, smooth: bool)
      returns (r: Option<Token>)
      ensures r.Some? ==>
                && Readable() && 32 <= |secret| <= 128
                && exists i :: 0 <= i < |Records()| && r.value == Records()[i].(hash := "")
                     && Records()[i].hash == (if Records()[i].legacy then legacy(secret) else modern(secret))
                     && !Records()[i].revoked
                     && (Records()[i].expires.Never? || now < Records()[i].expires.instant)
                     && forall k :: 0 <= k < i ==> !Opens(Records()[k], secret, now, modern, legacy)
      ensures r.Some? ==>
                && r.value.id != "" && r.value.name != "" && r.value.roles != []
                && forall role :: role in r.value.roles ==> role == "observe" || role == "repair"
      ensures r.None? && smooth && Readable() && 32 <= |secret| <= 128 ==>
                forall i :: 0 <= i < |Records()| ==>
                  || Records()[i].hash != (if Records()[i].legacy then legacy(secret) else modern(secret))
                  || Records()[i].revoked
                  || (Records()[i].expires.At? && Records()[i].expires.instant <= now)
    {
      if |secret| < 32 || |secret| > 128 {
        return None;
      }
      var read := Read(smooth);
      if read.None? {
        return None;
      }
      var i := 0;
      while i < |read.value|
        invariant 0 <= i <= |read.value|
        invariant forall k :: 0 <= k < i ==> !Opens(read.value[k], secret, now, modern, legacy)
      {
        var record := read.value[i];
        var want := if record.legacy then legacy(secret) else modern(secret);
        if want == record.hash && !record.revoked && (record.expires.Never? || now < record.expires.instant) {
          return Some(record.(hash := ""));
        }
        i := i + 1;
      }
      assert forall k :: 0 <= k < |Records()| ==> !Opens(Records()[k], secret, now, modern, legacy);
      return None;
    }

    /**
     A created token is good from then on until it expires, and for its name and roles: no
     stored record opens for the secret before, and the secret then opens the new one alone.
     */
    method CreateThenVerify(
      name: string, roles: seq<string>, expires: Expiry, created: int, id: string, secret: string, now: int,
      modern: string -> string, legacy: string -> string, smooth: bool)
      returns (made: Option<Token>, r: Option<Token>)
      requires 32 <= |secret| <= 128 && id != "" && |modern(secret)| == 64 && IsHex(modern(secret))
      requires forall t :: t in Records() ==> t.id != id && t.hash != modern(secret) && t.hash != legacy(secret)
      modifies this
      ensures made.Some? && smooth ==> (r.Some? <==> expires.Never? || now < expires.instant)
      ensures made.Some? && r.Some? ==> r.value == Token(id, name, roles, expires, false, "", false)
    {
      ghost var op, renamed;
      made, op, renamed := Create(name, roles, expires, created, id, modern(secret), smooth);
      ghost var before := old(Records());
      assert FreshFor(op, before) by {
        assert forall i :: 0 <= i < |before| ==> before[i] in before;
      }
      r := Verify(secret, now, modern, legacy, smooth);
      if made.Some? {
        assert forall i :: 0 <= i < |before| ==> Records()[i] == before[i] && before[i] in before;
        assert Records()[|before|] == Token(id, name, roles, expires, false, modern(secret), false);
      }
    }

    /** `List` shows every record with its hash blanked. */
    method List(smooth: bool) returns (r: Option<seq<Token>>)
      ensures r.Some? ==> |r.value| == |Records()| && forall i :: 0 <= i < |Records()| ==>
                r.value[i] == Records()[i].(hash := "")
      ensures smooth && Readable() ==> r.Some?
    {
      r := Read(smooth);
      if r.Some? {
        var records, i := r.value, 0;
        while i < |records|
          invariant 0 <= i <= |records| == |Records()|
          invariant forall k :: 0 <= k < i ==> records[k] == Records()[k].(hash := "")
          invariant forall k :: i <= k < |records| ==> records[k] == Records()[k]
        {
          records := records[i := records[i].(hash := "")];
          i := i + 1;
        }
        r := Some(records);
      }
    }
  }
}
