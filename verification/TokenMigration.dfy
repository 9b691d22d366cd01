/**
 Conversion of a version 1 token list: `convertTokens`
 (internal/migrate/migrate_linux.go), judged by the version 2 store's own reader
 and verifier.
 */
module TokenMigration {
  import opened Wrappers
  import opened TokenRecords
  import TokenStore

  datatype OldToken = OldToken(
    id: string, name: string, roles: seq<string>, expires: Expiry, status: string, hash: string)

  predicate Diagnostic(role: string) {
    role == "health" || role == "inspect" || role == "diagnostics"
  }

  predicate HasDiagnostic(roles: seq<string>) {
    exists r :: r in roles && Diagnostic(r)
  }

  predicate OldValid(t: OldToken) {
    && t.id != "" && t.name != "" && |t.hash| == 64 && IsHex(t.hash)
    && (t.status == "active" || t.status == "revoked")
    && forall r :: r in t.roles ==> Diagnostic(r) || r == "metrics"
  }

  /** What a version 1 list must satisfy to be converted. */
  ghost predicate Convertible(olds: seq<OldToken>) {
    && (forall i :: 0 <= i < |olds| ==> OldValid(olds[i]))
    && DistinctOlds(olds)
  }

  ghost predicate DistinctOlds(olds: seq<OldToken>) {
    forall i, j :: 0 <= i < j < |olds| ==> olds[i].id != olds[j].id && olds[i].hash != olds[j].hash
  }

  ghost function IDsOf(olds: seq<OldToken>): set<string> {
    set t | t in olds :: t.id
  }

  ghost function HashesOf(olds: seq<OldToken>): set<string> {
    set t | t in olds :: t.hash
  }

  lemma {:induction false} DistinctSnoc(olds: seq<OldToken>, t: OldToken)
    ensures IDsOf(olds + [t]) == IDsOf(olds) + {t.id} && HashesOf(olds + [t]) == HashesOf(olds) + {t.hash}
    ensures DistinctOlds(olds + [t]) <==> DistinctOlds(olds) && t.id !in IDsOf(olds) && t.hash !in HashesOf(olds)
  {
    var more := olds + [t];
    assert forall x :: x in more <==> x in olds || x == t;
    assert forall i :: 0 <= i < |olds| ==> more[i] == olds[i];
    assert more[|olds|] == t;
    if DistinctOlds(more) {
      assert forall i :: 0 <= i < |olds| ==> more[i].id != more[|olds|].id && more[i].hash != more[|olds|].hash;
    }
  }

  function Converted(t: OldToken): Token {
    Token(t.id, t.name, if HasDiagnostic(t.roles) then ["observe"] else [], t.expires,
          t.status != "active" || !HasDiagnostic(t.roles), t.hash, true)
  }

  /** The inner role loop: `None` for an unknown role, else whether a diagnostic role occurs. */
  method ScanRoles(roles: seq<string>) returns (r: Option<bool>)
    ensures r.Some? <==> forall x :: x in roles ==> Diagnostic(x) || x == "metrics"
    ensures r.Some? ==> (r.value <==> HasDiagnostic(roles))
  {
    var observe, i := false, 0;
    while i < |roles|
      invariant 0 <= i <= |roles|
      invariant forall k :: 0 <= k < i ==> Diagnostic(roles[k]) || roles[k] == "metrics"
      invariant observe <==> exists k :: 0 <= k < i && Diagnostic(roles[k])
    {
      var role := roles[i];
      if role == "health" || role == "inspect" || role == "diagnostics" {
        observe := true;
      } else if role != "metrics" {
        assert roles[i] in roles;
        return None;
      }
      i := i + 1;
    }
    return Some(observe);
  }

  /** One iteration's field checks and the record it builds. */
  method ConvertOne(item: OldToken) returns (r: Option<Token>)
    ensures r.Some? <==> OldValid(item)
    ensures r.Some? ==> r.value == Converted(item)
  {
    if item.id == "" || item.name == "" || |item.hash| != 64
      || (item.status != "active" && item.status != "revoked") || !IsHex(item.hash) {
      return None;
    }
    var observe := ScanRoles(item.roles);
    if observe.None? {
      return None;
    }
    return Some(Token(item.id, item.name, if observe.value then ["observe"] else [], item.expires,
                      item.status != "active" || !observe.value, item.hash, true));
  }

  /** A version 1 record with every field in order and no role but the four there were. */
  ghost predicate Complete(t: OldToken) {
    && t.id != "" && t.name != "" && (t.status == "active" || t.status == "revoked")
    && |t.hash| == 64
    && (forall k :: 0 <= k < 64 ==>
          '0' <= t.hash[k] <= '9' || 'a' <= t.hash[k] <= 'f' || 'A' <= t.hash[k] <= 'F')
    && forall r :: r in t.roles ==> r == "health" || r == "inspect" || r == "diagnostics" || r == "metrics"
  }

  method ConvertTokens(olds: seq<OldToken>) returns (r: Option<seq<Token>>)
    ensures r.Some? <==> Convertible(olds)
    ensures r.Some? ==> ConversionOf(olds, r.value)
  {
    var result: seq<Token>, ids: set<string>, hashes: set<string>, i := [], {}, {}, 0;
    while i < |olds|
      invariant 0 <= i == |result| <= |olds|
      invariant forall k :: 0 <= k < i ==> OldValid(olds[k]) && result[k] == Converted(olds[k])
      invariant ids == IDsOf(olds[..i]) && hashes == HashesOf(olds[..i])
      invariant DistinctOlds(olds[..i])
    {
      assert olds[..i + 1] == olds[..i] + [olds[i]];
      DistinctSnoc(olds[..i], olds[i]);
      var record := ConvertOne(olds[i]);
      if record.None? {
        return None;
      }
      if olds[i].id in ids || olds[i].hash in hashes {
        return None;
      }
      ids, hashes := ids + {olds[i].id}, hashes + {olds[i].hash};
      result := result + [record.value];
      i := i + 1;
    }
    assert olds[..i] == olds;
    return Some(result);
  }

  /**
   A version 2 record carries over the old one: observing in place of any of the three
   diagnostic roles, and revoked where it was or where it has none of them.
   */
  ghost predicate Carried(was: OldToken, now: Token) {
    && now.id == was.id && now.name == was.name && now.expires == was.expires && now.hash == was.hash
    && now.legacy
    && if "health" in was.roles || "inspect" in was.roles || "diagnostics" in was.roles
       then now.roles == ["observe"] && (now.revoked <==> was.status == "revoked")
       else now.roles == [] && now.revoked
  }

  ghost predicate ConversionOf(olds: seq<OldToken>, records: seq<Token>) {
    |records| == |olds| && forall i :: 0 <= i < |olds| ==> records[i] == Converted(olds[i])
  }

  /** A list converts exactly when every record is complete and none repeats, and each record is carried over. */
  lemma {:induction false} ConversionExactly(olds: seq<OldToken>, records: seq<Token>)
    ensures Convertible(olds) <==>
              && (forall i :: 0 <= i < |olds| ==> Complete(olds[i]))
              && forall i, j :: 0 <= i < j < |olds| ==> olds[i].id != olds[j].id && olds[i].hash != olds[j].hash
    ensures Convertible(olds) && ConversionOf(olds, records) ==>
              |records| == |olds| && forall i :: 0 <= i < |olds| ==> Carried(olds[i], records[i])
  {
    forall i | 0 <= i < |olds|
      ensures OldValid(olds[i]) <==> Complete(olds[i])
      ensures OldValid(olds[i]) ==> Carried(olds[i], Converted(olds[i]))
    {
      HexByPosition(olds[i].hash);
    }
  }

  /** Every converted list is accepted by the version 2 reader, and no token gains a repair role. */
  lemma {:induction false} ConvertedListAccepted(olds: seq<OldToken>, records: seq<Token>)
    requires Convertible(olds) && ConversionOf(olds, records)
    ensures Accepted(records)
    ensures forall i, r :: 0 <= i < |records| && r in records[i].roles ==> r == "observe"
  {
    forall i | 0 <= i < |records|
      ensures RecordValid(records[i])
    {
      assert OldValid(olds[i]) && records[i] == Converted(olds[i]);
    }
  }

  /** What a version 1 secret was good for: its record is active, diagnostic and unexpired. */
  ghost predicate OldCredential(t: OldToken, secret: string, now: int, legacy: string -> string) {
    && t.hash == legacy(secret) && t.status == "active" && HasDiagnostic(t.roles)
    && (t.expires.Never? || now < t.expires.instant)
  }

  /** Over a converted list a secret opens exactly the records that were good for it. */
  lemma {:induction false} ConvertedSecretsVerifyExactly(
    olds: seq<OldToken>, records: seq<Token>, secret: string, now: int, modern: string -> string,
    legacy: string -> string)
    requires Convertible(olds) && ConversionOf(olds, records)
    ensures forall i :: 0 <= i < |olds| ==>
              (TokenStore.Store.Opens(records[i], secret, now, modern, legacy)
               <==> OldCredential(olds[i], secret, now, legacy))
  {
    forall i | 0 <= i < |olds|
      ensures TokenStore.Store.Opens(records[i], secret, now, modern, legacy)
              <==> OldCredential(olds[i], secret, now, legacy)
    {
      assert OldValid(olds[i]) && records[i] == Converted(olds[i]);
    }
  }

  /**
   A store holding a converted list within the size bound: verification succeeds
   exactly for the old credentials, and grants only the observe role.
   */
  method VerifyMigrated(
    store: TokenStore.Store, olds: seq<OldToken>, secret: string, now: int, modern: string -> string,
    legacy: string -> string, smooth: bool)
    returns (r: Option<Token>)
    requires store.file.Some? && Convertible(olds) && ConversionOf(olds, store.file.value)
    requires store.size(store.file.value) <= MAX_STORE_BYTES
    ensures r.Some? ==>
              exists i :: 0 <= i < |olds| && OldCredential(olds[i], secret, now, legacy)
                  && r.value.id == olds[i].id && r.value.roles == ["observe"]
    ensures r.None? && smooth && 32 <= |secret| <= 128 ==> forall i :: 0 <= i < |olds| ==>
              !OldCredential(olds[i], secret, now, legacy)
  {
    ConvertedListAccepted(olds, store.file.value);
    ConvertedSecretsVerifyExactly(olds, store.file.value, secret, now, modern, legacy);
    r := store.Verify(secret, now, modern, legacy, smooth);
    assert store.Records() == store.file.value && store.Readable();
    if r.Some? {
      ghost var i :| 0 <= i < |olds| && TokenStore.Store.Opens(store.file.value[i], secret, now, modern, legacy)
                     && r.value == store.file.value[i].(hash := "");
      assert OldCredential(olds[i], secret, now, legacy);
    }
  }
}
