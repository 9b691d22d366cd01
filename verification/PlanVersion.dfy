/**
 Where the release version ends in the plan byte stream
 (internal/lifecycle/manager_linux.go). A version is free text, even with colons; it is
 followed by a colon, the architecture and a 64-character fingerprint, and nothing the
 stream writes later can be mistaken for that mark.
 */
module PlanVersion {
  import opened Wrappers
  import opened PlanCodec

  const FINGERPRINT: nat := 64

  predicate Letter(c: char) {
    'a' <= c <= 'z'
  }

  predicate Word(c: char) {
    Letter(c) || IsDigit(c)
  }

  /** A Go architecture name, such as `amd64` or `arm64`. */
  ghost predicate IsArchitecture(a: string) {
    a != "" && Letter(a[0]) && Over(a, Word)
  }

  /** The text of a hex-encoded SHA-256 digest. */
  ghost predicate IsFingerprint(f: string) {
    |f| == FINGERPRINT && Over(f, Word)
  }

  /** What stands between the version and the body. */
  function Mark(architecture: string, fingerprint: string): string {
    ":" + (architecture + fingerprint)
  }

  /** The colon at `i` cannot start a mark: no letter follows, or the word behind it is too short. */
  ghost predicate Harmless(s: string, i: nat) {
    i + FINGERPRINT + 1 >= |s| || !Letter(s[i + 1]) || WordStops(s, i)
  }

  ghost predicate WordStops(s: string, i: nat) {
    exists j :: i < j <= i + FINGERPRINT + 1 && j < |s| && !Word(s[j])
  }

  ghost predicate Clear(s: string) {
    forall i :: 0 <= i < |s| && s[i] == ':' ==> Harmless(s, i)
  }

  // ----- pieces in front of a clear text -----

  lemma {:induction false} HarmlessBehind(p: string, x: string, i: nat)
    requires i < |x| && Harmless(x, i)
    ensures Harmless(p + x, |p| + i)
  {
    if WordStops(x, i) {
      var j :| i < j <= i + FINGERPRINT + 1 && j < |x| && !Word(x[j]);
      assert (p + x)[|p| + j] == x[j];
    }
  }

  lemma {:induction false} Prepend(p: string, x: string)
    requires Clear(x) && forall i :: 0 <= i < |p| && p[i] == ':' ==> Harmless(p + x, i)
    ensures Clear(p + x)
  {
    forall i | 0 <= i < |p + x| && (p + x)[i] == ':'
      ensures Harmless(p + x, i)
    {
      if i >= |p| {
        HarmlessBehind(p, x, i - |p|);
      }
    }
  }

  lemma {:induction false} PlainClear(p: string, x: string)
    requires ':' !in p && Clear(x)
    ensures Clear(p + x)
  {
    Prepend(p, x);
  }

  /** Every colon is directly followed by a digit. */
  ghost predicate DigitsBehind(v: string) {
    forall i :: 0 <= i < |v| && v[i] == ':' ==> i + 1 < |v| && IsDigit(v[i + 1])
  }

  lemma {:induction false} NumbersClear(v: string, x: string)
    requires DigitsBehind(v) && Clear(x)
    ensures Clear(v + x)
  {
    forall i | 0 <= i < |v| && v[i] == ':'
      ensures Harmless(v + x, i)
    {
      assert (v + x)[i + 1] == v[i + 1];
    }
    Prepend(v, x);
  }

  /** The stream ends, or a path or an active unit follows. */
  ghost predicate NearStop(x: string) {
    x == "" || x[0] == '/' || (|x| > 6 && x[6] == ':')
  }

  /** A raw digest may hold any byte, but a word through it stops soon behind it. */
  lemma {:induction false} DigestClear(d: string, x: string)
    requires |d| == SUM_BYTES && NearStop(x) && Clear(x)
    ensures Clear(d + x)
  {
    var s := d + x;
    forall i | 0 <= i < |d| && d[i] == ':'
      ensures Harmless(s, i)
    {
      assert x != "" && x[0] == '/' ==> !Word(s[|d|]);
      assert x != "" && x[0] != '/' ==> !Word(s[|d| + 6]);
      assert x != "" ==> WordStops(s, i);
    }
    Prepend(d, x);
  }

  // ----- the sections of the stream -----

  /** A short prefix that ends in a colon, and a value in which only digits follow colons. */
  ghost predicate FieldShape(prefix: string, value: Option<string>) {
    && prefix != "" && |prefix| <= FINGERPRINT && prefix[|prefix| - 1] == ':'
    && (value.Some? ==> value.value != "" && IsDigit(value.value[0]) && DigitsBehind(value.value))
  }

  lemma {:induction false} FieldClear(prefix: string, value: Option<string>, x: string)
    requires FieldShape(prefix, value) && Clear(x)
    ensures Clear(Field(prefix, value) + x)
  {
    if value.None? {
      assert Field(prefix, value) + x == x;
    } else {
      var s := prefix + (value.value + x);
      NumbersClear(value.value, x);
      forall i | 0 <= i < |prefix| && prefix[i] == ':'
        ensures Harmless(s, i)
      {
        var n := |prefix|;
        assert s[n - 1] == ':' && s[n] == value.value[0];
        assert i < n - 1 ==> WordStops(s, i);
      }
      Prepend(prefix, value.value + x);
      Append(prefix, value.value, x);
    }
  }

  ghost predicate FieldShapes(prefixes: seq<string>, values: seq<Option<string>>) {
    |prefixes| == |values| && forall i :: 0 <= i < |prefixes| ==> FieldShape(prefixes[i], values[i])
  }

  lemma {:induction false} FieldsClear(prefixes: seq<string>, values: seq<Option<string>>, x: string)
    requires FieldShapes(prefixes, values) && Clear(x)
    ensures Clear(Fields(prefixes, values) + x)
  {
    if prefixes == [] {
      assert Fields(prefixes, values) + x == x;
    } else {
      FieldsClear(prefixes[1..], values[1..], x);
      FieldClear(prefixes[0], values[0], Fields(prefixes[1..], values[1..]) + x);
      Append(Field(prefixes[0], values[0]), Fields(prefixes[1..], values[1..]), x);
    }
  }

  /** Two numbers joined by a colon. */
  lemma {:induction false} JoinedNumbers(a: string, b: string)
    requires DigitsBehind(a) && DigitsBehind(b) && b != "" && IsDigit(b[0])
    ensures DigitsBehind(a + ":" + b)
  {
    var s := a + ":" + b;
    forall i | 0 <= i < |s| && s[i] == ':'
      ensures i + 1 < |s| && IsDigit(s[i + 1])
    {
      assert i > |a| ==> b[i - |a| - 1] == ':';
    }
  }

  lemma {:induction false} MetaClear(m: Meta, x: string)
    requires Clear(x)
    ensures Clear(MetaText(m) + x)
  {
    JoinedNumbers(Decimal(m.uid), Decimal(m.gid));
    JoinedNumbers(Decimal(m.uid) + ":" + Decimal(m.gid), Decimal(m.perm));
    NumbersClear(MetaText(m), x);
  }

  lemma {:induction false} DirsClear(targets: seq<string>, dirs: seq<Option<Meta>>, x: string)
    requires |targets| == |dirs| && (forall i :: 0 <= i < |targets| ==> ':' !in targets[i]) && Clear(x)
    ensures Clear(Dirs(targets, dirs) + x)
  {
    if targets == [] {
      assert Dirs(targets, dirs) + x == x;
    } else {
      var rest := Dirs(targets[1..], dirs[1..]) + x;
      DirsClear(targets[1..], dirs[1..], x);
      if dirs[0].Some? {
        MetaClear(dirs[0].value, rest);
      } else {
        assert DirText(dirs[0]) + rest == rest;
      }
      PlainClear(targets[0], DirText(dirs[0]) + rest);
      Regroup(targets[0], DirText(dirs[0]), Dirs(targets[1..], dirs[1..]), x);
    }
  }

  lemma {:induction false} FileClear(target: string, digest: Option<string>, x: string)
    requires ':' !in target && (digest.Some? ==> |digest.value| == SUM_BYTES) && NearStop(x) && Clear(x)
    ensures Clear(FileText(target, digest) + x)
  {
    if digest.None? {
      assert FileText(target, digest) + x == x;
    } else {
      DigestClear(digest.value, x);
      PlainClear(target + "\0", digest.value + x);
      Append(target + "\0", digest.value, x);
    }
  }

  lemma {:induction false} FilesClear(targets: seq<string>, digests: seq<Option<string>>, x: string)
    requires |targets| == |digests| && GoodDigests(digests) && NearStop(x) && Clear(x)
    requires forall i :: 0 <= i < |targets| ==> StartsWithSlash(targets[i]) && ':' !in targets[i]
    ensures Clear(Files(targets, digests) + x) && NearStop(Files(targets, digests) + x)
  {
    if targets == [] {
      assert Files(targets, digests) + x == x;
    } else {
      var t, rest := targets[0], Files(targets[1..], digests[1..]) + x;
      FilesClear(targets[1..], digests[1..], x);
      FileClear(t, digests[0], rest);
      PlainClear(t, FileText(t, digests[0]) + rest);
      Regroup(t, FileText(t, digests[0]), Files(targets[1..], digests[1..]), x);
      assert (Files(targets, digests) + x)[0] == t[0];
    }
  }

  /** A unit name with a hyphen close to its start. */
  predicate UnitShape(u: string) {
    |u| > 8 && u[8] == '-' && ':' !in u
  }

  lemma {:induction false} ActiveClear(u: string, x: string)
    requires UnitShape(u) && Clear(x)
    ensures Clear("active:" + u + x)
  {
    var s := "active:" + (u + x);
    PlainClear(u, x);
    assert s[15] == u[8];
    assert forall i :: 0 <= i < 6 ==> "active:"[i] != ':';
    assert WordStops(s, 6);
    Prepend("active:", u + x);
    Append("active:", u, x);
  }

  lemma {:induction false} ActivesClear(units: seq<string>)
    requires forall u :: u in units ==> UnitShape(u)
    ensures Clear(Actives(units)) && NearStop(Actives(units))
  {
    if units != [] {
      ActivesClear(units[1..]);
      ActiveClear(units[0], Actives(units[1..]));
      assert Actives(units)[6] == "active:"[6];
    }
  }

  // ----- the end of the version -----

  lemma {:induction false} NoMarkInBody(x: string, k: nat, arch: string, g: string)
    requires Clear(x) && k <= |x| && IsArchitecture(arch) && IsFingerprint(g)
    ensures !(Mark(arch, g) <= x[k..])
  {
    var m := Mark(arch, g);
    if k + |m| <= |x| && x[k] == ':' {
      assert Harmless(x, k);
      if !Letter(x[k + 1]) {
        NotPrefixAt(m, x[k..], 1);
      } else {
        var j :| k < j <= k + FINGERPRINT + 1 && j < |x| && !Word(x[j]);
        assert m[j - k] == (arch + g)[j - k - 1];
        NotPrefixAt(m, x[k..], j - k);
      }
    } else {
      assert k < |x| ==> x[k..][0] == x[k];
    }
  }

  /** Behind a mark and its body no second mark can stand. */
  lemma {:induction false} OneMark(arch: string, f: string, g: string, x: string, k: nat)
    requires IsArchitecture(arch) && IsFingerprint(f) && IsFingerprint(g) && Clear(x)
    requires 0 < k <= |Mark(arch, f) + x|
    ensures !(Mark(arch, g) <= (Mark(arch, f) + x)[k..])
  {
    var front := Mark(arch, f);
    var s := front + x;
    if k < |front| {
      assert s[k..][0] == (arch + f)[k - 1];
      NotPrefixAt(Mark(arch, g), s[k..], 0);
    } else {
      assert s[k..] == x[k - |front|..];
      NoMarkInBody(x, k - |front|, arch, g);
    }
  }

  lemma {:induction false} VersionNotLonger(
    v: string, w: string, arch: string, f: string, g: string, x: string, y: string)
    requires IsArchitecture(arch) && IsFingerprint(f) && IsFingerprint(g) && Clear(x)
    requires v + (Mark(arch, f) + x) == w + (Mark(arch, g) + y)
    ensures |w| <= |v|
  {
    var s, k := Mark(arch, f) + x, |w| - |v|;
    assert s == (w + (Mark(arch, g) + y))[|v|..];
    assert k > 0 ==> s[k..] == Mark(arch, g) + y;
    if k > 0 {
      OneMark(arch, f, g, x, k);
      assert false;
    }
  }

  /** Two streams that agree behind action and flag carry the same version, fingerprint and body. */
  lemma {:induction false} VersionUnique(v: string, w: string, arch: string, f: string, g: string, x: string, y: string)
    requires IsArchitecture(arch) && IsFingerprint(f) && IsFingerprint(g) && Clear(x) && Clear(y)
    requires v + (Mark(arch, f) + x) == w + (Mark(arch, g) + y)
    ensures v == w && f == g && x == y
  {
    VersionNotLonger(v, w, arch, f, g, x, y);
    VersionNotLonger(w, v, arch, g, f, y, x);
    SameLength(v, w, Mark(arch, f) + x, Mark(arch, g) + y);
    SameLength(Mark(arch, f), Mark(arch, g), x, y);
    SameLength(":", ":", arch + f, arch + g);
    SameLength(arch, arch, f, g);
  }
}
