/**
 The plan digest (internal/lifecycle/manager_linux.go): `Preview` hashes a
 hand-built byte stream, and `Apply` proceeds only when a fresh preview hashes to
 the digest the administrator confirmed. Text is modelled byte by byte as `char`.
 `sum` is the 32-byte content digest, `fingerprint` the 64-character hex digest of
 the release entries and `digest` the hash of the whole stream.
 */
module PlanDigest {
  import opened Wrappers
  import opened PlanCodec
  import opened PlanVersion
  import opened Text
  import Policy

  const IDENTITIES: seq<string> := [
    "group:hostlens-shared:", "group:hostlens-tokens:", "user:hostlens-gateway:", "user:hostlens-observer:"]
  const DIRECTORIES: seq<string> := ["/etc/hostlens", "/etc/hostlens/profiles", "/etc/hostlens/secrets"]
  const UNITS: seq<string> := ["hostlens-gateway.service", "hostlens-observer.service", "hostlens-repair.service"]
  const BINARY := "/usr/local/bin/hostlens"
  const CONFIG := "/etc/hostlens/config.yaml"
  const PROVENANCE := "/etc/hostlens/unit-provenance.json"
  const PROFILE_DIR := "/etc/hostlens/profiles/"
  const GATEWAY_UNIT := "/etc/systemd/system/hostlens-gateway.service"
  const OBSERVER_UNIT := "/etc/systemd/system/hostlens-observer.service"
  const REPAIR_UNIT := "/etc/systemd/system/hostlens-repair.service"
  const GATEWAY := "hostlens-gateway.service"

  datatype Release = Release(version: string, architecture: string, checksums: map<string, string>)

  /** A user's ids as the account database prints them. */
  datatype User = User(uid: string, gid: string)

  /** What a preview sees of the installation target. */
  datatype Target = Target(
    groups: seq<Option<string>>, users: seq<Option<User>>, dirs: seq<Option<Meta>>, files: map<string, string>,
    active: seq<string>)

  predicate ValidProfileFile(name: string) {
    |name| > 5 && name[|name| - 5..] == ".yaml" && Policy.ValidProfileName(name[..|name| - 5])
  }

  /** The release's profile files in sorted order (`releaseProfiles`). */
  ghost predicate ProfilesOf(r: Release, profiles: seq<string>) {
    && Ascending(profiles)
    && (forall n :: n in profiles <==> "profiles/" + n in r.checksums)
    && (forall n :: n in profiles ==> ValidProfileFile(n))
  }

  function ProfilePaths(profiles: seq<string>): seq<string> {
    if profiles == [] then [] else [PROFILE_DIR + profiles[0]] + ProfilePaths(profiles[1..])
  }

  function UnitPaths(): seq<string> {
    [GATEWAY_UNIT, OBSERVER_UNIT, REPAIR_UNIT]
  }

  /** The files a plan inspects, in order. */
  function Paths(profiles: seq<string>): seq<string> {
    [BINARY, CONFIG] + ProfilePaths(profiles) + UnitPaths() + [PROVENANCE]
  }

  function Digests(paths: seq<string>, files: map<string, string>, sum: string -> string): (d: seq<Option<string>>)
    ensures |d| == |paths|
  {
    if paths == [] then []
    else [DigestOf(paths[0], files, sum)] + Digests(paths[1..], files, sum)
  }

  function DigestOf(path: string, files: map<string, string>, sum: string -> string): Option<string> {
    if path in files then Some(sum(files[path])) else None
  }

  function IdentityTexts(t: Target): seq<Option<string>>
    requires |t.groups| == |t.users| == 2
  {
    [t.groups[0], t.groups[1], UserText(t.users[0]), UserText(t.users[1])]
  }

  function UserText(u: Option<User>): Option<string> {
    if u.Some? then Some(u.value.uid + ":" + u.value.gid) else None
  }

  function Head(action: string, start: bool, r: Release): string {
    action + ":" + Flag(start) + (r.version + ":" + r.architecture)
  }

  /** The units the plan will start. */
  function StartList(action: string, start: bool, t: Target): seq<string> {
    (if action == "upgrade" then t.active else []) + (if start && action == "install" then [GATEWAY] else [])
  }

  function Body(t: Target, profiles: seq<string>, starts: seq<string>, sum: string -> string): string
    requires |t.groups| == |t.users| == 2 && |t.dirs| == 3
  {
    Fields(IDENTITIES, IdentityTexts(t))
      + (Dirs(DIRECTORIES, t.dirs) + (Files(Paths(profiles), Digests(Paths(profiles), t.files, sum)) + Actives(starts)))
  }

  /** The pre-hash byte stream of `Preview`. */
  function Stream(
    action: string, start: bool, r: Release, fingerprint: string, t: Target, profiles: seq<string>,
    sum: string -> string): string
    requires |t.groups| == |t.users| == 2 && |t.dirs| == 3
  {
    Head(action, start, r) + (fingerprint + Body(t, profiles, StartList(action, start, t), sum))
  }

  // ----- the loops that build the stream -----

  /** The loop of `releaseFingerprint` over the sorted member names. */
  method ReleaseText(checksums: map<string, string>) returns (keys: seq<string>, text: string)
    ensures Ascending(keys) && Enumerates(keys, checksums.Keys) && text == Entries(keys, checksums)
  {
    keys := SortNames(checksums.Keys);
    text := "";
    var i := 0;
    while i < |keys|
      invariant 0 <= i <= |keys|
      invariant text + Entries(keys[i..], checksums) == Entries(keys, checksums)
    {
      assert keys[i..][1..] == keys[i + 1..];
      var k := keys[i];
      assert k in keys;
      Append(text, Entry(k, checksums[k]), Entries(keys[i + 1..], checksums));
      text := text + Entry(k, checksums[k]);
      i := i + 1;
    }
  }

  method HashFields(prefixes: seq<string>, values: seq<Option<string>>, state: string) returns (next: string)
    requires |prefixes| == |values|
    ensures next == state + Fields(prefixes, values)
  {
    next := state;
    var i := 0;
    while i < |prefixes|
      invariant 0 <= i <= |prefixes|
      invariant next + Fields(prefixes[i..], values[i..]) == state + Fields(prefixes, values)
    {
      assert prefixes[i..][1..] == prefixes[i + 1..] && values[i..][1..] == values[i + 1..];
      Append(next, Field(prefixes[i], values[i]), Fields(prefixes[i + 1..], values[i + 1..]));
      next := next + if values[i].Some? then prefixes[i] + values[i].value else "";
      i := i + 1;
    }
  }

  method HashDirs(targets: seq<string>, dirs: seq<Option<Meta>>, state: string) returns (next: string)
    requires |targets| == |dirs|
    ensures next == state + Dirs(targets, dirs)
  {
    next := state;
    var i := 0;
    while i < |targets|
      invariant 0 <= i <= |targets|
      invariant next + Dirs(targets[i..], dirs[i..]) == state + Dirs(targets, dirs)
    {
      assert targets[i..][1..] == targets[i + 1..] && dirs[i..][1..] == dirs[i + 1..];
      Append(next, targets[i] + DirText(dirs[i]), Dirs(targets[i + 1..], dirs[i + 1..]));
      Append(next, targets[i], DirText(dirs[i]));
      next := next + targets[i];
      next := next + if dirs[i].Some? then MetaText(dirs[i].value) else "";
      i := i + 1;
    }
  }

  method HashFiles(targets: seq<string>, files: map<string, string>, sum: string -> string, state: string)
    returns (next: string)
    ensures next == state + Files(targets, Digests(targets, files, sum))
  {
    next := state;
    var i := 0;
    while i < |targets|
      invariant 0 <= i <= |targets|
      invariant next + Files(targets[i..], Digests(targets[i..], files, sum))
                == state + Files(targets, Digests(targets, files, sum))
    {
      assert targets[i..][0] == targets[i] && targets[i..][1..] == targets[i + 1..];
      ghost var here := Digests(targets[i..], files, sum);
      assert here[1..] == Digests(targets[i + 1..], files, sum);
      Append(next, targets[i] + FileText(targets[i], here[0]), Files(targets[i + 1..], here[1..]));
      Append(next, targets[i], FileText(targets[i], here[0]));
      next := next + targets[i];
      next := next + if targets[i] in files then targets[i] + "\0" + sum(files[targets[i]]) else "";
      i := i + 1;
    }
  }

  method HashActive(units: seq<string>, state: string) returns (next: string)
    ensures next == state + Actives(units)
  {
    next := state;
    var i := 0;
    while i < |units|
      invariant 0 <= i <= |units|
      invariant next + Actives(units[i..]) == state + Actives(units)
    {
      assert units[i..][1..] == units[i + 1..];
      Append(next, "active:" + units[i], Actives(units[i + 1..]));
      next := next + ("active:" + units[i]);
      i := i + 1;
    }
  }

  /** The writes `Preview` makes to its running hash, in order. */
  method PreviewStream(
    action: string, start: bool, r: Release, fingerprint: string, t: Target, profiles: seq<string>,
    sum: string -> string)
    returns (stream: string)
    requires |t.groups| == |t.users| == 2 && |t.dirs| == 3
    ensures stream == Stream(action, start, r, fingerprint, t, profiles, sum)
  {
    stream := action + ":" + Flag(start);
    stream := stream + (r.version + ":" + r.architecture);
    stream := stream + fingerprint;
    ghost var front := stream;
    stream := HashFields(IDENTITIES, IdentityTexts(t), stream);
    stream := HashDirs(DIRECTORIES, t.dirs, stream);
    stream := HashFiles(Paths(profiles), t.files, sum, stream);
    stream := HashActive(StartList(action, start, t), stream);
    ghost var f, d := Fields(IDENTITIES, IdentityTexts(t)), Dirs(DIRECTORIES, t.dirs);
    ghost var s := Files(Paths(profiles), Digests(Paths(profiles), t.files, sum));
    ghost var a := Actives(StartList(action, start, t));
    Append(front + f + d, s, a);
    Append(front + f, d, s + a);
    Append(front, f, d + (s + a));
    Append(Head(action, start, r), fingerprint, f + (d + (s + a)));
  }

  // ----- unique readability -----

  /** Ids are decimal text, active units are ours, and digests have their sizes. */
  ghost predicate WellFormed(t: Target) {
    && |t.groups| == |t.users| == 2 && |t.dirs| == 3
    && (forall i :: 0 <= i < 2 && t.groups[i].Some? ==> Digits(t.groups[i].value))
    && (forall i :: 0 <= i < 2 && t.users[i].Some? ==> Digits(t.users[i].value.uid) && Digits(t.users[i].value.gid))
    && (forall u :: u in t.active ==> u in UNITS)
  }

  predicate ValidAction(action: string) {
    action == "install" || action == "upgrade"
  }

  lemma {:induction false} IdentitiesReadable()
    ensures GoodPrefixes(IDENTITIES)
  {
    assert IDENTITIES[0][15] == 's' && IDENTITIES[1][15] == 't' && IDENTITIES[2][14] == 'g' && IDENTITIES[3][14] == 'o';
    assert IDENTITIES[0][0] == 'g' && IDENTITIES[1][0] == 'g' && IDENTITIES[2][0] == 'u' && IDENTITIES[3][0] == 'u';
    assert Clash(IDENTITIES[0], IDENTITIES[1]) && Clash(IDENTITIES[2], IDENTITIES[3]);
  }

  lemma {:induction false} UnitsReadable()
    ensures forall i, j :: 0 <= i < j < |UNITS| ==> Clash(UNITS[i], UNITS[j])
  {
    assert UNITS[0][9] == 'g' && UNITS[1][9] == 'o' && UNITS[2][9] == 'r';
    assert Clash(UNITS[0], UNITS[1]) && Clash(UNITS[0], UNITS[2]) && Clash(UNITS[1], UNITS[2]);
  }

  lemma {:induction false} ProfilePathAt(profiles: seq<string>, i: nat)
    requires i < |profiles|
    ensures |ProfilePaths(profiles)| == |profiles| && ProfilePaths(profiles)[i] == PROFILE_DIR + profiles[i]
  {
    if |profiles| > 1 {
      ProfilePathAt(profiles[1..], if i > 0 then i - 1 else 0);
    }
  }

  /** Valid profile file names are prefix-free. */
  lemma {:induction false} ProfileNamesPrefixFree(a: string, b: string)
    requires ValidProfileFile(a) && ValidProfileFile(b) && a <= b
    ensures a == b
  {
    var n, m := |a| - 5, |b| - 5;
    assert a[n] == a[n..][0] && b[m] == b[m..][0];
    assert forall i :: 0 <= i < m ==> b[..m][i] == b[i] && b[i] in b[..m];
    assert b[n] == '.';
    assert forall i :: m < i < |b| ==> b[i] == b[m..][i - m];
    assert n == m;
  }

  lemma {:induction false} ProfilePathsPrefixFree(a: string, b: string)
    requires ValidProfileFile(a) && ValidProfileFile(b) && a != b
    ensures !(PROFILE_DIR + a <= PROFILE_DIR + b)
  {
    if PROFILE_DIR + a <= PROFILE_DIR + b {
      forall i | 0 <= i < |a|
        ensures i < |b| && a[i] == b[i]
      {
        assert (PROFILE_DIR + a)[|PROFILE_DIR| + i] == (PROFILE_DIR + b)[|PROFILE_DIR| + i];
      }
      ProfileNamesPrefixFree(a, b);
    }
  }

  lemma {:induction false} ProfilePathText(name: string)
    requires ValidProfileFile(name)
    ensures StartsWithSlash(PROFILE_DIR + name) && '\0' !in PROFILE_DIR + name
    ensures (PROFILE_DIR + name)[5] == 'h' && (PROFILE_DIR + name)[14] == 'p'
  {
    var n := |name| - 5;
    assert name == name[..n] + name[n..];
    assert '\0' !in name[..n] && '\0' !in ".yaml";
  }

  lemma {:induction false} ProfilePathsReadable(profiles: seq<string>)
    requires Ascending(profiles) && forall n :: n in profiles ==> ValidProfileFile(n)
    ensures GoodTargets(ProfilePaths(profiles)) && |ProfilePaths(profiles)| == |profiles|
    ensures forall p :: p in ProfilePaths(profiles) ==> |p| > 14 && p[5] == 'h' && p[14] == 'p'
  {
    var paths := ProfilePaths(profiles);
    if profiles != [] {
      ProfilePathAt(profiles, 0);
    }
    forall i | 0 <= i < |paths|
      ensures paths[i] == PROFILE_DIR + profiles[i] && StartsWithSlash(paths[i]) && '\0' !in paths[i]
              && paths[i][5] == 'h' && paths[i][14] == 'p'
    {
      ProfilePathAt(profiles, i);
      ProfilePathText(profiles[i]);
    }
    forall i | 0 < i < |paths|
      ensures !(paths[i] <= paths[i - 1])
    {
      ProfilePathAt(profiles, i);
      ProfilePathAt(profiles, i - 1);
      LessTotal(profiles[i - 1], profiles[i]);
      ProfilePathsPrefixFree(profiles[i], profiles[i - 1]);
    }
  }

  lemma {:induction false} OneReadable(p: string)
    requires StartsWithSlash(p) && '\0' !in p
    ensures GoodTargets([p])
  {
  }

  lemma {:induction false} HeadReadable()
    ensures GoodTargets([BINARY, CONFIG]) && InEtcHostlens(CONFIG)
  {
    OneReadable(BINARY);
    OneReadable(CONFIG);
    NotPrefixAt(CONFIG, BINARY, 1);
    GoodConcat([BINARY], [CONFIG]);
    assert [BINARY] + [CONFIG] == [BINARY, CONFIG];
  }

  lemma {:induction false} UnitPathsReadable()
    ensures GoodTargets(UnitPaths())
  {
    OneReadable(GATEWAY_UNIT);
    OneReadable(OBSERVER_UNIT);
    OneReadable(REPAIR_UNIT);
    NotPrefixAt(OBSERVER_UNIT, GATEWAY_UNIT, 29);
    NotPrefixAt(REPAIR_UNIT, OBSERVER_UNIT, 29);
    GoodConcat([GATEWAY_UNIT], [OBSERVER_UNIT]);
    GoodConcat([GATEWAY_UNIT] + [OBSERVER_UNIT], [REPAIR_UNIT]);
    assert [GATEWAY_UNIT] + [OBSERVER_UNIT] + [REPAIR_UNIT] == UnitPaths();
  }

  lemma {:induction false} TailReadable()
    ensures GoodTargets(UnitPaths() + [PROVENANCE])
  {
    UnitPathsReadable();
    OneReadable(PROVENANCE);
    NotPrefixAt(PROVENANCE, REPAIR_UNIT, 5);
    GoodConcat(UnitPaths(), [PROVENANCE]);
  }

  lemma {:induction false} ProfileNotConfig(p: string)
    requires |p| > 14 && p[14] == 'p'
    ensures !(p <= CONFIG)
  {
    NotPrefixAt(p, CONFIG, 14);
  }

  lemma {:induction false} JoinReadable(head: seq<string>, mid: seq<string>)
    requires GoodTargets(head) && GoodTargets(mid) && head != [] && InEtcHostlens(Last(head))
    requires mid != [] ==> InEtcHostlens(Last(mid)) && !(mid[0] <= Last(head))
    ensures GoodTargets(head + mid) && InEtcHostlens(Last(head + mid))
  {
    GoodConcat(head, mid);
    assert Last(head + mid) == if mid == [] then Last(head) else Last(mid);
  }

  lemma {:induction false} FrontReadable(profiles: seq<string>)
    requires Ascending(profiles) && forall n :: n in profiles ==> ValidProfileFile(n)
    ensures GoodTargets([BINARY, CONFIG] + ProfilePaths(profiles))
    ensures InEtcHostlens(Last([BINARY, CONFIG] + ProfilePaths(profiles)))
  {
    var mid := ProfilePaths(profiles);
    ProfilePathsReadable(profiles);
    if mid != [] {
      assert mid[0] in mid && Last(mid) in mid;
      ProfileNotConfig(mid[0]);
    }
    HeadReadable();
    JoinReadable([BINARY, CONFIG], mid);
  }

  function Last(paths: seq<string>): string
    requires paths != []
  {
    paths[|paths| - 1]
  }

  predicate InEtcHostlens(p: string) {
    |p| > 5 && p[5] == 'h'
  }

  /** The plan's file list is safe to concatenate: no entry starts its predecessor. */
  lemma {:induction false} PathsReadable(profiles: seq<string>)
    requires Ascending(profiles) && forall n :: n in profiles ==> ValidProfileFile(n)
    ensures GoodTargets(Paths(profiles))
  {
    var front, tail := [BINARY, CONFIG] + ProfilePaths(profiles), UnitPaths() + [PROVENANCE];
    FrontReadable(profiles);
    TailReadable();
    assert tail[0] == GATEWAY_UNIT && GATEWAY_UNIT[5] == 's';
    NotPrefixAt(tail[0], front[|front| - 1], 5);
    GoodConcat(front, tail);
    assert Paths(profiles) == front + tail;
  }

  lemma {:induction false} DigestsSized(paths: seq<string>, files: map<string, string>, sum: string -> string)
    requires forall x :: |sum(x)| == SUM_BYTES
    ensures GoodDigests(Digests(paths, files, sum))
  {
    if paths != [] {
      DigestsSized(paths[1..], files, sum);
    }
  }

  lemma {:induction false} DigestAt(paths: seq<string>, files: map<string, string>, sum: string -> string, i: nat)
    requires i < |paths|
    ensures Digests(paths, files, sum)[i] == DigestOf(paths[i], files, sum)
  {
    if i > 0 {
      DigestAt(paths[1..], files, sum, i - 1);
    }
  }

  lemma {:induction false} HeadUnique(
    a: string, s: bool, b: string, t: bool, r: Release, q: Release, x: string, y: string)
    requires ValidAction(a) && ValidAction(b)
    requires Head(a, s, r) + x == Head(b, t, q) + y
    ensures a == b && s == t
    ensures r.version + ":" + r.architecture + x == q.version + ":" + q.architecture + y
  {
    var flagA, flagB, v, w := Flag(s), Flag(t), r.version + ":" + r.architecture, q.version + ":" + q.architecture;
    HeadSplit(a, s, r, x);
    HeadSplit(b, t, q, y);
    SameLength(a, b, ":" + (flagA + (v + x)), ":" + (flagB + (w + y)));
    SameLength(":", ":", flagA + (v + x), flagB + (w + y));
    assert (flagA + (v + x))[0] == flagA[0] && (flagB + (w + y))[0] == flagB[0];
    SameLength(flagA, flagB, v + x, w + y);
  }

  lemma {:induction false} MarkSplit(v: string, arch: string, f: string, x: string)
    ensures v + ":" + arch + (f + x) == v + (Mark(arch, f) + x)
  {
    Append(v + ":" + arch, f, x);
    Append(":", arch, f);
    assert v + ":" + arch + f == v + (":" + arch + f);
    Append(v, Mark(arch, f), x);
  }

  lemma {:induction false} IdentityShapes(t: Target)
    requires WellFormed(t)
    ensures FieldShapes(IDENTITIES, IdentityTexts(t))
  {
    var v := IdentityTexts(t);
    forall i | 0 <= i < 4
      ensures FieldShape(IDENTITIES[i], v[i])
    {
      assert IDENTITIES[0][21] == ':' && IDENTITIES[1][21] == ':' && IDENTITIES[2][21] == ':'
             && IDENTITIES[3][22] == ':';
      if i >= 2 && t.users[i - 2].Some? {
        JoinedNumbers(t.users[i - 2].value.uid, t.users[i - 2].value.gid);
      }
    }
  }

  ghost predicate ColonFree(paths: seq<string>) {
    forall i :: 0 <= i < |paths| ==> ':' !in paths[i]
  }

  lemma {:induction false} ProfilesColonFree(profiles: seq<string>)
    requires forall n :: n in profiles ==> ValidProfileFile(n)
    ensures ColonFree(ProfilePaths(profiles))
  {
    if profiles != [] {
      assert profiles[0] in profiles;
      ProfileColonFree(profiles[0]);
      ProfilesColonFree(profiles[1..]);
    }
  }

  lemma {:induction false} ProfileColonFree(name: string)
    requires ValidProfileFile(name)
    ensures ':' !in PROFILE_DIR + name
  {
    var n := |name| - 5;
    assert name == name[..n] + name[n..];
    assert ':' !in name[..n] && ':' !in ".yaml" && ':' !in PROFILE_DIR;
  }

  lemma {:induction false} UnitNamesColonFree()
    ensures forall u :: u in UNITS ==> ':' !in u
  {
    assert ':' !in UNITS[0] && ':' !in UNITS[1] && ':' !in UNITS[2];
  }

  lemma {:induction false} PathsColonFree(profiles: seq<string>)
    requires forall n :: n in profiles ==> ValidProfileFile(n)
    ensures ColonFree(Paths(profiles))
  {
    assert ColonFree([BINARY, CONFIG]) by { assert ':' !in BINARY && ':' !in CONFIG; }
    assert ColonFree([PROVENANCE]) by { assert ':' !in PROVENANCE; }
    ProfilesColonFree(profiles);
  }

  lemma {:induction false} BodyClear(t: Target, profiles: seq<string>, starts: seq<string>, sum: string -> string)
    requires WellFormed(t) && (forall x :: |sum(x)| == SUM_BYTES)
    requires Ascending(profiles) && (forall n :: n in profiles ==> ValidProfileFile(n))
    requires forall x :: x in starts ==> x in UNITS
    ensures Clear(Body(t, profiles, starts, sum))
  {
    var paths := Paths(profiles);
    var digests := Digests(paths, t.files, sum);
    UnitNamesColonFree();
    forall u | u in starts
      ensures UnitShape(u)
    {
      assert UNITS[0][8] == '-' && UNITS[1][8] == '-' && UNITS[2][8] == '-';
    }
    ActivesClear(starts);
    PathsReadable(profiles);
    PathsColonFree(profiles);
    DigestsSized(paths, t.files, sum);
    FilesClear(paths, digests, Actives(starts));
    assert ':' !in DIRECTORIES[0] && ':' !in DIRECTORIES[1] && ':' !in DIRECTORIES[2];
    DirsClear(DIRECTORIES, t.dirs, Files(paths, digests) + Actives(starts));
    IdentityShapes(t);
    FieldsClear(IDENTITIES, IdentityTexts(t), Dirs(DIRECTORIES, t.dirs) + (Files(paths, digests) + Actives(starts)));
  }

  function Flag(start: bool): string {
    if start then "true" else "false"
  }

  lemma {:induction false} HeadSplit(a: string, s: bool, r: Release, x: string)
    ensures Head(a, s, r) + x == a + (":" + (Flag(s) + ((r.version + ":" + r.architecture) + x)))
  {
    var v := r.version + ":" + r.architecture;
    Append(a + ":", Flag(s), v);
    Regroup(a + ":", Flag(s), v, x);
    Append(a, ":", Flag(s) + (v + x));
  }

  lemma {:induction false} IdentityUnique(t: Target, u: Target)
    requires WellFormed(t) && WellFormed(u) && IdentityTexts(t) == IdentityTexts(u)
    ensures t.groups == u.groups && t.users == u.users
  {
    forall i | 0 <= i < 2
      ensures t.groups[i] == u.groups[i] && t.users[i] == u.users[i]
    {
      assert IdentityTexts(t)[i] == IdentityTexts(u)[i] && IdentityTexts(t)[i + 2] == IdentityTexts(u)[i + 2];
      assert UserText(t.users[i]) == UserText(u.users[i]);
      if t.users[i].Some? {
        var m, n := t.users[i].value, u.users[i].value;
        assert m.uid + ":" + m.gid == m.uid + (":" + m.gid) && n.uid + ":" + n.gid == n.uid + (":" + n.gid);
        RunUnique(m.uid, n.uid, ":" + m.gid, ":" + n.gid, IsDigit);
        SameLength(":", ":", m.gid, n.gid);
      }
    }
  }

  lemma {:induction false} IdentityValues(t: Target)
    requires WellFormed(t)
    ensures GoodValues(IdentityTexts(t))
  {
    var v := IdentityTexts(t);
    forall i | 0 <= i < |v| && v[i].Some?
      ensures Over(v[i].value, IDChar)
    {
      if i >= 2 {
        var u := t.users[i - 2].value;
        assert v[i].value == u.uid + ":" + u.gid;
      }
    }
  }

  /** Two targets look the same to a preview that inspects `paths`. */
  ghost predicate SameView(t: Target, u: Target, paths: seq<string>, sum: string -> string) {
    && t.groups == u.groups && t.users == u.users && t.dirs == u.dirs
    && forall p :: p in paths ==>
         (p in t.files <==> p in u.files) && (p in t.files ==> sum(t.files[p]) == sum(u.files[p]))
  }

  lemma {:induction false} BodyUnique(
    t: Target, u: Target, profiles: seq<string>, a: seq<string>, b: seq<string>, sum: string -> string)
    requires WellFormed(t) && WellFormed(u) && (forall x :: |sum(x)| == SUM_BYTES)
    requires Ascending(profiles) && (forall n :: n in profiles ==> ValidProfileFile(n))
    requires (forall x :: x in a ==> x in UNITS) && (forall x :: x in b ==> x in UNITS)
    requires Body(t, profiles, a, sum) == Body(u, profiles, b, sum)
    ensures SameView(t, u, Paths(profiles), sum) && a == b
  {
    var paths := Paths(profiles);
    var dt, du := Digests(paths, t.files, sum), Digests(paths, u.files, sum);
    var ft, fu := Files(paths, dt) + Actives(a), Files(paths, du) + Actives(b);
    assert ft[0] == paths[0][0] && fu[0] == paths[0][0];
    assert forall i :: 0 <= i < 3 ==> StartsWithSlash(DIRECTORIES[i]);
    IdentitiesReadable();
    IdentityValues(t);
    IdentityValues(u);
    var gt, gu := Dirs(DIRECTORIES, t.dirs) + ft, Dirs(DIRECTORIES, u.dirs) + fu;
    FieldsUnique(IDENTITIES, IdentityTexts(t), IdentityTexts(u), gt, gu);
    IdentityUnique(t, u);
    DirsUnique(DIRECTORIES, t.dirs, u.dirs, ft, fu);
    FilesAndActivesUnique(t, u, profiles, a, b, sum);
  }

  lemma {:induction false} FilesAndActivesUnique(
    t: Target, u: Target, profiles: seq<string>, a: seq<string>, b: seq<string>, sum: string -> string)
    requires forall x :: |sum(x)| == SUM_BYTES
    requires Ascending(profiles) && (forall n :: n in profiles ==> ValidProfileFile(n))
    requires (forall x :: x in a ==> x in UNITS) && (forall x :: x in b ==> x in UNITS)
    requires Files(Paths(profiles), Digests(Paths(profiles), t.files, sum)) + Actives(a)
          == Files(Paths(profiles), Digests(Paths(profiles), u.files, sum)) + Actives(b)
    ensures a == b
    ensures forall p :: p in Paths(profiles) ==>
              (p in t.files <==> p in u.files) && (p in t.files ==> sum(t.files[p]) == sum(u.files[p]))
  {
    var paths := Paths(profiles);
    PathsReadable(profiles);
    DigestsSized(paths, t.files, sum);
    DigestsSized(paths, u.files, sum);
    assert NoSlash(Actives(a)) && NoSlash(Actives(b));
    FilesUnique(paths, Digests(paths, t.files, sum), Digests(paths, u.files, sum), Actives(a), Actives(b));
    UnitsReadable();
    ActivesUnique(UNITS, a, b);
    forall p | p in paths
      ensures (p in t.files <==> p in u.files) && (p in t.files ==> sum(t.files[p]) == sum(u.files[p]))
    {
      var i :| 0 <= i < |paths| && paths[i] == p;
      DigestAt(paths, t.files, sum, i);
      DigestAt(paths, u.files, sum, i);
    }
  }

  /** The release entries determine the checksum map, and with it the sorted profile list. */
  lemma {:induction false} ReleaseUnique(
    r: Release, q: Release, jr: seq<string>, jq: seq<string>, pr: seq<string>, pq: seq<string>)
    requires NulFree(jr, r.checksums) && NulFree(jq, q.checksums)
    requires Enumerates(jr, r.checksums.Keys) && Enumerates(jq, q.checksums.Keys)
    requires ProfilesOf(r, pr) && ProfilesOf(q, pq)
    requires Entries(jr, r.checksums) == Entries(jq, q.checksums)
    ensures r.checksums == q.checksums && pr == pq
  {
    EntriesUnique(jr, r.checksums, jq, q.checksums);
    assert forall n :: n in r.checksums <==> n in q.checksums by {
      assert forall n :: n in r.checksums <==> n in jr;
      assert forall n :: n in q.checksums <==> n in jq;
    }
    assert r.checksums == q.checksums;
    AscendingUnique(pr, pq);
  }

  /** One preview: what it read and the text whose hash is its release fingerprint. */
  datatype Preview = Preview(
    action: string, start: bool, release: Release, keys: seq<string>, profiles: seq<string>, target: Target)

  ghost predicate ValidPreview(p: Preview) {
    && ValidAction(p.action) && WellFormed(p.target) && ProfilesOf(p.release, p.profiles)
    && Enumerates(p.keys, p.release.checksums.Keys) && NulFree(p.keys, p.release.checksums)
  }

  function ReleaseEntries(p: Preview): string
    requires forall k :: k in p.keys ==> k in p.release.checksums
  {
    Entries(p.keys, p.release.checksums)
  }

  function PlanStream(p: Preview, sum: string -> string, fingerprint: string -> string): string
    requires ValidPreview(p)
  {
    Stream(p.action, p.start, p.release, fingerprint(ReleaseEntries(p)), p.target, p.profiles, sum)
  }

  /**
   Unique readability: on one architecture, equal streams mean the same action and
   start flag, the same release version and checksums, the same identities and
   directories, the same presence and content digest of every inspected file, and the
   same units to start. A version is free text and may hold colons.
   */
  lemma {:induction false} StreamUnique(p: Preview, q: Preview, sum: string -> string, fingerprint: string -> string)
    requires ValidPreview(p) && ValidPreview(q)
    requires p.release.architecture == q.release.architecture && IsArchitecture(p.release.architecture)
    requires (forall x :: |sum(x)| == SUM_BYTES) && (forall x :: IsFingerprint(fingerprint(x)))
    requires fingerprint(ReleaseEntries(p)) == fingerprint(ReleaseEntries(q)) ==> ReleaseEntries(p) == ReleaseEntries(q)
    requires PlanStream(p, sum, fingerprint) == PlanStream(q, sum, fingerprint)
    ensures p.action == q.action && p.start == q.start
    ensures p.release == q.release && p.profiles == q.profiles
    ensures SameView(p.target, q.target, Paths(p.profiles), sum)
    ensures p.action == "upgrade" ==> p.target.active == q.target.active
  {
    var sp, sq := StartList(p.action, p.start, p.target), StartList(q.action, q.start, q.target);
    var fp, fq := fingerprint(ReleaseEntries(p)), fingerprint(ReleaseEntries(q));
    var bp, bq := Body(p.target, p.profiles, sp, sum), Body(q.target, q.profiles, sq, sum);
    var arch := p.release.architecture;
    HeadUnique(p.action, p.start, q.action, q.start, p.release, q.release, fp + bp, fq + bq);
    StartsAreUnits(p.action, p.start, p.target);
    StartsAreUnits(q.action, q.start, q.target);
    BodyClear(p.target, p.profiles, sp, sum);
    BodyClear(q.target, q.profiles, sq, sum);
    MarkSplit(p.release.version, arch, fp, bp);
    MarkSplit(q.release.version, arch, fq, bq);
    VersionUnique(p.release.version, q.release.version, arch, fp, fq, bp, bq);
    ReleaseUnique(p.release, q.release, p.keys, q.keys, p.profiles, q.profiles);
    BodyUnique(p.target, q.target, p.profiles, sp, sq, sum);
    UpgradeStarts(p.start, p.target);
    UpgradeStarts(q.start, q.target);
  }

  lemma {:induction false} UpgradeStarts(start: bool, t: Target)
    ensures StartList("upgrade", start, t) == t.active
  {
    assert "upgrade"[0] != "install"[0];
  }

  lemma {:induction false} StartsAreUnits(action: string, start: bool, t: Target)
    requires WellFormed(t)
    ensures forall x :: x in StartList(action, start, t) ==> x in UNITS
  {
    assert GATEWAY == UNITS[0];
  }

  // ----- the gate of Apply -----

  /** Content with its checksum verified, as `archive` returns it. */
  ghost predicate Verified(checksums: map<string, string>, data: map<string, string>, hex: string -> string) {
    data.Keys == checksums.Keys && forall n :: n in data ==> hex(data[n]) == checksums[n]
  }

  ghost predicate NoCollision(h: string -> string, x: string, y: string) {
    h(x) == h(y) ==> x == y
  }

  /** The two previews' texts do not collide under the stream digest or the release fingerprint. */
  ghost predicate PlansApart(
    shown: Preview, now: Preview, sum: string -> string, fingerprint: string -> string, digest: string -> string)
    requires ValidPreview(shown) && ValidPreview(now)
  {
    && NoCollision(digest, PlanStream(shown, sum, fingerprint), PlanStream(now, sum, fingerprint))
    && NoCollision(fingerprint, ReleaseEntries(shown), ReleaseEntries(now))
  }

  /**
   `Apply` passes its digest check only in the state that was previewed, given that
   the hashes of the texts compared do not collide.
   */
  lemma {:induction false} GateAdmitsOnlyThePreviewedState(
    shown: Preview, now: Preview, sum: string -> string, fingerprint: string -> string, digest: string -> string)
    requires ValidPreview(shown) && ValidPreview(now) && PlansApart(shown, now, sum, fingerprint, digest)
    requires (forall x :: |sum(x)| == SUM_BYTES) && (forall x :: IsFingerprint(fingerprint(x)))
    requires shown.release.architecture == now.release.architecture && IsArchitecture(now.release.architecture)
    requires forall p :: p in shown.target.files && p in now.target.files ==>
               NoCollision(sum, shown.target.files[p], now.target.files[p])
    requires digest(PlanStream(shown, sum, fingerprint)) == digest(PlanStream(now, sum, fingerprint))
    ensures shown.action == now.action && shown.start == now.start && shown.release == now.release
    ensures shown.target.groups == now.target.groups && shown.target.users == now.target.users
            && shown.target.dirs == now.target.dirs
    ensures forall p :: p in Paths(shown.profiles) ==>
              (p in shown.target.files <==> p in now.target.files)
                && (p in shown.target.files ==> shown.target.files[p] == now.target.files[p])
    ensures now.action == "upgrade" ==> shown.target.active == now.target.active
  {
    StreamUnique(shown, now, sum, fingerprint);
    assert SameView(shown.target, now.target, Paths(shown.profiles), sum);
  }

  /** The bytes `Apply` installs are the previewed bytes: the re-read release has the planned fingerprint. */
  lemma {:induction false} GateAdmitsOnlyThePreviewedBytes(
    now: Preview, archived: Release, archiveKeys: seq<string>, shownData: map<string, string>,
    data: map<string, string>,
    fingerprint: string -> string, hex: string -> string)
    requires ValidPreview(now) && Enumerates(archiveKeys, archived.checksums.Keys)
             && NulFree(archiveKeys, archived.checksums)
    requires Verified(now.release.checksums, shownData, hex) && Verified(archived.checksums, data, hex)
    requires fingerprint(Entries(archiveKeys, archived.checksums)) == fingerprint(ReleaseEntries(now))
    requires NoCollision(fingerprint, Entries(archiveKeys, archived.checksums), ReleaseEntries(now))
    requires forall n :: n in data && n in shownData ==> NoCollision(hex, data[n], shownData[n])
    ensures data == shownData
  {
    EntriesUnique(archiveKeys, archived.checksums, now.keys, now.release.checksums);
    assert forall n :: n in archived.checksums.Keys <==> n in archiveKeys;
    assert forall n :: n in now.release.checksums.Keys <==> n in now.keys;
    assert archived.checksums.Keys == now.release.checksums.Keys;
    forall n | n in data
      ensures n in shownData && data[n] == shownData[n]
    {
      assert n in archiveKeys && archived.checksums[n] == now.release.checksums[n];
      assert NoCollision(hex, data[n], shownData[n]);
    }
  }
}
