/**
 Successive releases (internal/lifecycle/manager_linux.go): what installs and
 upgrades leave on disk, how the provenance record links one upgrade to the next, and
 what the administrator's own files keep.
 */
module ReleaseChain {
  import opened Wrappers
  import opened PlanCodec
  import opened Text
  import opened LifecycleHost
  import opened LifecycleLog
  import opened Lifecycle
  import PlanDigest

  /** A verified release: `profiles` are its profile files in sorted order, `units` its three unit files. */
  datatype Release = Release(
    binary: string, config: string, profiles: seq<string>, profileData: map<string, string>, units: map<string, string>)

  /** The hash of a unit file in hex, and the record's JSON codec. */
  datatype Codec = Codec(
    hex: string -> string, encode: map<string, string> -> string, decode: string -> Option<map<string, string>>)

  ghost predicate ValidRelease(r: Release) {
    && Ascending(r.profiles) && (forall n :: n in r.profiles ==> PlanDigest.ValidProfileFile(n) && n in r.profileData)
    && (forall u :: u in UNITS <==> u in r.units)
  }

  /** `packagedUnitProvenance`. */
  function Provenance(r: Release, c: Codec): map<string, string> {
    map u | u in r.units :: c.hex(r.units[u])
  }

  const PROVENANCE := PlanDigest.PROVENANCE
  const CONFIG := PlanDigest.CONFIG
  const PROFILE_DIR := PlanDigest.PROFILE_DIR

  function ProfilePuts(r: Release, names: seq<string>, gid: nat): seq<Put>
    requires forall n :: n in names ==> n in r.profileData
  {
    if names == [] then []
    else
      var first := Put(PROFILE_DIR + names[0], Entry(r.profileData[names[0]], 0x1A0, 0, 0, gid), false);
      [first] + ProfilePuts(r, names[1..], gid)
  }

  function UnitPut(r: Release, u: string): Put
    requires u in r.units
  {
    Put(UnitPath(u), Entry(r.units[u], 0x1A4, 0, 0, 0), true)
  }

  function HeadPuts(r: Release, gid: nat): seq<Put> {
    [Put(BINARY, Entry(r.binary, 0x1ED, 0, 0, 0), true), Put(CONFIG, Entry(r.config, 0x1A0, 0, 0, gid), false)]
  }

  function TailPuts(r: Release, c: Codec): seq<Put>
    requires ValidRelease(r)
  {
    [UnitPut(r, UNITS[0]), UnitPut(r, UNITS[1]), UnitPut(r, UNITS[2]),
     Put(PROVENANCE, Entry(c.encode(Provenance(r, c)), 0x180, 0, 0, 0), true)]
  }

  /** The puts of `Apply` in order: binary 0755, configuration and profiles 0640, units 0644, provenance 0600. */
  function Puts(r: Release, gid: nat, c: Codec): seq<Put>
    requires ValidRelease(r)
  {
    HeadPuts(r, gid) + ProfilePuts(r, r.profiles, gid) + TailPuts(r, c)
  }

  /** A path the administrator owns: any but the binary, the provenance record and the three units. */
  predicate AdminPath(p: string) {
    p != BINARY && p != PROVENANCE && forall u :: u in UNITS ==> p != UnitPath(u)
  }

  /** What a put that spares existing files leaves. */
  function Kept(files: map<string, Entry>, path: string, e: Entry): Entry {
    if path in files then files[path] else e
  }

  /** A put either leaves an existing file alone or is not for an administrator's path. */
  predicate SparesAdmin(p: Put) {
    p.replace ==> !AdminPath(p.path)
  }

  // ----- the puts have distinct paths -----

  /** Three characters tell the kinds of installed path apart. */
  datatype Kind = BinaryKind | ConfigKind | ProfileKind | UnitKind | ProvenanceKind | OtherKind

  function KindOf(p: string): Kind {
    if |p| <= 14 then OtherKind
    else if p[1] == 'u' then BinaryKind
    else if p[5] == 's' then UnitKind
    else if p[14] == 'c' then ConfigKind
    else if p[14] == 'p' then ProfileKind
    else if p[14] == 'u' then ProvenanceKind
    else OtherKind
  }

  lemma {:induction false} Kinds()
    ensures KindOf(BINARY) == BinaryKind && KindOf(CONFIG) == ConfigKind && KindOf(PROVENANCE) == ProvenanceKind
    ensures forall u :: u in UNITS ==> KindOf(UnitPath(u)) == UnitKind
    ensures UnitPath(UNITS[0]) != UnitPath(UNITS[1]) && UnitPath(UNITS[0]) != UnitPath(UNITS[2])
            && UnitPath(UNITS[1]) != UnitPath(UNITS[2])
  {
    assert BINARY[1] == 'u' && CONFIG[1] == 'e' && CONFIG[5] == 'h' && CONFIG[14] == 'c';
    assert PROVENANCE[1] == 'e' && PROVENANCE[5] == 'h' && PROVENANCE[14] == 'u';
    forall u | u in UNITS
      ensures KindOf(UnitPath(u)) == UnitKind
    {
      assert UnitPath(u)[1] == 'e' && UnitPath(u)[5] == 's';
    }
    assert UnitPath(UNITS[0])[29] == 'g' && UnitPath(UNITS[1])[29] == 'o' && UnitPath(UNITS[2])[29] == 'r';
  }

  lemma {:induction false} ProfilePutAt(r: Release, names: seq<string>, gid: nat, i: nat)
    requires (forall n :: n in names ==> n in r.profileData) && i < |names|
    ensures |ProfilePuts(r, names, gid)| == |names|
    ensures ProfilePuts(r, names, gid)[i]
            == Put(PROFILE_DIR + names[i], Entry(r.profileData[names[i]], 0x1A0, 0, 0, gid), false)
  {
    if |names| > 1 {
      ProfilePutAt(r, names[1..], gid, if i > 0 then i - 1 else 0);
    }
  }

  lemma {:induction false} ProfilePutsDistinct(r: Release, gid: nat)
    requires ValidRelease(r)
    ensures |ProfilePuts(r, r.profiles, gid)| == |r.profiles| && DistinctPuts(ProfilePuts(r, r.profiles, gid))
    ensures forall i :: 0 <= i < |r.profiles| ==>
              var p := ProfilePuts(r, r.profiles, gid)[i];
              KindOf(p.path) == ProfileKind && !p.replace && p.path == PROFILE_DIR + r.profiles[i]
                && p.entry.data == r.profileData[r.profiles[i]]
  {
    var puts := ProfilePuts(r, r.profiles, gid);
    if r.profiles != [] {
      ProfilePutAt(r, r.profiles, gid, 0);
    }
    forall i | 0 <= i < |r.profiles|
      ensures KindOf(puts[i].path) == ProfileKind && !puts[i].replace && puts[i].entry.special == 0
      ensures puts[i].path == PROFILE_DIR + r.profiles[i] && puts[i].entry.data == r.profileData[r.profiles[i]]
    {
      ProfilePutAt(r, r.profiles, gid, i);
      assert r.profiles[i] in r.profiles;
    }
    forall i, j | 0 <= i < j < |puts|
      ensures puts[i].path != puts[j].path
    {
      LessTotal(r.profiles[i], r.profiles[j]);
      SamePrefix(PROFILE_DIR, r.profiles[i], r.profiles[j]);
    }
  }

  lemma {:induction false} SamePrefix(p: string, a: string, b: string)
    ensures p + a == p + b ==> a == b
  {
    if p + a == p + b {
      SameLength(p, p, a, b);
    }
  }

  lemma {:induction false} HeadShape(r: Release, gid: nat)
    ensures DistinctPuts(HeadPuts(r, gid))
    ensures forall i :: 0 <= i < 2 ==>
              KindOf(HeadPuts(r, gid)[i].path) in {BinaryKind, ConfigKind} && SparesAdmin(HeadPuts(r, gid)[i])
  {
    Kinds();
  }

  lemma {:induction false} TailShape(r: Release, c: Codec)
    requires ValidRelease(r)
    ensures DistinctPuts(TailPuts(r, c))
    ensures forall i :: 0 <= i < 4 ==>
              KindOf(TailPuts(r, c)[i].path) in {UnitKind, ProvenanceKind} && SparesAdmin(TailPuts(r, c)[i])
  {
    TailKinds(r, c);
    Kinds();
  }

  lemma {:induction false} TailKinds(r: Release, c: Codec)
    requires ValidRelease(r)
    ensures forall i :: 0 <= i < 4 ==> SparesAdmin(TailPuts(r, c)[i])
    ensures forall i :: 0 <= i < 4 ==>
              KindOf(TailPuts(r, c)[i].path) == if i < 3 then UnitKind else ProvenanceKind
  {
    Kinds();
  }

  /** The puts of any release name distinct paths, so `Apply` accepts them. */
  lemma {:induction false} PutsDistinct(r: Release, gid: nat, c: Codec)
    requires ValidRelease(r)
    ensures DistinctPuts(Puts(r, gid, c))
  {
    HeadShape(r, gid);
    ProfilePutsDistinct(r, gid);
    TailShape(r, c);
  }

  // ----- what one application leaves -----

  /** With distinct paths each put decides its own path alone. */
  lemma {:induction false} InstallAllPut(files: map<string, Entry>, puts: seq<Put>, i: nat)
    requires DistinctPuts(puts) && i < |puts|
    ensures Lookup(InstallAll(files, puts), puts[i].path)
            == Some(if puts[i].path in files && !puts[i].replace then files[puts[i].path] else puts[i].entry)
  {
    var n := |puts| - 1;
    var less := puts[..n];
    if i == n {
      InstallAllAt(files, less, puts[n].path);
    } else {
      assert less[i] == puts[i] && DistinctPuts(less);
      InstallAllPut(files, less, i);
      assert puts[i].path != puts[n].path;
    }
  }

  /** The binary, the three units and the provenance record on disk are this release's. */
  ghost predicate Holds(files: map<string, Entry>, r: Release, c: Codec) {
    && DataAt(files, BINARY) == Some(r.binary)
    && DataAt(files, PROVENANCE) == Some(c.encode(Provenance(r, c)))
    && forall u :: u in UNITS ==> u in r.units && DataAt(files, UnitPath(u)) == Some(r.units[u])
  }

  lemma {:induction false} AppliedHolds(files: map<string, Entry>, r: Release, gid: nat, c: Codec)
    requires ValidRelease(r)
    ensures Holds(InstallAll(files, Puts(r, gid, c)), r, c)
  {
    var puts, k := Puts(r, gid, c), |r.profiles|;
    PutsDistinct(r, gid, c);
    ProfilePutsDistinct(r, gid);
    InstallAllPut(files, puts, 0);
    InstallAllPut(files, puts, k + 2);
    InstallAllPut(files, puts, k + 3);
    InstallAllPut(files, puts, k + 4);
    InstallAllPut(files, puts, k + 5);
    assert puts[k + 2] == UnitPut(r, UNITS[0]) && puts[k + 3] == UnitPut(r, UNITS[1])
           && puts[k + 4] == UnitPut(r, UNITS[2]);
    forall u | u in UNITS
      ensures u in r.units && DataAt(InstallAll(files, puts), UnitPath(u)) == Some(r.units[u])
    {
      assert u == UNITS[0] || u == UNITS[1] || u == UNITS[2];
    }
  }

  /** After an application, path by path: content, mode and owner of every file it is about, and no other file. */
  lemma {:induction false} InstalledEntries(files: map<string, Entry>, r: Release, gid: nat, c: Codec)
    requires ValidRelease(r)
    ensures var now := InstallAll(files, Puts(r, gid, c));
            && Lookup(now, BINARY) == Some(Entry(r.binary, 0x1ED, 0, 0, 0))
            && Lookup(now, PROVENANCE) == Some(Entry(c.encode(Provenance(r, c)), 0x180, 0, 0, 0))
            && Lookup(now, CONFIG) == Some(Kept(files, CONFIG, Entry(r.config, 0x1A0, 0, 0, gid)))
    ensures forall u :: u in UNITS ==>
              Lookup(InstallAll(files, Puts(r, gid, c)), UnitPath(u)) == Some(Entry(r.units[u], 0x1A4, 0, 0, 0))
    ensures forall n :: n in r.profiles ==>
              Lookup(InstallAll(files, Puts(r, gid, c)), PROFILE_DIR + n)
              == Some(Kept(files, PROFILE_DIR + n, Entry(r.profileData[n], 0x1A0, 0, 0, gid)))
    ensures forall p :: p !in PlanDigest.Paths(r.profiles) ==>
              Lookup(InstallAll(files, Puts(r, gid, c)), p) == Lookup(files, p)
  {
    var puts, k := Puts(r, gid, c), |r.profiles|;
    PutsDistinct(r, gid, c);
    ProfilePutsDistinct(r, gid);
    InstallAllPut(files, puts, 0);
    InstallAllPut(files, puts, 1);
    InstallAllPut(files, puts, k + 5);
    assert puts[k + 5].path == PROVENANCE;
    forall u | u in UNITS
      ensures Lookup(InstallAll(files, puts), UnitPath(u)) == Some(Entry(r.units[u], 0x1A4, 0, 0, 0))
    {
      UnitWritten(files, r, gid, c, u);
    }
    forall n | n in r.profiles
      ensures Lookup(InstallAll(files, puts), PROFILE_DIR + n)
           == Some(Kept(files, PROFILE_DIR + n, Entry(r.profileData[n], 0x1A0, 0, 0, gid)))
    {
      ProfileWritten(files, r, gid, c, n);
    }
    forall p | p !in PlanDigest.Paths(r.profiles)
      ensures Lookup(InstallAll(files, puts), p) == Lookup(files, p)
    {
      UnplannedStays(files, r, gid, c, p);
    }
  }

  lemma {:induction false} ProfileWritten(files: map<string, Entry>, r: Release, gid: nat, c: Codec, n: string)
    requires ValidRelease(r) && n in r.profiles
    ensures Lookup(InstallAll(files, Puts(r, gid, c)), PROFILE_DIR + n)
         == Some(Kept(files, PROFILE_DIR + n, Entry(r.profileData[n], 0x1A0, 0, 0, gid)))
  {
    var puts := Puts(r, gid, c);
    var i :| 0 <= i < |r.profiles| && r.profiles[i] == n;
    PutsDistinct(r, gid, c);
    ProfilePutsDistinct(r, gid);
    ProfilePutAt(r, r.profiles, gid, i);
    assert puts[i + 2] == ProfilePuts(r, r.profiles, gid)[i];
    InstallAllPut(files, puts, i + 2);
  }

  lemma {:induction false} UnplannedStays(files: map<string, Entry>, r: Release, gid: nat, c: Codec, p: string)
    requires ValidRelease(r) && p !in PlanDigest.Paths(r.profiles)
    ensures Lookup(InstallAll(files, Puts(r, gid, c)), p) == Lookup(files, p)
  {
    var puts := Puts(r, gid, c);
    forall i | 0 <= i < |puts|
      ensures puts[i].path != p
    {
      PutsArePlanned(r, gid, c, i);
    }
    InstallAllAt(files, puts, p);
  }

  lemma {:induction false} UnitWritten(files: map<string, Entry>, r: Release, gid: nat, c: Codec, u: string)
    requires ValidRelease(r) && u in UNITS
    ensures Lookup(InstallAll(files, Puts(r, gid, c)), UnitPath(u)) == Some(Entry(r.units[u], 0x1A4, 0, 0, 0))
  {
    var puts, k := Puts(r, gid, c), |r.profiles|;
    PutsDistinct(r, gid, c);
    ProfilePutsDistinct(r, gid);
    var j :| 0 <= j < 3 && UNITS[j] == u;
    assert puts[k + 2 + j] == TailPuts(r, c)[j] && TailPuts(r, c)[j] == UnitPut(r, u);
    InstallAllPut(files, puts, k + 2 + j);
  }

  /** Everything an application writes is among the paths its preview inspects. */
  lemma {:induction false} PutsArePlanned(r: Release, gid: nat, c: Codec, i: nat)
    requires ValidRelease(r) && i < |Puts(r, gid, c)|
    ensures Puts(r, gid, c)[i].path in PlanDigest.Paths(r.profiles)
  {
    var puts, k, paths := Puts(r, gid, c), |r.profiles|, PlanDigest.Paths(r.profiles);
    ProfilePutsDistinct(r, gid);
    if k > 0 {
      PlanDigest.ProfilePathAt(r.profiles, if 2 <= i < k + 2 then i - 2 else 0);
    }
    assert |paths| == k + 6;
    if i < 2 {
      assert puts[i] == HeadPuts(r, gid)[i] && puts[i].path == paths[i];
    } else if i < k + 2 {
      ProfilePutAt(r, r.profiles, gid, i - 2);
      assert puts[i] == ProfilePuts(r, r.profiles, gid)[i - 2]
             && paths[i] == PlanDigest.ProfilePaths(r.profiles)[i - 2];
    } else {
      TailPlanned(r, c, i - k - 2);
      assert puts[i] == TailPuts(r, c)[i - k - 2];
      assert forall j :: 0 <= j < 3 ==> paths[k + 2 + j] == PlanDigest.UnitPaths()[j];
      assert paths[k + 5] == PROVENANCE;
    }
  }

  lemma {:induction false} TailPlanned(r: Release, c: Codec, j: nat)
    requires ValidRelease(r) && j < 4
    ensures TailPuts(r, c)[j].path == if j < 3 then PlanDigest.UnitPaths()[j] else PROVENANCE
  {
    if j == 0 {
      GatewayPlanned();
    } else if j == 1 {
      ObserverPlanned();
    } else if j == 2 {
      RepairPlanned();
    }
  }

  lemma {:induction false} GatewayPlanned()
    ensures UnitPath(UNITS[0]) == PlanDigest.UnitPaths()[0]
  {
  }

  lemma {:induction false} ObserverPlanned()
    ensures UnitPath(UNITS[1]) == PlanDigest.UnitPaths()[1]
  {
  }

  lemma {:induction false} RepairPlanned()
    ensures UnitPath(UNITS[2]) == PlanDigest.UnitPaths()[2]
  {
  }

  /** An application never changes an existing administrator file. */
  lemma {:induction false} AppliedKeepsAdminFiles(files: map<string, Entry>, r: Release, gid: nat, c: Codec, p: string)
    requires ValidRelease(r) && AdminPath(p) && p in files
    ensures Lookup(InstallAll(files, Puts(r, gid, c)), p) == Some(files[p])
  {
    var puts := Puts(r, gid, c);
    PutsDistinct(r, gid, c);
    if exists i :: 0 <= i < |puts| && puts[i].path == p {
      var i :| 0 <= i < |puts| && puts[i].path == p;
      InstallAllPut(files, puts, i);
      ReplacedKinds(r, gid, c, i);
    } else {
      InstallAllAt(files, puts, p);
    }
  }

  /** Only the binary, units and provenance are replaced. */
  lemma {:induction false} ReplacedKinds(r: Release, gid: nat, c: Codec, i: nat)
    requires ValidRelease(r) && i < |Puts(r, gid, c)|
    ensures SparesAdmin(Puts(r, gid, c)[i])
  {
    HeadShape(r, gid);
    ProfilePutsDistinct(r, gid);
    TailShape(r, c);
    var k := |r.profiles|;
    assert i < 2 ==> Puts(r, gid, c)[i] == HeadPuts(r, gid)[i];
    assert 2 <= i < k + 2 ==> Puts(r, gid, c)[i] == ProfilePuts(r, r.profiles, gid)[i - 2];
    assert k + 2 <= i ==> Puts(r, gid, c)[i] == TailPuts(r, c)[i - k - 2];
  }

  /** The files an upgrade copies before it replaces them: binary, provenance and units. */
  function CopiedPaths(): seq<string> {
    [BINARY, PROVENANCE, UnitPath(UNITS[0]), UnitPath(UNITS[1]), UnitPath(UNITS[2])]
  }

  /** Every path that is not the administrator's is copied. */
  lemma {:induction false} CopiedAll()
    ensures forall p :: !AdminPath(p) ==> p in CopiedPaths()
  {
    var copied := CopiedPaths();
    assert copied[0] == BINARY && copied[1] == PROVENANCE;
    forall u | u in UNITS
      ensures UnitPath(u) in copied
    {
      assert u == UNITS[0] || u == UNITS[1] || u == UNITS[2];
      assert copied[2] == UnitPath(UNITS[0]) && copied[3] == UnitPath(UNITS[1]) && copied[4] == UnitPath(UNITS[2]);
    }
  }

  /**
   The units an application leaves. An upgrade runs the units that ran, each on the new
   binary and definition; an install starts and enables the gateway or leaves all alone.
   */
  ghost predicate Serves(
    release: Release, upgrade: bool, start: bool, before: map<string, Process>, was: set<string>,
    running: map<string, Process>, enabled: set<string>)
    requires ValidRelease(release)
  {
    if upgrade then
      && running.Keys == before.Keys && enabled == was
      && forall u :: u in UNITS && u in running ==>
           running[u] == Process(Some(release.binary), Some(release.units[u]))
    else if start then
      && enabled == was + {GATEWAY}
      && running == (if GATEWAY in before then before
                     else before[GATEWAY := Process(Some(release.binary), Some(release.units[GATEWAY]))])
    else running == before && enabled == was
  }

  lemma {:induction false} HeldLaunch(files: map<string, Entry>, r: Release, c: Codec, u: string)
    requires Holds(files, r, c) && u in UNITS
    ensures u in r.units && Launch(files, Definitions(files), u) == Process(Some(r.binary), Some(r.units[u]))
  {
  }

  /**
   `Apply` for a release, end to end: what it reports as applied holds the release and
   spares every file of the administrator, and an undone host has all its old content.
   Either way the host is fit for the next application.
   */
  method ApplyRelease(host: Host, upgrade: bool, start: bool, release: Release, gid: nat, c: Codec, course: Course)
    returns (r: Result, ghost trail: Trail)
    requires host.copy == None && Rooted(host.files, host.dirs) && ValidRelease(release)
             && (upgrade ==> ROOT in host.dirs)
    modifies host
    ensures r.Done() ==>
              && host.files == InstallAll(old(host.files), Puts(release, gid, c)) && Holds(host.files, release, c)
              && forall p :: AdminPath(p) && p in old(host.files) ==> Lookup(host.files, p) == Some(old(host.files)[p])
    ensures r.Done() ==>
              Serves(release, upgrade, start, old(host.running), old(host.enabled), host.running, host.enabled)
    ensures r.Undone() ==>
              host.dirs == old(host.dirs) && forall p :: DataAt(host.files, p) == DataAt(old(host.files), p)
    ensures r.Applied? || r.RolledBack? ==> host.copy == None
    ensures r.Done() || r.Undone() ==>
              Rooted(host.files, host.dirs) && (ROOT in old(host.dirs) || r.Done() ==> ROOT in host.dirs)
    ensures course.smooth ==> r.Applied?
    ensures course.undoSmooth ==> !r.RolledBackCopyKept? && !r.RollbackIncomplete?
    ensures r.RollbackIncomplete? && upgrade && trail.changed != [] ==>
              && host.copy.Some?
              && forall p :: !AdminPath(p) && p in old(host.files) ==>
                   p in host.copy.value && host.copy.value[p] == Plain(old(host.files)[p])
  {
    PutsDistinct(release, gid, c);
    ghost var before := host.files;
    assert forall p :: !AdminPath(p) ==> p in CopiedPaths() by { CopiedAll(); }
    r, trail := Lifecycle.Apply(host, upgrade, start, Puts(release, gid, c), CopiedPaths(), course);
    AppliedHolds(before, release, gid, c);
    forall p | AdminPath(p) && p in before
      ensures Lookup(InstallAll(before, Puts(release, gid, c)), p) == Some(before[p])
    {
      AppliedKeepsAdminFiles(before, release, gid, c, p);
    }
    if r.Done() {
      AppliedServes(host.files, release, c);
    }
    if r.Undone() {
      RestoredData(before, host.files, trail.changed);
    }
  }

  lemma {:induction false} AppliedServes(files: map<string, Entry>, r: Release, c: Codec)
    requires Holds(files, r, c)
    ensures GATEWAY in UNITS
    ensures forall u :: u in UNITS ==>
              u in r.units && Launch(files, Definitions(files), u) == Process(Some(r.binary), Some(r.units[u]))
  {
    assert UNITS[0] == GATEWAY;
    forall u | u in UNITS
      ensures u in r.units && Launch(files, Definitions(files), u) == Process(Some(r.binary), Some(r.units[u]))
    {
      HeldLaunch(files, r, c, u);
    }
  }

  /** One use of the installer. */
  datatype Job = Job(upgrade: bool, start: bool, release: Release, gid: nat, course: Course)

  /** The release of the last job that was applied, if any. */
  function LastDone(jobs: seq<Job>, results: seq<Result>): Option<Release>
    requires |results| <= |jobs|
  {
    if results == [] then None
    else
      var n := |results| - 1;
      if results[n].Done() then Some(jobs[n].release) else LastDone(jobs, results[..n])
  }

  /** What a series of jobs leaves: the last applied release, and the administrator's content as it was. */
  ghost predicate SeriesHolds(
    before: map<string, Entry>, files: map<string, Entry>, jobs: seq<Job>, results: seq<Result>, c: Codec)
    requires |results| <= |jobs|
  {
    && (LastDone(jobs, results).Some? ==> Holds(files, LastDone(jobs, results).value, c))
    && (LastDone(jobs, results).None? ==> forall p :: DataAt(files, p) == DataAt(before, p))
    && (forall p :: AdminPath(p) && p in before ==> DataAt(files, p) == Some(before[p].data))
  }

  lemma {:induction false} SeriesGoesOn(
    before: map<string, Entry>, files: map<string, Entry>, later: map<string, Entry>, jobs: seq<Job>,
    results: seq<Result>, r: Result, c: Codec)
    requires |results| < |jobs| && SeriesHolds(before, files, jobs, results, c) && (r.Done() || r.Undone())
    requires r.Done() ==>
               && Holds(later, jobs[|results|].release, c)
               && forall p :: AdminPath(p) && p in files ==> Lookup(later, p) == Some(files[p])
    requires r.Undone() ==> forall p :: DataAt(later, p) == DataAt(files, p)
    ensures SeriesHolds(before, later, jobs, results + [r], c)
  {
    assert (results + [r])[..|results|] == results;
    forall p | AdminPath(p) && p in before
      ensures DataAt(later, p) == Some(before[p].data)
    {
      assert DataAt(files, p) == Some(before[p].data);
    }
  }

  method ApplyJob(host: Host, jobs: seq<Job>, results: seq<Result>, c: Codec, ghost before: map<string, Entry>)
    returns (r: Result)
    requires host.copy == None && Rooted(host.files, host.dirs) && |results| < |jobs|
    requires ValidRelease(jobs[|results|].release) && (jobs[|results|].upgrade ==> ROOT in host.dirs)
    requires SeriesHolds(before, host.files, jobs, results, c)
    modifies host
    ensures r.RollbackIncomplete? || SeriesHolds(before, host.files, jobs, results + [r], c)
    ensures r.Applied? || r.RolledBack? ==> host.copy == None && Rooted(host.files, host.dirs)
    ensures jobs[|results|].course.smooth ==> r.Applied?
    ensures r.Applied? || (ROOT in old(host.dirs) && r.RolledBack?) ==> ROOT in host.dirs
  {
    var job := jobs[|results|];
    ghost var files := host.files;
    var result, _ := ApplyRelease(host, job.upgrade, job.start, job.release, job.gid, c, job.course);
    r := result;
    if r.Done() || r.Undone() {
      SeriesGoesOn(before, files, host.files, jobs, results, r, c);
    }
  }

  /** No step of any of the jobs fails. */
  ghost predicate NoneFails(jobs: seq<Job>) {
    forall i :: 0 <= i < |jobs| ==> jobs[i].course.smooth
  }

  ghost predicate AllApplied(results: seq<Result>) {
    forall i :: 0 <= i < |results| ==> results[i].Applied?
  }

  /**
   Any series of installs and upgrades on one host, each of which may fail and be undone:
   the host ends with the last release that was applied and the administrator's files
   have their old content. It stops where a rollback copy was left behind or a rollback
   failed, and before an upgrade of a host without an installation.
   */
  method ApplySeries(host: Host, jobs: seq<Job>, c: Codec) returns (results: seq<Result>)
    requires host.copy == None && Rooted(host.files, host.dirs)
    requires forall i :: 0 <= i < |jobs| ==> ValidRelease(jobs[i].release)
    modifies host
    ensures |results| <= |jobs|
    ensures forall i :: 0 <= i < |results| - 1 ==> results[i].Applied? || results[i].RolledBack?
    ensures results == [] || !results[|results| - 1].RollbackIncomplete? ==>
              SeriesHolds(old(host.files), host.files, jobs, results, c)
    ensures NoneFails(jobs) && (ROOT in old(host.dirs) || jobs == [] || !jobs[0].upgrade) ==>
              |results| == |jobs| && AllApplied(results)
  {
    results := [];
    while |results| < |jobs|
      invariant |results| <= |jobs| && host.copy == None && Rooted(host.files, host.dirs)
      invariant forall i :: 0 <= i < |results| ==> results[i].Applied? || results[i].RolledBack?
      invariant SeriesHolds(old(host.files), host.files, jobs, results, c)
      invariant NoneFails(jobs) ==> AllApplied(results)
      invariant ROOT in old(host.dirs) || (results != [] && results[|results| - 1].Applied?) ==> ROOT in host.dirs
      decreases |jobs| - |results|
    {
      if jobs[|results|].upgrade && ROOT !in host.dirs {
        return;
      }
      var r := ApplyJob(host, jobs, results, c, old(host.files));
      results := results + [r];
      if !r.Applied? && !r.RolledBack? {
        return;
      }
    }
  }

  /**
   Where a failing start left a unit running, the rollback of an upgrade between releases
   with different binaries ends with that unit on the new binary.
   */
  lemma {:induction false} StrayKeepsNewBinary(
    o: Origin, was: Release, now: Release, gid: nat, c: Codec, running: map<string, Process>, enabled: set<string>,
    stray: string)
    requires Holds(o.files, was, c) && ValidRelease(now) && was.binary != now.binary && Synced(o) && stray in UNITS
    requires UnitsBack(o, running, enabled, true, false, Some(stray))
    requires running[stray] == Installed(o.files, Puts(now, gid, c), stray)
    ensures running[stray].binary == Some(now.binary) && running != o.running
  {
    AppliedHolds(o.files, now, gid, c);
    OriginalProcessesExactly(o, Puts(now, gid, c), running, enabled, Some(stray));
  }

  /** Every such upgrade of a host with a running unit can end so: the units are back in every other respect. */
  lemma {:induction false} StrayCanBeLeft(o: Origin, was: Release, now: Release, gid: nat, c: Codec, stray: string)
    requires Holds(o.files, was, c) && ValidRelease(now) && was.binary != now.binary && Synced(o)
    requires stray in UNITS && stray in o.running
    ensures var running := o.running[stray := Installed(o.files, Puts(now, gid, c), stray)];
            UnitsBack(o, running, o.enabled, true, false, Some(stray)) && running != o.running
  {
    var process := Installed(o.files, Puts(now, gid, c), stray);
    BackExceptStray(o, stray, process);
    StrayKeepsNewBinary(o, was, now, gid, c, o.running[stray := process], o.enabled, stray);
  }

  // ----- chains -----

  /** A successful install or upgrade, or an administrator's change to one of his own files. */
  datatype Event = Apply(release: Release, gid: nat) | Edit(path: string, entry: Option<Entry>)

  ghost predicate ValidEvent(e: Event) {
    match e
    case Apply(r, _) => ValidRelease(r)
    case Edit(p, _) => AdminPath(p)
  }

  ghost function After(files: map<string, Entry>, e: Event, c: Codec): map<string, Entry>
    requires ValidEvent(e)
  {
    match e
    case Apply(r, gid) => InstallAll(files, Puts(r, gid, c))
    case Edit(p, entry) => Edited(files, p, entry)
  }

  ghost predicate ValidChain(events: seq<Event>) {
    forall i :: 0 <= i < |events| ==> ValidEvent(events[i])
  }

  ghost function Chain(files: map<string, Entry>, events: seq<Event>, c: Codec): map<string, Entry>
    requires ValidChain(events)
  {
    if events == [] then files
    else After(Chain(files, events[..|events| - 1], c), events[|events| - 1], c)
  }

  /** The last release applied in a chain. */
  ghost predicate LastRelease(events: seq<Event>, k: nat, r: Release) {
    && k < |events| && events[k].Apply? && events[k].release == r
    && forall i :: k < i < |events| ==> events[i].Edit?
  }

  function Edited(files: map<string, Entry>, p: string, entry: Option<Entry>): map<string, Entry> {
    if entry.Some? then files[p := entry.value] else files - {p}
  }

  lemma {:induction false} EditKeepsHolds(
    files: map<string, Entry>, p: string, entry: Option<Entry>, r: Release, c: Codec)
    requires Holds(files, r, c) && AdminPath(p)
    ensures Holds(Edited(files, p, entry), r, c)
  {
    Kinds();
    var now := Edited(files, p, entry);
    EditElsewhere(files, p, entry, BINARY);
    EditElsewhere(files, p, entry, PROVENANCE);
    forall u | u in UNITS
      ensures u in r.units && DataAt(now, UnitPath(u)) == Some(r.units[u])
    {
      EditElsewhere(files, p, entry, UnitPath(u));
    }
  }

  lemma {:induction false} EditElsewhere(files: map<string, Entry>, p: string, entry: Option<Entry>, q: string)
    ensures AdminPath(p) && !AdminPath(q) ==> DataAt(Edited(files, p, entry), q) == DataAt(files, q)
  {
  }

  /** After any chain the binary, units and provenance are the last applied release's. */
  lemma {:induction false} ChainHoldsLastRelease(
    files: map<string, Entry>, events: seq<Event>, c: Codec, k: nat, r: Release)
    requires ValidChain(events) && LastRelease(events, k, r)
    ensures Holds(Chain(files, events, c), r, c)
  {
    var n := |events| - 1;
    var before := Chain(files, events[..n], c);
    assert ValidEvent(events[n]);
    if k == n {
      AppliedHolds(before, r, events[n].gid, c);
    } else {
      assert events[..n][k] == events[k];
      ChainHoldsLastRelease(files, events[..n], c, k, r);
      assert events[n].Edit? && AdminPath(events[n].path);
      EditKeepsHolds(before, events[n].path, events[n].entry, r, c);
    }
  }

  /** A file of the administrator that exists is changed by no application in the chain. */
  lemma {:induction false} ChainKeepsAdminFiles(files: map<string, Entry>, events: seq<Event>, c: Codec, p: string)
    requires ValidChain(events) && AdminPath(p) && p in files
    requires forall i :: 0 <= i < |events| && events[i].Edit? ==> events[i].path != p
    ensures Lookup(Chain(files, events, c), p) == Some(files[p])
  {
    if events != [] {
      var n := |events| - 1;
      ChainKeepsAdminFiles(files, events[..n], c, p);
      assert ValidEvent(events[n]);
      if events[n].Apply? {
        AppliedKeepsAdminFiles(Chain(files, events[..n], c), events[n].release, events[n].gid, c, p);
      }
    }
  }

  // ----- the next upgrade's unit check -----

  /** `readUnitProvenance` and the comparison in `Preview`: a present unit must have its recorded hash. */
  predicate UnitAccepted(files: map<string, Entry>, u: string, c: Codec, packaged: string -> string) {
    UnitPath(u) in files ==>
      if PROVENANCE !in files then files[UnitPath(u)].data == packaged(u)
      else
        match c.decode(files[PROVENANCE].data)
        case None => false
        case Some(m) => |m| == |UNITS| && u in m && m[u] == c.hex(files[UnitPath(u)].data)
  }

  /** The record of a release decodes to itself (encoding is lossless). */
  ghost predicate Lossless(r: Release, c: Codec) {
    c.decode(c.encode(Provenance(r, c))) == Some(Provenance(r, c))
  }

  lemma {:induction false} ProvenanceSize(r: Release, c: Codec)
    requires ValidRelease(r)
    ensures |Provenance(r, c)| == 3
  {
    assert UNITS[0][9] == 'g' && UNITS[1][9] == 'o' && UNITS[2][9] == 'r';
    assert Provenance(r, c).Keys == {UNITS[0], UNITS[1], UNITS[2]};
  }

  /**
   After any chain, whatever releases it went through, the next upgrade accepts every
   unit the administrator left alone and, without a hash collision, refuses every unit
   whose content was altered.
   */
  lemma {:induction false} NextUpgradeChecksUnits(
    files: map<string, Entry>, events: seq<Event>, c: Codec, k: nat, r: Release, u: string, packaged: string -> string,
    altered: Entry)
    requires ValidChain(events) && LastRelease(events, k, r) && Lossless(r, c) && u in UNITS
    ensures UnitAccepted(Chain(files, events, c), u, c, packaged)
    ensures u in r.units
    ensures altered.data != r.units[u] && (c.hex(altered.data) == c.hex(r.units[u]) ==> altered.data == r.units[u]) ==>
              !UnitAccepted(Chain(files, events, c)[UnitPath(u) := altered], u, c, packaged)
  {
    ChainHoldsLastRelease(files, events, c, k, r);
    Kinds();
    assert ValidEvent(events[k]);
    ProvenanceSize(r, c);
    var now := Chain(files, events, c);
    assert DataAt(now, PROVENANCE) == Some(c.encode(Provenance(r, c))) && DataAt(now, UnitPath(u)) == Some(r.units[u]);
  }
}
