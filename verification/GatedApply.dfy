/**
 From the preview an administrator confirmed to the bytes on disk
 (internal/lifecycle/manager_linux.go): `Apply` previews again, compares digests, reads the
 release again, compares fingerprints, and then installs what it read.
 */
module GatedApply {
  import opened Wrappers
  import opened PlanCodec
  import opened Text
  import opened LifecycleHost
  import opened LifecycleLog
  import Lifecycle
  import PlanDigest
  import PlanVersion
  import ReleaseChain

  /** What `archive` returns: the manifest, its sorted member and profile names, and the verified content. */
  datatype Archive = Archive(
    release: PlanDigest.Release, keys: seq<string>, profiles: seq<string>, data: map<string, string>)

  /** The stream digest, the release fingerprint, and the raw and hex digests of file content. */
  datatype Hashes = Hashes(
    digest: string -> string, fingerprint: string -> string, sum: string -> string, hex: string -> string)

  ghost predicate ValidHashes(h: Hashes) {
    (forall x :: |h.sum(x)| == SUM_BYTES) && forall x :: PlanVersion.IsFingerprint(h.fingerprint(x))
  }

  ghost predicate ValidArchive(a: Archive, h: Hashes) {
    && Enumerates(a.keys, a.release.checksums.Keys) && NulFree(a.keys, a.release.checksums)
    && PlanDigest.ProfilesOf(a.release, a.profiles) && PlanDigest.Verified(a.release.checksums, a.data, h.hex)
    && Complete(a.data)
  }

  /** The members every release must have. */
  predicate Complete(data: map<string, string>) {
    "hostlens" in data && "config.example.yaml" in data && forall u :: u in UNITS ==> "systemd/" + u in data
  }

  ghost predicate HasProfiles(data: map<string, string>, profiles: seq<string>) {
    forall n :: n in profiles ==> "profiles/" + n in data
  }

  /** The release `Apply` installs; `configured` fills the service identities into the configuration template. */
  function ReleaseOf(
    data: map<string, string>, profiles: seq<string>, configured: string -> string): ReleaseChain.Release
    requires Complete(data) && HasProfiles(data, profiles)
  {
    ReleaseChain.Release(
      data["hostlens"], configured(data["config.example.yaml"]), profiles,
      map n | n in profiles :: data["profiles/" + n], map u | u in UNITS :: data["systemd/" + u])
  }

  lemma {:induction false} ArchivedRelease(a: Archive, h: Hashes, configured: string -> string)
    requires ValidArchive(a, h)
    ensures HasProfiles(a.data, a.profiles) && ReleaseChain.ValidRelease(ReleaseOf(a.data, a.profiles, configured))
  {
    assert forall n :: n in a.profiles ==> "profiles/" + n in a.release.checksums;
  }

  /** A confirmed preview: what was shown, and the content its release had then. */
  datatype Shown = Shown(preview: PlanDigest.Preview, data: map<string, string>)

  ghost predicate ValidShown(s: Shown, h: Hashes) {
    && PlanDigest.ValidPreview(s.preview) && PlanVersion.IsArchitecture(s.preview.release.architecture)
    && PlanDigest.Verified(s.preview.release.checksums, s.data, h.hex)
  }

  /** No two of the texts that are compared through a hash collide. */
  ghost predicate NoCollisions(shown: Shown, now: PlanDigest.Preview, a: Archive, h: Hashes)
    requires PlanDigest.ValidPreview(shown.preview) && PlanDigest.ValidPreview(now)
    requires NulFree(a.keys, a.release.checksums)
  {
    && PlanDigest.PlansApart(shown.preview, now, h.sum, h.fingerprint, h.digest)
    && PlanDigest.NoCollision(h.fingerprint, Entries(a.keys, a.release.checksums), PlanDigest.ReleaseEntries(now))
    && (forall p :: p in shown.preview.target.files && p in now.target.files ==>
          PlanDigest.NoCollision(h.sum, shown.preview.target.files[p], now.target.files[p]))
    && forall n :: n in a.data && n in shown.data ==> PlanDigest.NoCollision(h.hex, a.data[n], shown.data[n])
  }

  /** The gate of `Apply`. */
  predicate Passes(confirmed: string, now: PlanDigest.Preview, a: Archive, h: Hashes)
    requires PlanDigest.ValidPreview(now) && NulFree(a.keys, a.release.checksums)
  {
    && confirmed != "" && confirmed == h.digest(PlanDigest.PlanStream(now, h.sum, h.fingerprint))
    && a.release.version == now.release.version
    && h.fingerprint(Entries(a.keys, a.release.checksums)) == h.fingerprint(PlanDigest.ReleaseEntries(now))
  }

  /** Same request, same release content, and a target in the previewed state. */
  ghost predicate SameAsShown(shown: Shown, now: PlanDigest.Preview, a: Archive) {
    && a.data == shown.data && a.profiles == shown.preview.profiles && now.profiles == shown.preview.profiles
    && now.action == shown.preview.action && now.start == shown.preview.start
    && forall p :: p in PlanDigest.Paths(shown.preview.profiles) ==>
         && (p in shown.preview.target.files <==> p in now.target.files)
         && (p in now.target.files ==> shown.preview.target.files[p] == now.target.files[p])
  }

  /** The gate passes only for what was shown. */
  lemma {:induction false} PassedGate(confirmed: string, shown: Shown, now: PlanDigest.Preview, a: Archive, h: Hashes)
    requires ValidHashes(h) && ValidShown(shown, h) && PlanDigest.ValidPreview(now) && ValidArchive(a, h)
    requires now.release.architecture == shown.preview.release.architecture && NoCollisions(shown, now, a, h)
    requires confirmed == h.digest(PlanDigest.PlanStream(shown.preview, h.sum, h.fingerprint))
             && Passes(confirmed, now, a, h)
    ensures SameAsShown(shown, now, a)
  {
    PlanDigest.GateAdmitsOnlyThePreviewedState(shown.preview, now, h.sum, h.fingerprint, h.digest);
    PlanDigest.GateAdmitsOnlyThePreviewedBytes(now, a.release, a.keys, shown.data, a.data, h.fingerprint, h.hex);
    SameProfiles(a.release, now.release, a.profiles, now.profiles);
    SameProfiles(now.release, shown.preview.release, now.profiles, shown.preview.profiles);
  }

  /** A preview confirmed and not changed since passes. */
  lemma {:induction false} UnchangedPasses(confirmed: string, now: PlanDigest.Preview, a: Archive, h: Hashes)
    requires PlanDigest.ValidPreview(now) && ValidArchive(a, h)
    ensures confirmed == h.digest(PlanDigest.PlanStream(now, h.sum, h.fingerprint)) && confirmed != ""
              && a.release == now.release && Ascending(a.keys) && Ascending(now.keys)
            ==> Passes(confirmed, now, a, h)
  {
    if a.release == now.release && Ascending(a.keys) && Ascending(now.keys) {
      AscendingUnique(a.keys, now.keys);
    }
  }

  /** Releases with the same members have the same profile list. */
  lemma {:induction false} SameProfiles(
    r: PlanDigest.Release, q: PlanDigest.Release, pr: seq<string>, pq: seq<string>)
    requires PlanDigest.ProfilesOf(r, pr) && PlanDigest.ProfilesOf(q, pq) && r.checksums.Keys == q.checksums.Keys
    ensures pr == pq
  {
    AscendingUnique(pr, pq);
  }

  /** The fresh preview describes the host it was made of. */
  ghost predicate Describes(now: PlanDigest.Preview, files: map<string, Entry>) {
    forall p :: p in PlanDigest.Paths(now.profiles) ==>
      (p in now.target.files <==> p in files) && (p in files ==> now.target.files[p] == files[p].data)
  }

  /** Every inspected file of the host is as the preview showed it. */
  ghost predicate AsShown(shown: Shown, files: map<string, Entry>) {
    forall p :: p in PlanDigest.Paths(shown.preview.profiles) ==>
      && (p in shown.preview.target.files <==> p in files)
      && (p in files ==> shown.preview.target.files[p] == files[p].data)
  }

  /**
   The previewed bytes are installed, path by path with mode and owner: binary 0755, units
   0644 and provenance 0600 in any case, configuration and profiles 0640 where there were
   none, and no other file is touched.
   */
  ghost predicate ShownInstalled(
    shown: Shown, before: map<string, Entry>, files: map<string, Entry>, gid: nat, c: ReleaseChain.Codec,
    configured: string -> string)
  {
    && Complete(shown.data) && HasProfiles(shown.data, shown.preview.profiles)
    && Lookup(files, "/usr/local/bin/hostlens") == Some(Entry(shown.data["hostlens"], 0x1ED, 0, 0, 0))
    && (forall u :: u in UNITS ==>
          Lookup(files, "/etc/systemd/system/" + u) == Some(Entry(shown.data["systemd/" + u], 0x1A4, 0, 0, 0)))
    && Lookup(files, "/etc/hostlens/unit-provenance.json")
       == Some(Entry(c.encode(map u | u in UNITS :: c.hex(shown.data["systemd/" + u])), 0x180, 0, 0, 0))
    && Lookup(files, "/etc/hostlens/config.yaml")
       == (if "/etc/hostlens/config.yaml" in before then Some(before["/etc/hostlens/config.yaml"])
           else Some(Entry(configured(shown.data["config.example.yaml"]), 0x1A0, 0, 0, gid)))
    && (forall n :: n in shown.preview.profiles ==> ProfileInstalled(shown, before, files, gid, n))
    && (forall p :: p !in PlanDigest.Paths(shown.preview.profiles) ==> Lookup(files, p) == Lookup(before, p))
  }

  ghost predicate ProfileInstalled(
    shown: Shown, before: map<string, Entry>, files: map<string, Entry>, gid: nat, n: string)
    requires "profiles/" + n in shown.data
  {
    var path := "/etc/hostlens/profiles/" + n;
    Lookup(files, path)
      == Some(if path in before then before[path] else Entry(shown.data["profiles/" + n], 0x1A0, 0, 0, gid))
  }

  /**
   The units run the previewed release: an upgrade runs what ran, on the new binary and
   definitions; an install starts and enables the gateway if asked to, and nothing else.
   */
  ghost predicate ShownRuns(
    shown: Shown, before: map<string, Process>, was: set<string>, running: map<string, Process>, enabled: set<string>)
    requires Complete(shown.data)
  {
    if shown.preview.action == "upgrade" then
      && running.Keys == before.Keys && enabled == was
      && forall u :: u in UNITS && u in running ==>
           running[u] == Process(Some(shown.data["hostlens"]), Some(shown.data["systemd/" + u]))
    else if shown.preview.start then
      && enabled == was + {GATEWAY} && GATEWAY in UNITS
      && running == (if GATEWAY in before then before
                     else before[GATEWAY := Process(Some(shown.data["hostlens"]),
                                                    Some(shown.data["systemd/" + GATEWAY]))])
    else running == before && enabled == was
  }

  /** What the puts of a release built from the archive content leave. */
  lemma {:induction false} ReleaseInstalls(
    shown: Shown, before: map<string, Entry>, gid: nat, c: ReleaseChain.Codec, configured: string -> string)
    requires Complete(shown.data) && HasProfiles(shown.data, shown.preview.profiles)
    requires ReleaseChain.ValidRelease(ReleaseOf(shown.data, shown.preview.profiles, configured))
    ensures var r := ReleaseOf(shown.data, shown.preview.profiles, configured);
            ShownInstalled(shown, before, Lifecycle.InstallAll(before, ReleaseChain.Puts(r, gid, c)), gid, c,
                           configured)
  {
    var r := ReleaseOf(shown.data, shown.preview.profiles, configured);
    var files := Lifecycle.InstallAll(before, ReleaseChain.Puts(r, gid, c));
    ReleaseChain.InstalledEntries(before, r, gid, c);
    ReleaseProvenance(shown.data, shown.preview.profiles, c, configured);
    forall n | n in shown.preview.profiles
      ensures ProfileInstalled(shown, before, files, gid, n)
    {
      assert n in r.profiles && r.profileData[n] == shown.data["profiles/" + n];
    }
  }

  lemma {:induction false} ReleaseProvenance(
    data: map<string, string>, profiles: seq<string>, c: ReleaseChain.Codec, configured: string -> string)
    requires Complete(data) && HasProfiles(data, profiles)
    requires ReleaseChain.ValidRelease(ReleaseOf(data, profiles, configured))
    ensures ReleaseChain.Provenance(ReleaseOf(data, profiles, configured), c)
         == map u | u in UNITS :: c.hex(data["systemd/" + u])
  {
  }

  /** The rest of `Apply` behind the gate. */
  method ApplyArchive(
    host: Host, now: PlanDigest.Preview, archive: Archive, gid: nat, c: ReleaseChain.Codec,
    configured: string -> string, course: Lifecycle.Course, ghost shown: Shown, ghost h: Hashes)
    returns (r: Lifecycle.Result)
    requires host.copy == None && Rooted(host.files, host.dirs) && (now.action == "upgrade" ==> ROOT in host.dirs)
    requires ValidArchive(archive, h) && SameAsShown(shown, now, archive) && Describes(now, host.files)
    modifies host
    ensures AsShown(shown, old(host.files))
    ensures r.Done() ==> ShownInstalled(shown, old(host.files), host.files, gid, c, configured)
    ensures r.Done() ==> ShownRuns(shown, old(host.running), old(host.enabled), host.running, host.enabled)
    ensures r.Undone() ==>
              host.dirs == old(host.dirs) && forall p :: DataAt(host.files, p) == DataAt(old(host.files), p)
    ensures course.smooth ==> r.Applied?
    ensures course.undoSmooth ==> !r.RolledBackCopyKept? && !r.RollbackIncomplete?
  {
    ArchivedRelease(archive, h, configured);
    ReleaseInstalls(shown, host.files, gid, c, configured);
    var release := ReleaseOf(archive.data, archive.profiles, configured);
    assert GATEWAY in UNITS by { assert UNITS[0] == GATEWAY; }
    var result, _ := ReleaseChain.ApplyRelease(host, now.action == "upgrade", now.start, release, gid, c, course);
    return result;
  }

  /**
   `Apply` as a whole. Whatever was swapped or edited since the preview was confirmed: if
   the gate passes, every inspected file was as previewed and what is installed are the
   previewed bytes; if not, the host is untouched.
   */
  method ApplyConfirmed(
    host: Host, confirmed: string, now: PlanDigest.Preview, archive: Archive, gid: nat, c: ReleaseChain.Codec,
    h: Hashes, configured: string -> string, course: Lifecycle.Course, ghost shown: Shown)
    returns (r: Option<Lifecycle.Result>)
    requires host.copy == None && Rooted(host.files, host.dirs) && (now.action == "upgrade" ==> ROOT in host.dirs)
    requires ValidHashes(h) && ValidShown(shown, h) && PlanDigest.ValidPreview(now) && ValidArchive(archive, h)
    requires now.release.architecture == shown.preview.release.architecture && NoCollisions(shown, now, archive, h)
    requires confirmed == h.digest(PlanDigest.PlanStream(shown.preview, h.sum, h.fingerprint))
    requires Describes(now, host.files)
    modifies host
    ensures r.Some? <==> Passes(confirmed, now, archive, h)
    ensures r.None? ==> unchanged(host)
    ensures r.Some? && course.smooth ==> r.value.Applied?
    ensures r.Some? ==>
              now.action == shown.preview.action && now.start == shown.preview.start && AsShown(shown, old(host.files))
    ensures r.Some? && r.value.Done() ==> ShownInstalled(shown, old(host.files), host.files, gid, c, configured)
    ensures r.Some? && r.value.Done() ==>
              ShownRuns(shown, old(host.running), old(host.enabled), host.running, host.enabled)
    ensures r.Some? && r.value.Undone() ==>
              host.dirs == old(host.dirs) && forall p :: DataAt(host.files, p) == DataAt(old(host.files), p)
    ensures r.Some? && course.undoSmooth ==> !r.value.RolledBackCopyKept? && !r.value.RollbackIncomplete?
    ensures now == shown.preview && archive.release == now.release && Ascending(archive.keys) && Ascending(now.keys)
              && confirmed != ""
            ==> r.Some?
  {
    UnchangedPasses(confirmed, now, archive, h);
    if !Passes(confirmed, now, archive, h) {
      return None;
    }
    PassedGate(confirmed, shown, now, archive, h);
    var result := ApplyArchive(host, now, archive, gid, c, configured, course, shown, h);
    return Some(result);
  }
}
