/**
 The bounded recursive profile loader inside `Load` (internal/core/config.go).
 `dir` holds the profiles whose file opens, is protected and decodes; any other
 name fails to load.
 */
module ProfileLoader {
  import opened Text
  import opened IncludeGraph
  import opened Policy
  import opened PolicyMeaning

  const MAX_DEPTH: nat := 32
  const MAX_LOADED: nat := 128

  datatype Loading = Loaded(profiles: map<string, Profile>) | Refused(name: string)

  function DepthLeft(depth: nat): nat {
    if depth > MAX_DEPTH then 0 else MAX_DEPTH + 1 - depth
  }

  function LoadOne(dir: map<string, Profile>, name: string, depth: nat, got: map<string, Profile>): Loading
    decreases DepthLeft(depth), 0
  {
    if !ValidProfileName(name) || depth > MAX_DEPTH || |got| > MAX_LOADED then Refused(name)
    else if name in got then Loaded(got)
    else if name !in dir then Refused(name)
    else LoadList(dir, dir[name].includes, depth + 1, got[name := dir[name]])
  }

  function LoadList(dir: map<string, Profile>, names: seq<string>, depth: nat, got: map<string, Profile>): Loading
    decreases DepthLeft(depth), 1, |names|
  {
    if names == [] then Loaded(got)
    else
      var first := LoadOne(dir, names[0], depth, got);
      if first.Refused? then first else LoadList(dir, names[1..], depth, first.profiles)
  }

  class Loader {
    const dir: map<string, Profile>
    var profiles: map<string, Profile>

    constructor (dir: map<string, Profile>)
      ensures this.dir == dir && profiles == map[]
    {
      this.dir, profiles := dir, map[];
    }

    method LoadProfile(name: string, depth: nat) returns (refused: bool, culprit: string)
      modifies this
      ensures LoadOne(dir, name, depth, old(profiles)) == if refused then Refused(culprit) else Loaded(profiles)
      decreases DepthLeft(depth)
    {
      if !ValidProfileName(name) || depth > MAX_DEPTH || |profiles| > MAX_LOADED {
        return true, name;
      }
      if name in profiles {
        return false, "";
      }
      if name !in dir {
        return true, name;
      }
      var profile := dir[name];
      profiles := profiles[name := profile];
      ghost var entered := profiles;
      var i := 0;
      while i < |profile.includes|
        invariant 0 <= i <= |profile.includes|
        invariant LoadList(dir, profile.includes, depth + 1, entered)
                  == LoadList(dir, profile.includes[i..], depth + 1, profiles)
      {
        assert profile.includes[i..][1..] == profile.includes[i + 1..];
        refused, culprit := LoadProfile(profile.includes[i], depth + 1);
        if refused {
          return;
        }
        i := i + 1;
      }
      return false, "";
    }
  }

  datatype LoadOutcome = Ready(policy: Policy) | NotLoaded(name: string) | NotCompiled(error: CompileError)

  function LoadSpec(
    dir: map<string, Profile>, active: seq<string>, tools: map<string, string>, glob: Matcher): LoadOutcome {
    match LoadList(dir, active, 0, map[])
    case Refused(n) => NotLoaded(n)
    case Loaded(got) =>
      match CompileSpec(got, active, tools, glob)
      case Ok(p) => Ready(p)
      case Err(e) => NotCompiled(e)
  }

  method Load(dir: map<string, Profile>, active: seq<string>, tools: map<string, string>, glob: Matcher)
    returns (r: LoadOutcome)
    ensures r == LoadSpec(dir, active, tools, glob)
  {
    var loader := new Loader(dir);
    var i := 0;
    while i < |active|
      invariant 0 <= i <= |active| && loader.dir == dir
      invariant LoadList(dir, active, 0, map[]) == LoadList(dir, active[i..], 0, loader.profiles)
    {
      assert active[i..][1..] == active[i + 1..];
      var refused, culprit := loader.LoadProfile(active[i], 0);
      if refused {
        return NotLoaded(culprit);
      }
      i := i + 1;
    }
    var compiled := Compile(loader.profiles, active, tools, glob);
    match compiled {
      case Ok(p) => return Ready(p);
      case Err(e) => return NotCompiled(e);
    }
  }

  // ----- what a successful load holds -----

  ghost predicate Copied(dir: map<string, Profile>, got: map<string, Profile>) {
    forall n :: n in got ==> n in dir && got[n] == dir[n]
  }

  /** Includes are loaded for every loaded profile not still open. */
  ghost predicate ClosedBut(dir: map<string, Profile>, got: map<string, Profile>, open: set<string>) {
    forall a :: a in got && a !in open && a in dir ==> IncludesIn(dir[a], got)
  }

  predicate IncludesIn(p: Profile, got: map<string, Profile>) {
    forall b :: b in p.includes ==> b in got
  }

  lemma {:induction false} LoadOneClosed(
    dir: map<string, Profile>, name: string, depth: nat, got: map<string, Profile>, open: set<string>)
    requires Copied(dir, got) && ClosedBut(dir, got, open)
    requires LoadOne(dir, name, depth, got).Loaded?
    ensures var later := LoadOne(dir, name, depth, got).profiles;
            Copied(dir, later) && ClosedBut(dir, later, open) && name in later && got.Keys <= later.Keys
    decreases DepthLeft(depth), 0, 1
  {
    if name !in got {
      LoadNewClosed(dir, name, depth, got, open);
    }
  }

  lemma {:induction false} LoadNewClosed(
    dir: map<string, Profile>, name: string, depth: nat, got: map<string, Profile>, open: set<string>)
    requires Copied(dir, got) && ClosedBut(dir, got, open) && name in dir && depth <= MAX_DEPTH
    requires LoadList(dir, dir[name].includes, depth + 1, got[name := dir[name]]).Loaded?
    ensures var later := LoadList(dir, dir[name].includes, depth + 1, got[name := dir[name]]).profiles;
            Copied(dir, later) && ClosedBut(dir, later, open) && name in later && got.Keys <= later.Keys
    decreases DepthLeft(depth), 0, 0
  {
    var more := got[name := dir[name]];
    LoadListClosed(dir, dir[name].includes, depth + 1, more, open + {name});
    assert name in more && forall n :: n in got.Keys ==> n in more.Keys;
  }

  lemma {:induction false} LoadListClosed(
    dir: map<string, Profile>, names: seq<string>, depth: nat, got: map<string, Profile>, open: set<string>)
    requires Copied(dir, got) && ClosedBut(dir, got, open)
    requires LoadList(dir, names, depth, got).Loaded?
    ensures var later := LoadList(dir, names, depth, got).profiles;
            && Copied(dir, later) && ClosedBut(dir, later, open) && got.Keys <= later.Keys
            && forall n :: n in names ==> n in later
    decreases DepthLeft(depth), 1, |names|
  {
    if names != [] {
      LoadOneClosed(dir, names[0], depth, got, open);
      LoadListClosed(dir, names[1..], depth, LoadOne(dir, names[0], depth, got).profiles, open);
      assert forall n :: n in names ==> n == names[0] || n in names[1..];
    }
  }

  ghost predicate AllReachable(dir: map<string, Profile>, active: seq<string>, got: map<string, Profile>) {
    forall n :: n in got ==> Reachable(IncludesOf(dir), active, n)
  }

  /** An include path from an active profile through `path` to `name` that repeats no profile before its end. */
  ghost predicate DirectPath(dir: map<string, Profile>, active: seq<string>, path: seq<string>, name: string) {
    IsPath(IncludesOf(dir), path + [name]) && (path + [name])[0] in active && Distinct(path)
  }

  /**
   A refusal has a cause in the directory: a bad name, an unreadable profile, more than
   32 distinct profiles on one include path before it, or too many reachable profiles.
   */
  ghost predicate RefusalJustified(dir: map<string, Profile>, active: seq<string>, name: string) {
    || !ValidProfileName(name)
    || name !in dir
    || (exists path :: |path| > 32 && DirectPath(dir, active, path, name))
    || (exists s: map<string, Profile> :: |s| > 128 && AllReachable(dir, active, s))
  }

  lemma {:induction false} DirectlyReachable(
    dir: map<string, Profile>, active: seq<string>, path: seq<string>, name: string)
    requires DirectPath(dir, active, path, name)
    ensures Reachable(IncludesOf(dir), active, name)
  {
    var p := path + [name];
    assert Walks(IncludesOf(dir), p[0], name, |path|);
    assert Reaches(IncludesOf(dir), p[0], name);
  }

  /** A load only adds reachable profiles, or refuses a reachable profile with a cause. */
  ghost predicate Sound(dir: map<string, Profile>, active: seq<string>, got: map<string, Profile>, r: Loading) {
    match r
    case Loaded(later) => AllReachable(dir, active, later) && got.Keys <= later.Keys
    case Refused(n) => Reachable(IncludesOf(dir), active, n) && RefusalJustified(dir, active, n)
  }

  lemma {:induction false} LoadOneReach(
    dir: map<string, Profile>, active: seq<string>, path: seq<string>, name: string, got: map<string, Profile>)
    requires AllReachable(dir, active, got) && DirectPath(dir, active, path, name) && forall n :: n in path ==> n in got
    ensures Sound(dir, active, got, LoadOne(dir, name, |path|, got))
    decreases DepthLeft(|path|), 0
  {
    DirectlyReachable(dir, active, path, name);
    if ValidProfileName(name) && |path| <= MAX_DEPTH && |got| <= MAX_LOADED && name !in got && name in dir {
      forall m | m in dir[name].includes
        ensures DirectPath(dir, active, path + [name], m)
      {
      }
      LoadListReach(dir, active, path + [name], dir[name].includes, got[name := dir[name]]);
    }
  }

  lemma {:induction false} LoadListReach(
    dir: map<string, Profile>, active: seq<string>, path: seq<string>, names: seq<string>, got: map<string, Profile>)
    requires AllReachable(dir, active, got) && forall n :: n in path ==> n in got
    requires forall m :: m in names ==> DirectPath(dir, active, path, m)
    ensures Sound(dir, active, got, LoadList(dir, names, |path|, got))
    decreases DepthLeft(|path|), 1, |names|
  {
    if names != [] {
      LoadOneReach(dir, active, path, names[0], got);
      var first := LoadOne(dir, names[0], |path|, got);
      if first.Loaded? {
        LoadListReach(dir, active, path, names[1..], first.profiles);
      }
    }
  }

  lemma {:induction false} LoadSound(dir: map<string, Profile>, active: seq<string>)
    ensures Sound(dir, active, map[], LoadList(dir, active, 0, map[]))
  {
    StartsDirect(dir, active);
    LoadListReach(dir, active, [], active, map[]);
  }

  lemma {:induction false} StartsDirect(dir: map<string, Profile>, active: seq<string>)
    ensures forall m :: m in active ==> DirectPath(dir, active, [], m)
  {
    forall m | m in active
      ensures DirectPath(dir, active, [], m)
    {
      assert [] + [m] == [m];
    }
  }

  lemma {:induction false} LoadOneGrows(dir: map<string, Profile>, name: string, depth: nat, got: map<string, Profile>)
    requires LoadOne(dir, name, depth, got).Loaded?
    ensures got.Keys <= LoadOne(dir, name, depth, got).profiles.Keys
    decreases DepthLeft(depth), 0
  {
    if name !in got {
      LoadListGrows(dir, dir[name].includes, depth + 1, got[name := dir[name]]);
    }
  }

  lemma {:induction false} LoadListGrows(
    dir: map<string, Profile>, names: seq<string>, depth: nat, got: map<string, Profile>)
    requires LoadList(dir, names, depth, got).Loaded?
    ensures got.Keys <= LoadList(dir, names, depth, got).profiles.Keys
    decreases DepthLeft(depth), 1, |names|
  {
    if names != [] {
      LoadOneGrows(dir, names[0], depth, got);
      LoadListGrows(dir, names[1..], depth, LoadOne(dir, names[0], depth, got).profiles);
    }
  }

  /** A well-named profile at most 32 includes deep, and at most 31 if it includes others itself. */
  ghost predicate Near(dir: map<string, Profile>, active: seq<string>, n: string) {
    && 0 < |n| <= 64 && (forall c :: c in n ==> c == '-' || c == '_' || 'a' <= c <= 'z' || '0' <= c <= '9')
    && n in dir
    && exists path :: DirectPath(dir, active, path, n) && |path| <= if dir[n].includes == [] then 32 else 31
  }

  /** What a load adds is near. */
  ghost predicate AddsNear(dir: map<string, Profile>, active: seq<string>, got: map<string, Profile>, r: Loading) {
    r.Loaded? ==> |r.profiles| <= 129 && forall n :: n in r.profiles && n !in got ==> Near(dir, active, n)
  }

  lemma {:induction false} LoadOneNear(
    dir: map<string, Profile>, active: seq<string>, path: seq<string>, name: string, got: map<string, Profile>)
    requires DirectPath(dir, active, path, name) && (forall n :: n in path ==> n in got)
    ensures AddsNear(dir, active, got, LoadOne(dir, name, |path|, got))
    decreases DepthLeft(|path|), 0
  {
    var r := LoadOne(dir, name, |path|, got);
    if r.Loaded? && name !in got {
      forall m | m in dir[name].includes
        ensures DirectPath(dir, active, path + [name], m)
      {
      }
      LoadListNear(dir, active, path + [name], dir[name].includes, got[name := dir[name]]);
      assert Near(dir, active, name);
    }
  }

  lemma {:induction false} LoadListNear(
    dir: map<string, Profile>, active: seq<string>, path: seq<string>, names: seq<string>, got: map<string, Profile>)
    requires |got| <= 129 && forall n :: n in path ==> n in got
    requires forall m :: m in names ==> DirectPath(dir, active, path, m)
    ensures AddsNear(dir, active, got, LoadList(dir, names, |path|, got))
    ensures LoadList(dir, names, |path|, got).Loaded? && names != [] ==> |path| <= 32
    decreases DepthLeft(|path|), 1, |names|
  {
    if names != [] {
      LoadOneNear(dir, active, path, names[0], got);
      var first := LoadOne(dir, names[0], |path|, got);
      if first.Loaded? {
        LoadOneGrows(dir, names[0], |path|, got);
        LoadListNear(dir, active, path, names[1..], first.profiles);
      }
    }
  }

  /** A load that is not refused has kept within the limits on name, depth and number. */
  lemma {:induction false} LoadedWithinLimits(dir: map<string, Profile>, active: seq<string>)
    requires LoadList(dir, active, 0, map[]).Loaded?
    ensures |LoadList(dir, active, 0, map[]).profiles| <= 129
    ensures forall n :: n in LoadList(dir, active, 0, map[]).profiles ==> Near(dir, active, n)
  {
    StartsDirect(dir, active);
    LoadListNear(dir, active, [], active, map[]);
  }

  lemma {:induction false} LoadComplete(dir: map<string, Profile>, active: seq<string>, n: string)
    requires LoadList(dir, active, 0, map[]).Loaded? && Reachable(IncludesOf(dir), active, n)
    ensures n in LoadList(dir, active, 0, map[]).profiles
  {
    LoadListClosed(dir, active, 0, map[], {});
    ClosedHoldsReachable(IncludesOf(dir), LoadList(dir, active, 0, map[]).profiles.Keys, active, n);
  }

  /**
   A load that is not refused holds exactly the reachable profiles, unchanged;
   a refusal names a reachable profile with a real cause. Both hold for cyclic
   and acyclic directories.
   */
  lemma {:induction false} LoadedExactly(dir: map<string, Profile>, active: seq<string>)
    ensures var r := LoadList(dir, active, 0, map[]);
            && (r.Loaded? ==> Copied(dir, r.profiles))
            && (r.Loaded? ==> forall n :: n in r.profiles <==> Reachable(IncludesOf(dir), active, n))
            && (r.Refused? ==> Reachable(IncludesOf(dir), active, r.name) && RefusalJustified(dir, active, r.name))
  {
    var r := LoadList(dir, active, 0, map[]);
    LoadSound(dir, active);
    if r.Loaded? {
      LoadListClosed(dir, active, 0, map[], {});
      forall n | Reachable(IncludesOf(dir), active, n)
        ensures n in r.profiles
      {
        LoadComplete(dir, active, n);
      }
    }
  }

  // ----- the loaded part compiles like the whole directory -----

  lemma {:induction false} VisitSame(
    dir: map<string, Profile>, got: map<string, Profile>, tools: map<string, string>, glob: Matcher, name: string,
    w: Walk)
    requires Copied(dir, got) && ClosedBut(dir, got, {}) && name in got
    ensures Visit(got, tools, glob, name, w) == Visit(dir, tools, glob, name, w)
    decreases got.Keys - w.colour.Keys, 0
  {
    if ValidProfileName(name) && name !in w.colour {
      var entered := w.(colour := w.colour[name := Grey]);
      assert name in got.Keys - w.colour.Keys && name !in got.Keys - entered.colour.Keys;
      forall m | m in got[name].includes
        ensures m in got
      {
        assert Edge(IncludesOf(dir), name, m);
      }
      VisitAllSame(dir, got, tools, glob, got[name].includes, entered);
    }
  }

  lemma {:induction false} VisitAllSame(
    dir: map<string, Profile>, got: map<string, Profile>, tools: map<string, string>, glob: Matcher, names: seq<string>,
    w: Walk)
    requires Copied(dir, got) && ClosedBut(dir, got, {}) && forall n :: n in names ==> n in got
    ensures VisitAll(got, tools, glob, names, w) == VisitAll(dir, tools, glob, names, w)
    decreases got.Keys - w.colour.Keys, 1, |names|
  {
    if names != [] {
      VisitSame(dir, got, tools, glob, names[0], w);
      var first := Visit(got, tools, glob, names[0], w);
      if first.Ok? {
        VisitAllSame(dir, got, tools, glob, names[1..], first.value);
      }
    }
  }

  /** Loading only what is reachable loses nothing: the policy, or the error, is that of the whole directory. */
  lemma {:induction false} LoadedPolicyIsDirectoryPolicy(
    dir: map<string, Profile>, active: seq<string>, tools: map<string, string>, glob: Matcher)
    requires LoadList(dir, active, 0, map[]).Loaded?
    ensures match LoadSpec(dir, active, tools, glob)
            case Ready(p) => CompileSpec(dir, active, tools, glob) == Ok(p)
            case NotCompiled(e) => CompileSpec(dir, active, tools, glob) == Err(e)
            case NotLoaded(_) => false
  {
    LoadListClosed(dir, active, 0, map[], {});
    VisitAllSame(dir, LoadList(dir, active, 0, map[]).profiles, tools, glob, active, Start);
  }
}
