/**
 The migration's walk over version 1 profiles: `activeLegacyProfiles`
 (internal/migrate/migrate_linux.go), a bounded depth-first traversal that
 refuses include cycles and reports the reachable names in sorted order.
 */
module LegacyProfiles {
  import opened IncludeGraph
  import opened Text

  const MAX_DEPTH: nat := 64
  const MAX_SEEN: nat := 128
  const MAX_BYTES: nat := 8 * 1024 * 1024

  /** A decoded version 1 profile; `rulesValid` is the verdict on its four pattern lists. */
  datatype LegacyProfile = LegacyProfile(includes: seq<string>, rulesValid: bool)
  datatype Read = Text(size: nat, decoded: Decoded) | Unreadable
  datatype Decoded = Document(profile: LegacyProfile) | Garbled
  datatype Directory = Directory(clean: bool, files: map<string, Read>)
  datatype Source = Found(size: nat, profile: LegacyProfile) | NotFound

  predicate LegacyName(name: string) {
    && 1 <= |name| <= 64
    && name[0] != '-' && name[0] != '_'
    && forall c :: c in name ==> c == '-' || c == '_' || 'a' <= c <= 'z' || 'A' <= c <= 'Z' || '0' <= c <= '9'
  }

  ghost predicate Alphanumeric(c: char) {
    'a' <= c <= 'z' || 'A' <= c <= 'Z' || '0' <= c <= '9'
  }

  /** A name starts with a letter or digit and goes on with up to 63 letters, digits, dashes and underscores. */
  lemma {:induction false} LegacyNameExactly(name: string)
    ensures LegacyName(name) <==>
              && 1 <= |name| <= 64 && Alphanumeric(name[0])
              && forall k :: 1 <= k < |name| ==> Alphanumeric(name[k]) || name[k] == '-' || name[k] == '_'
  {
    if LegacyName(name) {
      assert forall k :: 0 <= k < |name| ==> name[k] in name;
    }
  }

  /** The first directory holding the file decides; an unclean directory or failed read ends the search. */
  function Search(dirs: seq<Directory>, name: string): Source {
    if dirs == [] || !dirs[0].clean then NotFound
    else if name !in dirs[0].files then Search(dirs[1..], name)
    else match dirs[0].files[name]
      case Text(size, Document(profile)) => if profile.rulesValid then Found(size, profile) else NotFound
      case Text(_, Garbled) => NotFound
      case Unreadable => NotFound
  }

  /** No directory before position `i` holds the file, and none up to it is unclean. */
  ghost predicate FirstHolder(dirs: seq<Directory>, name: string, i: nat) {
    && i < |dirs| && (forall k :: 0 <= k < i ==> dirs[k].clean && name !in dirs[k].files)
    && dirs[i].clean && name in dirs[i].files
  }

  /** A profile is found exactly when the first directory that holds its file has it readable, decodable and valid. */
  lemma {:induction false} FoundExactly(dirs: seq<Directory>, name: string, size: nat, profile: LegacyProfile)
    ensures Search(dirs, name) == Found(size, profile) <==>
              exists i: nat :: FirstHolder(dirs, name, i) && dirs[i].files[name] == Text(size, Document(profile))
                  && profile.rulesValid
  {
    if dirs != [] && dirs[0].clean && name !in dirs[0].files {
      FoundExactly(dirs[1..], name, size, profile);
      assert forall i: nat :: FirstHolder(dirs[1..], name, i) ==> FirstHolder(dirs, name, i + 1);
      assert forall i: nat :: FirstHolder(dirs, name, i) ==> i > 0 && FirstHolder(dirs[1..], name, i - 1);
      if i: nat :| FirstHolder(dirs, name, i) && dirs[i].files[name] == Text(size, Document(profile))
                   && profile.rulesValid {
        assert dirs[1..][i - 1] == dirs[i];
      }
    } else if dirs != [] && dirs[0].clean {
      assert FirstHolder(dirs, name, 0) && forall i: nat :: FirstHolder(dirs, name, i) ==> i == 0;
    }
  }

  function Names(dirs: seq<Directory>): set<string> {
    if dirs == [] then {} else dirs[0].files.Keys + Names(dirs[1..])
  }

  function GraphOf(dirs: seq<Directory>): Graph {
    map n | n in Names(dirs) && Search(dirs, n).Found? :: Search(dirs, n).profile.includes
  }

  lemma {:induction false} FoundIsNamed(dirs: seq<Directory>, name: string)
    requires Search(dirs, name).Found?
    ensures name in Names(dirs)
  {
    if name !in dirs[0].files {
      FoundIsNamed(dirs[1..], name);
    }
  }

  datatype Scan = Scan(seen: set<string>, visiting: set<string>, bytes: nat)
  datatype Walked = Walked(scan: Scan) | Stopped

  function DepthLeft(depth: nat): nat {
    if depth > MAX_DEPTH then 0 else MAX_DEPTH + 1 - depth
  }

  /** Closing a profile once its includes are done. */
  function Leaving(name: string, below: Walked): Walked {
    match below
    case Stopped => Stopped
    case Walked(t) => Walked(Scan(t.seen + {name}, t.visiting - {name}, t.bytes))
  }

  function Visit(dirs: seq<Directory>, name: string, depth: nat, s: Scan): Walked
    decreases DepthLeft(depth), 0
  {
    if !LegacyName(name) || depth > MAX_DEPTH || name in s.visiting then Stopped
    else if name in s.seen then Walked(s)
    else if |s.seen| >= MAX_SEEN then Stopped
    else match Search(dirs, name)
      case NotFound => Stopped
      case Found(size, profile) =>
        if s.bytes + size > MAX_BYTES then Stopped
        else
          var entered := Scan(s.seen, s.visiting + {name}, s.bytes + size);
          Leaving(name, VisitAll(dirs, profile.includes, depth + 1, entered))
  }

  function VisitAll(dirs: seq<Directory>, names: seq<string>, depth: nat, s: Scan): Walked
    decreases DepthLeft(depth), 1, |names|
  {
    if names == [] then Walked(s)
    else match Visit(dirs, names[0], depth, s)
      case Stopped => Stopped
      case Walked(t) => VisitAll(dirs, names[1..], depth, t)
  }

  const Fresh := Scan({}, {}, 0)

  class Walker {
    const dirs: seq<Directory>
    var seen: set<string>
    var visiting: set<string>
    var bytesRead: nat

    constructor (dirs: seq<Directory>)
      ensures this.dirs == dirs && State() == Fresh
    {
      this.dirs, seen, visiting, bytesRead := dirs, {}, {}, 0;
    }

    function State(): Scan
      reads this
    {
      Scan(seen, visiting, bytesRead)
    }

    method VisitProfile(name: string, depth: nat) returns (ok: bool)
      modifies this
      ensures Visit(dirs, name, depth, old(State())) == if ok then Walked(State()) else Stopped
      decreases DepthLeft(depth), 1
    {
      if !LegacyName(name) || depth > MAX_DEPTH || name in visiting {
        return false;
      }
      if name in seen {
        return true;
      }
      if |seen| >= MAX_SEEN {
        return false;
      }
      var source := Locate(name);
      if source.NotFound? {
        return false;
      }
      bytesRead := bytesRead + source.size;
      if bytesRead > MAX_BYTES {
        return false;
      }
      visiting := visiting + {name};
      ok := VisitIncludes(source.profile.includes, depth);
      if !ok {
        return;
      }
      visiting := visiting - {name};
      seen := seen + {name};
    }

    method VisitIncludes(includes: seq<string>, depth: nat) returns (ok: bool)
      requires depth <= MAX_DEPTH
      modifies this
      ensures VisitAll(dirs, includes, depth + 1, old(State())) == if ok then Walked(State()) else Stopped
      decreases DepthLeft(depth), 0
    {
      var i := 0;
      while i < |includes|
        invariant 0 <= i <= |includes|
        invariant VisitAll(dirs, includes, depth + 1, old(State())) == VisitAll(dirs, includes[i..], depth + 1, State())
      {
        assert includes[i..][1..] == includes[i + 1..];
        ok := VisitProfile(includes[i], depth + 1);
        if !ok {
          return;
        }
        i := i + 1;
      }
      return true;
    }

    method Locate(name: string) returns (s: Source)
      ensures s == Search(dirs, name)
    {
      var i := 0;
      while i < |dirs|
        invariant 0 <= i <= |dirs|
        invariant Search(dirs, name) == Search(dirs[i..], name)
      {
        assert dirs[i..][1..] == dirs[i + 1..];
        if !dirs[i].clean {
          return NotFound;
        }
        if name in dirs[i].files {
          match dirs[i].files[name] {
            case Text(size, Document(profile)) =>
              if profile.rulesValid {
                return Found(size, profile);
              }
              return NotFound;
            case Text(_, Garbled) => return NotFound;
            case Unreadable => return NotFound;
          }
        }
        i := i + 1;
      }
      return NotFound;
    }
  }

  datatype Listing = Listing(names: seq<string>) | Failure

  /** The standard directory stands in for an empty list. */
  function Searched(given: seq<Directory>, standard: Directory): seq<Directory> {
    if given == [] then [standard] else given
  }

  /** What a listing promises over the directories searched. */
  ghost predicate ListedExactly(dirs: seq<Directory>, names: seq<string>, listed: seq<string>) {
    && Ascending(listed) && (forall n :: n in listed <==> Reachable(GraphOf(dirs), names, n))
    && (forall n :: n in listed ==> LegacyName(n) && Search(dirs, n).Found? && !OnCycle(GraphOf(dirs), n))
  }

  /**
   Success lists exactly the reachable names, sorted and without duplicates, and
   only for a graph whose reachable part is acyclic and entirely readable.
   */
  method ActiveLegacyProfiles(names: seq<string>, given: seq<Directory>, standard: Directory) returns (r: Listing)
    ensures r.Listing? <==> VisitAll(Searched(given, standard), names, 0, Fresh).Walked?
    ensures r.Failure? ==> Refusable(Searched(given, standard), names)
    ensures r.Listing? ==> ListedExactly(Searched(given, standard), names, r.names)
  {
    if names == [] {
      WalkedExactly(Searched(given, standard), names);
      return Listing([]);
    }
    var dirs := given;
    if |dirs| == 0 {
      dirs := [standard];
    }
    r := WalkNames(names, dirs);
  }

  /** The loop over the active names and the sorted result. */
  method WalkNames(names: seq<string>, dirs: seq<Directory>) returns (r: Listing)
    ensures r.Listing? <==> VisitAll(dirs, names, 0, Fresh).Walked?
    ensures r.Failure? ==> Refusable(dirs, names)
    ensures r.Listing? ==> ListedExactly(dirs, names, r.names)
  {
    var walker := new Walker(dirs);
    var i := 0;
    while i < |names|
      invariant 0 <= i <= |names| && walker.dirs == dirs
      invariant VisitAll(dirs, names, 0, Fresh) == VisitAll(dirs, names[i..], 0, walker.State())
    {
      assert names[i..][1..] == names[i + 1..];
      var ok := walker.VisitProfile(names[i], 0);
      if !ok {
        RefusalJustified(dirs, names);
        return Failure;
      }
      i := i + 1;
    }
    WalkedExactly(dirs, names);
    var sorted := SortNames(walker.seen);
    return Listing(sorted);
  }

  // ----- correctness of the walk -----

  /** `later` has seen exactly the profiles of `added` more than `s`, includes first. */
  ghost predicate Grown(dirs: seq<Directory>, s: Scan, later: Scan, added: seq<string>) {
    && later.visiting == s.visiting
    && (forall n :: n in later.seen <==> n in s.seen || n in added)
    && Distinct(added)
    && (forall n :: n in added ==> n !in s.seen && n !in s.visiting && LegacyName(n) && Search(dirs, n).Found?)
    && FollowsFrom(GraphOf(dirs), added, s.seen)
  }

  lemma {:induction false} VisitShape(dirs: seq<Directory>, name: string, depth: nat, s: Scan)
    returns (added: seq<string>)
    requires Visit(dirs, name, depth, s).Walked?
    ensures Grown(dirs, s, Visit(dirs, name, depth, s).scan, added)
    ensures name in added || name in s.seen
    ensures forall n :: n in added ==> Reaches(GraphOf(dirs), name, n)
    decreases DepthLeft(depth), 0
  {
    if name in s.seen {
      added := [];
    } else {
      VisitEnters(dirs, name, depth, s);
      added := EnterShape(dirs, name, depth, s);
    }
  }

  lemma {:induction false} EnterShape(dirs: seq<Directory>, name: string, depth: nat, s: Scan)
    returns (added: seq<string>)
    requires Search(dirs, name).Found? && depth <= MAX_DEPTH && LegacyName(name) && name !in s.visiting
             && name !in s.seen
    requires Inside(dirs, name, depth, s).Walked?
    ensures Grown(dirs, s, Leaving(name, Inside(dirs, name, depth, s)).scan, added)
    ensures name in added && forall n :: n in added ==> Reaches(GraphOf(dirs), name, n)
    decreases DepthLeft(depth + 1), 2
  {
    var entered := Scan(s.seen, s.visiting + {name}, s.bytes + Search(dirs, name).size);
    var inner := VisitAllShape(dirs, Search(dirs, name).profile.includes, depth + 1, entered);
    added := inner + [name];
    FoundIsNamed(dirs, name);
    GrownLeave(dirs, name, s, Inside(dirs, name, depth, s).scan, inner);
    forall n | n in added
      ensures Reaches(GraphOf(dirs), name, n)
    {
      WalkZero(GraphOf(dirs), name);
      if n in inner {
        IncludesReach(GraphOf(dirs), name, n);
      }
    }
  }

  lemma {:induction false} GrownLeave(dirs: seq<Directory>, name: string, s: Scan, below: Scan, inner: seq<string>)
    requires name !in s.seen && name !in s.visiting && LegacyName(name) && Search(dirs, name).Found?
             && name in Names(dirs)
    requires Grown(dirs, Scan(s.seen, s.visiting + {name}, s.bytes), below, inner)
    requires forall b :: b in Search(dirs, name).profile.includes ==> b in inner || b in s.seen
    ensures Grown(dirs, s, Scan(below.seen + {name}, below.visiting - {name}, below.bytes), inner + [name])
  {
    AppendOrder(GraphOf(dirs), inner, name, s.seen);
  }

  lemma {:induction false} VisitAllShape(dirs: seq<Directory>, names: seq<string>, depth: nat, s: Scan)
    returns (added: seq<string>)
    requires VisitAll(dirs, names, depth, s).Walked?
    ensures Grown(dirs, s, VisitAll(dirs, names, depth, s).scan, added)
    ensures forall n :: n in names ==> n in added || n in s.seen
    ensures forall n :: n in added ==> Reachable(GraphOf(dirs), names, n)
    decreases DepthLeft(depth), 1, |names|
  {
    if names == [] {
      added := [];
    } else {
      var mid := Visit(dirs, names[0], depth, s).scan;
      var a := VisitShape(dirs, names[0], depth, s);
      var b := VisitAllShape(dirs, names[1..], depth, mid);
      added := a + b;
      GrownJoin(dirs, s, mid, VisitAll(dirs, names, depth, s).scan, a, b);
      forall n | n in added
        ensures Reachable(GraphOf(dirs), names, n)
      {
      }
      assert forall n :: n in names ==> n == names[0] || n in names[1..];
    }
  }

  lemma {:induction false} GrownJoin(
    dirs: seq<Directory>, s: Scan, mid: Scan, later: Scan, a: seq<string>, b: seq<string>)
    requires Grown(dirs, s, mid, a) && Grown(dirs, mid, later, b)
    ensures Grown(dirs, s, later, a + b)
  {
    JoinOrders(GraphOf(dirs), a, b, s.seen, mid.seen);
  }

  lemma {:induction false} WalkedExactly(dirs: seq<Directory>, names: seq<string>)
    requires VisitAll(dirs, names, 0, Fresh).Walked?
    ensures var seen := VisitAll(dirs, names, 0, Fresh).scan.seen;
            && (forall n :: n in seen <==> Reachable(GraphOf(dirs), names, n))
            && (forall n :: n in seen ==> LegacyName(n) && Search(dirs, n).Found? && !OnCycle(GraphOf(dirs), n))
  {
    var g, seen := GraphOf(dirs), VisitAll(dirs, names, 0, Fresh).scan.seen;
    var order := VisitAllShape(dirs, names, 0, Fresh);
    assert IncludesFirst(g, order);
    forall n | n in seen
      ensures !OnCycle(g, n)
    {
      OrderedAcyclic(g, order, n);
    }
    OrderHoldsReachable(g, order, seen, names);
  }

  lemma {:induction false} OrderHoldsReachable(g: Graph, order: seq<string>, seen: set<string>, names: seq<string>)
    requires IncludesFirst(g, order) && (forall n :: n in seen <==> n in order) && forall n :: n in names ==> n in seen
    ensures forall n :: Reachable(g, names, n) ==> n in seen
  {
    OrderClosed(g, order, seen);
    forall n | Reachable(g, names, n)
      ensures n in seen
    {
      ClosedHoldsReachable(g, seen, names, n);
    }
  }

  /** An order that lists includes first is closed under them. */
  lemma {:induction false} OrderClosed(g: Graph, order: seq<string>, names: set<string>)
    requires IncludesFirst(g, order) && forall n :: n in names <==> n in order
    ensures Closed(g, names)
  {
    forall a, b | a in names && Edge(g, a, b)
      ensures b in names
    {
      var i :| 0 <= i < |order| && order[i] == a;
      assert ListedBefore(order, i, b);
    }
  }

  // ----- every refusal has a cause in the directories -----

  ghost predicate AtDepth(dirs: seq<Directory>, roots: seq<string>, name: string, depth: nat) {
    exists r :: r in roots && Walks(GraphOf(dirs), r, name, depth)
  }

  ghost predicate Faulty(dirs: seq<Directory>, roots: seq<string>, n: string) {
    && Reachable(GraphOf(dirs), roots, n)
    && (|| !LegacyName(n) || Search(dirs, n).NotFound? || OnCycle(GraphOf(dirs), n)
        || exists depth: nat :: depth > 64 && AtDepth(dirs, roots, n, depth))
  }

  function TotalSize(dirs: seq<Directory>, read: seq<string>): nat {
    if read == [] then 0
    else
      var last := Search(dirs, read[|read| - 1]);
      TotalSize(dirs, read[..|read| - 1]) + if last.Found? then last.size else 0
  }

  /** Distinct reachable profiles. */
  ghost predicate ReadList(dirs: seq<Directory>, roots: seq<string>, read: seq<string>) {
    Distinct(read) && forall n :: n in read ==> Reachable(GraphOf(dirs), roots, n)
  }

  ghost predicate TooMuch(dirs: seq<Directory>, roots: seq<string>, read: seq<string>) {
    ReadList(dirs, roots, read) && (|read| > 128 || TotalSize(dirs, read) > 8388608)
  }

  /** Some reachable profile is at fault, or the reachable profiles together exceed a limit. */
  ghost predicate Refusable(dirs: seq<Directory>, roots: seq<string>) {
    (exists n :: Faulty(dirs, roots, n)) || (exists read :: TooMuch(dirs, roots, read))
  }

  /** `read` lists what the scan has opened, and the scan's byte count is theirs. */
  ghost predicate Tracked(dirs: seq<Directory>, roots: seq<string>, s: Scan, read: seq<string>) {
    && ReadList(dirs, roots, read) && TotalSize(dirs, read) == s.bytes
    && forall n :: n in read <==> n in s.seen || n in s.visiting
  }

  /** Every profile still open leads to `name`. */
  ghost predicate OpenLeadTo(dirs: seq<Directory>, open: set<string>, name: string) {
    forall v :: v in open ==> ReachesOnward(GraphOf(dirs), v, name)
  }

  lemma {:induction false} CoveredSet(names: set<string>, s: seq<string>)
    requires forall n :: n in names ==> n in s
    ensures |names| <= |s|
  {
    if s == [] {
      assert names == {};
    } else {
      var k := |s| - 1;
      CoveredSet(names - {s[k]}, s[..k]);
    }
  }

  lemma {:induction false} OpenedLeads(
    dirs: seq<Directory>, roots: seq<string>, name: string, depth: nat, open: set<string>)
    requires AtDepth(dirs, roots, name, depth) && OpenLeadTo(dirs, open, name) && Search(dirs, name).Found?
    ensures forall b :: b in Search(dirs, name).profile.includes ==>
              AtDepth(dirs, roots, b, depth + 1) && OpenLeadTo(dirs, open + {name}, b)
  {
    var g := GraphOf(dirs);
    FoundIsNamed(dirs, name);
    var r :| r in roots && Walks(g, r, name, depth);
    WalkZero(g, name);
    forall b | b in Search(dirs, name).profile.includes
      ensures AtDepth(dirs, roots, b, depth + 1) && OpenLeadTo(dirs, open + {name}, b)
    {
      WalkStep(g, r, name, b, depth);
      ReachStep(g, name, name, b);
      forall v | v in open
        ensures ReachesOnward(g, v, b)
      {
        ReachStep(g, v, name, b);
      }
    }
  }

  /** A walk stopped only for a cause, or left the open set as it was and the bytes accounted for. */
  ghost predicate Caused(dirs: seq<Directory>, roots: seq<string>, r: Walked, open: set<string>, read: seq<string>) {
    match r
    case Stopped => Refusable(dirs, roots)
    case Walked(t) => t.visiting == open && Tracked(dirs, roots, t, read)
  }

  lemma {:induction false} DeepReachable(dirs: seq<Directory>, roots: seq<string>, name: string, depth: nat)
    requires AtDepth(dirs, roots, name, depth)
    ensures Reachable(GraphOf(dirs), roots, name)
  {
    var r :| r in roots && Walks(GraphOf(dirs), r, name, depth);
    assert Reaches(GraphOf(dirs), r, name);
  }

  lemma {:induction false} FaultyName(
    dirs: seq<Directory>, roots: seq<string>, name: string, depth: nat, open: set<string>)
    requires AtDepth(dirs, roots, name, depth) && OpenLeadTo(dirs, open, name)
    requires !LegacyName(name) || depth > MAX_DEPTH || name in open || Search(dirs, name).NotFound?
    ensures Refusable(dirs, roots)
  {
    DeepReachable(dirs, roots, name, depth);
    assert Faulty(dirs, roots, name);
  }

  lemma {:induction false} ReadOneMore(dirs: seq<Directory>, roots: seq<string>, name: string, read: seq<string>)
    requires ReadList(dirs, roots, read) && name !in read && Reachable(GraphOf(dirs), roots, name)
    requires Search(dirs, name).Found?
    ensures ReadList(dirs, roots, read + [name])
    ensures TotalSize(dirs, read + [name]) == TotalSize(dirs, read) + Search(dirs, name).size
    ensures forall n :: n in read + [name] <==> n in read || n == name
  {
    assert (read + [name])[..|read|] == read;
  }

  /** Opening a new profile keeps the account, and a limit it breaks is really exceeded. */
  lemma {:induction false} EnterTracked(
    dirs: seq<Directory>, roots: seq<string>, name: string, depth: nat, s: Scan, read: seq<string>)
    requires AtDepth(dirs, roots, name, depth) && Tracked(dirs, roots, s, read)
    requires Search(dirs, name).Found? && name !in s.seen && name !in s.visiting
    ensures Tracked(dirs, roots, Scan(s.seen, s.visiting + {name}, s.bytes + Search(dirs, name).size), read + [name])
    ensures |s.seen| >= MAX_SEEN || s.bytes + Search(dirs, name).size > MAX_BYTES ==> Refusable(dirs, roots)
  {
    DeepReachable(dirs, roots, name, depth);
    ReadOneMore(dirs, roots, name, read);
    CoveredSet(s.seen, read);
    assert |s.seen| >= MAX_SEEN || s.bytes + Search(dirs, name).size > MAX_BYTES ==>
             TooMuch(dirs, roots, read + [name]);
  }

  lemma {:induction false} VisitCause(
    dirs: seq<Directory>, roots: seq<string>, name: string, depth: nat, s: Scan, read: seq<string>)
    returns (later: seq<string>)
    requires AtDepth(dirs, roots, name, depth) && Tracked(dirs, roots, s, read) && OpenLeadTo(dirs, s.visiting, name)
    ensures Caused(dirs, roots, Visit(dirs, name, depth, s), s.visiting, later)
    decreases DepthLeft(depth), 0
  {
    later := read;
    var source := Search(dirs, name);
    if !LegacyName(name) || depth > MAX_DEPTH || name in s.visiting {
      FaultyName(dirs, roots, name, depth, s.visiting);
    } else if name !in s.seen {
      if source.NotFound? {
        FaultyName(dirs, roots, name, depth, s.visiting);
        return;
      }
      EnterTracked(dirs, roots, name, depth, s, read);
      if |s.seen| < MAX_SEEN && s.bytes + source.size <= MAX_BYTES {
        later := EnterCause(dirs, roots, name, depth, s, read);
        VisitEnters(dirs, name, depth, s);
      }
    }
  }

  /** The walk over the includes of an opened profile. */
  function Inside(dirs: seq<Directory>, name: string, depth: nat, s: Scan): Walked
    requires Search(dirs, name).Found? && depth <= MAX_DEPTH
  {
    var entered := Scan(s.seen, s.visiting + {name}, s.bytes + Search(dirs, name).size);
    VisitAll(dirs, Search(dirs, name).profile.includes, depth + 1, entered)
  }

  lemma {:induction false} VisitEnters(dirs: seq<Directory>, name: string, depth: nat, s: Scan)
    requires LegacyName(name) && depth <= MAX_DEPTH && name !in s.visiting && name !in s.seen
             && Search(dirs, name).Found?
    requires |s.seen| < MAX_SEEN && s.bytes + Search(dirs, name).size <= MAX_BYTES
    ensures Visit(dirs, name, depth, s) == Leaving(name, Inside(dirs, name, depth, s))
  {
  }

  lemma {:induction false} EnterCause(
    dirs: seq<Directory>, roots: seq<string>, name: string, depth: nat, s: Scan, read: seq<string>)
    returns (later: seq<string>)
    requires AtDepth(dirs, roots, name, depth) && OpenLeadTo(dirs, s.visiting, name) && Search(dirs, name).Found?
    requires depth <= MAX_DEPTH && name !in s.visiting
    requires Tracked(dirs, roots, Scan(s.seen, s.visiting + {name}, s.bytes + Search(dirs, name).size), read + [name])
    ensures Caused(dirs, roots, Leaving(name, Inside(dirs, name, depth, s)), s.visiting, later)
    decreases DepthLeft(depth + 1), 2
  {
    var entered := Scan(s.seen, s.visiting + {name}, s.bytes + Search(dirs, name).size);
    OpenedLeads(dirs, roots, name, depth, s.visiting);
    later := VisitAllCause(dirs, roots, Search(dirs, name).profile.includes, depth + 1, entered, read + [name]);
  }

  lemma {:induction false} VisitAllCause(
    dirs: seq<Directory>, roots: seq<string>, names: seq<string>, depth: nat, s: Scan, read: seq<string>)
    returns (later: seq<string>)
    requires Tracked(dirs, roots, s, read)
    requires forall n :: n in names ==> AtDepth(dirs, roots, n, depth) && OpenLeadTo(dirs, s.visiting, n)
    ensures Caused(dirs, roots, VisitAll(dirs, names, depth, s), s.visiting, later)
    decreases DepthLeft(depth), 1, |names|
  {
    later := read;
    if names != [] {
      later := VisitCause(dirs, roots, names[0], depth, s, read);
      var first := Visit(dirs, names[0], depth, s);
      if first.Walked? {
        assert first.scan.visiting == s.visiting;
        later := VisitAllCause(dirs, roots, names[1..], depth, first.scan, later);
      }
    }
  }

  /** The walk refuses only directories with a faulty reachable profile or too much to read. */
  lemma {:induction false} RefusalJustified(dirs: seq<Directory>, names: seq<string>)
    requires VisitAll(dirs, names, 0, Fresh).Stopped?
    ensures Refusable(dirs, names)
  {
    forall n | n in names
      ensures AtDepth(dirs, names, n, 0)
    {
      WalkZero(GraphOf(dirs), n);
    }
    var _ := VisitAllCause(dirs, names, names, 0, Fresh, []);
  }

  // ----- a completed walk keeps within the limits -----

  ghost predicate Shallow(dirs: seq<Directory>, roots: seq<string>, n: string) {
    exists depth: nat :: depth <= 64 && AtDepth(dirs, roots, n, depth)
  }

  /**
   The account of a scan at this depth. Only closed profiles count against the limit of
   128, and up to 65 may be open when the last one passes that test.
   */
  ghost predicate Within(dirs: seq<Directory>, roots: seq<string>, s: Scan, depth: nat) {
    && s.bytes <= 8388608 && |s.seen| + |s.visiting| <= 192 && |s.visiting| <= depth
    && forall n :: n in s.seen ==> Shallow(dirs, roots, n)
  }

  lemma {:induction false} VisitWithin(
    dirs: seq<Directory>, roots: seq<string>, name: string, depth: nat, s: Scan)
    requires Within(dirs, roots, s, depth) && AtDepth(dirs, roots, name, depth) && Visit(dirs, name, depth, s).Walked?
    ensures Within(dirs, roots, Visit(dirs, name, depth, s).scan, depth)
    ensures Visit(dirs, name, depth, s).scan.visiting == s.visiting
    decreases DepthLeft(depth), 0
  {
    if name !in s.seen {
      VisitEnters(dirs, name, depth, s);
      EnterWithin(dirs, roots, name, depth, s);
    }
  }

  lemma {:induction false} EnterWithin(
    dirs: seq<Directory>, roots: seq<string>, name: string, depth: nat, s: Scan)
    requires Within(dirs, roots, s, depth) && AtDepth(dirs, roots, name, depth) && Search(dirs, name).Found?
    requires depth <= 64 && name !in s.visiting && |s.seen| < 128 && s.bytes + Search(dirs, name).size <= 8388608
    requires Inside(dirs, name, depth, s).Walked?
    ensures Within(dirs, roots, Leaving(name, Inside(dirs, name, depth, s)).scan, depth)
    ensures Leaving(name, Inside(dirs, name, depth, s)).scan.visiting == s.visiting
    decreases DepthLeft(depth + 1), 2
  {
    var entered := Scan(s.seen, s.visiting + {name}, s.bytes + Search(dirs, name).size);
    DeeperBy(dirs, roots, name, depth);
    VisitAllWithin(dirs, roots, Search(dirs, name).profile.includes, depth + 1, entered);
    assert Shallow(dirs, roots, name);
    Closing(name, s, Inside(dirs, name, depth, s).scan);
  }

  lemma {:induction false} DeeperBy(dirs: seq<Directory>, roots: seq<string>, name: string, depth: nat)
    requires AtDepth(dirs, roots, name, depth) && Search(dirs, name).Found?
    ensures forall b :: b in Search(dirs, name).profile.includes ==> AtDepth(dirs, roots, b, depth + 1)
  {
    FoundIsNamed(dirs, name);
    var r :| r in roots && Walks(GraphOf(dirs), r, name, depth);
    forall b | b in Search(dirs, name).profile.includes
      ensures AtDepth(dirs, roots, b, depth + 1)
    {
      WalkStep(GraphOf(dirs), r, name, b, depth);
    }
  }

  lemma {:induction false} Closing(name: string, s: Scan, below: Scan)
    requires name !in s.visiting && below.visiting == s.visiting + {name}
    ensures |below.seen + {name}| + |below.visiting - {name}| <= |below.seen| + |below.visiting|
    ensures below.visiting - {name} == s.visiting
  {
  }

  lemma {:induction false} VisitAllWithin(
    dirs: seq<Directory>, roots: seq<string>, names: seq<string>, depth: nat, s: Scan)
    requires Within(dirs, roots, s, depth) && (forall n :: n in names ==> AtDepth(dirs, roots, n, depth))
    requires VisitAll(dirs, names, depth, s).Walked?
    ensures Within(dirs, roots, VisitAll(dirs, names, depth, s).scan, depth)
    ensures VisitAll(dirs, names, depth, s).scan.visiting == s.visiting
    decreases DepthLeft(depth), 1, |names|
  {
    if names != [] {
      VisitWithin(dirs, roots, names[0], depth, s);
      VisitAllWithin(dirs, roots, names[1..], depth, Visit(dirs, names[0], depth, s).scan);
    }
  }

  /** A completed walk has read at most 8 MiB in at most 192 profiles, each at most 64 includes deep. */
  lemma {:induction false} WalkedWithinLimits(dirs: seq<Directory>, names: seq<string>) returns (read: seq<string>)
    requires VisitAll(dirs, names, 0, Fresh).Walked?
    ensures Distinct(read) && |read| <= 192 && TotalSize(dirs, read) <= 8388608
    ensures forall n :: n in read <==> Reachable(GraphOf(dirs), names, n)
    ensures forall n :: n in read ==> Shallow(dirs, names, n)
  {
    forall n | n in names
      ensures AtDepth(dirs, names, n, 0)
    {
      WalkZero(GraphOf(dirs), n);
    }
    read := VisitAllCause(dirs, names, names, 0, Fresh, []);
    VisitAllWithin(dirs, names, names, 0, Fresh);
    WalkedExactly(dirs, names);
    DistinctCovered(read, VisitAll(dirs, names, 0, Fresh).scan.seen);
  }

  lemma {:induction false} DistinctCovered(read: seq<string>, names: set<string>)
    requires Distinct(read) && forall n :: n in read ==> n in names
    ensures |read| <= |names|
  {
    if read != [] {
      var k := |read| - 1;
      DistinctCovered(read[..k], names - {read[k]});
    }
  }
}
