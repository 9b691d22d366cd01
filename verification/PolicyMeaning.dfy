/**
 What compilation means, stated over the include graph and never over the walk:
 when it succeeds, which rule lists it yields, and why it fails.
 */
module PolicyMeaning {
  import opened Text
  import opened IncludeGraph
  import opened Policy

  function IncludesOf(ps: map<string, Profile>): Graph {
    map n | n in ps :: ps[n].includes
  }

  predicate GoodRules(p: Profile, tools: map<string, string>, glob: Matcher) {
    && (forall r :: r in p.allow ==> ValidRule(r, tools, glob) && !BroadRepair(r))
    && (forall r :: r in p.deny ==> ValidRule(r, tools, glob))
  }

  predicate SoundProfile(ps: map<string, Profile>, tools: map<string, string>, glob: Matcher, n: string) {
    ValidProfileName(n) && n in ps && GoodRules(ps[n], tools, glob)
  }

  /** The condition for compilation, in terms of the graph alone. */
  ghost predicate Compilable(ps: map<string, Profile>, active: seq<string>, tools: map<string, string>, glob: Matcher) {
    forall n :: Reachable(IncludesOf(ps), active, n) ==>
      SoundProfile(ps, tools, glob, n) && !OnCycle(IncludesOf(ps), n)
  }

  /** The rules of a list that belong to one key, in order. */
  function Keyed(rules: seq<Rule>, key: RuleKey): seq<Rule> {
    if rules == [] then []
    else (if KeyOf(rules[0]) == key then [rules[0]] else []) + Keyed(rules[1..], key)
  }

  /** Each profile's own allow (deny) list. */
  function AllowLists(ps: map<string, Profile>): map<string, seq<Rule>> {
    map n | n in ps :: ps[n].allow
  }

  function DenyLists(ps: map<string, Profile>): map<string, seq<Rule>> {
    map n | n in ps :: ps[n].deny
  }

  /** The rules for one key, profile by profile in the given order. */
  function Gather(lists: map<string, seq<Rule>>, order: seq<string>, key: RuleKey): seq<Rule> {
    if order == [] then []
    else (if order[0] in lists then Keyed(lists[order[0]], key) else []) + Gather(lists, order[1..], key)
  }

  lemma {:induction false} GatherAppend(lists: map<string, seq<Rule>>, a: seq<string>, b: seq<string>, key: RuleKey)
    ensures Gather(lists, a + b, key) == Gather(lists, a, key) + Gather(lists, b, key)
  {
    if a == [] {
      assert a + b == b;
    } else {
      assert (a + b)[1..] == a[1..] + b;
      GatherAppend(lists, a[1..], b, key);
    }
  }

  lemma {:induction false} AddAllowsShape(
    name: string, rules: seq<Rule>, tools: map<string, string>, glob: Matcher, m: RuleMap, key: RuleKey)
    ensures var r := AddAllows(name, rules, tools, glob, m);
            && (r.Ok? <==> forall x :: x in rules ==> ValidRule(x, tools, glob) && !BroadRepair(x))
            && (r.Ok? ==> RulesAt(r.value, key) == RulesAt(m, key) + Keyed(rules, key))
            && (r.Err? ==>
                  r.error.profile == name && (r.error.reason == BadAllowRule || r.error.reason == BroadRepairGrant))
  {
    if rules != [] {
      assert forall x :: x in rules <==> x == rules[0] || x in rules[1..];
      if ValidRule(rules[0], tools, glob) && !BroadRepair(rules[0]) {
        AddAllowsShape(name, rules[1..], tools, glob, File(m, rules[0]), key);
      } else {
        assert rules[0] in rules;
      }
    }
  }

  lemma {:induction false} AddDeniesShape(
    name: string, rules: seq<Rule>, tools: map<string, string>, glob: Matcher, m: RuleMap, key: RuleKey)
    ensures var r := AddDenies(name, rules, tools, glob, m);
            && (r.Ok? <==> forall x :: x in rules ==> ValidRule(x, tools, glob))
            && (r.Ok? ==> RulesAt(r.value, key) == RulesAt(m, key) + Keyed(rules, key))
            && (r.Err? ==> r.error == CompileError(name, BadDenyRule))
  {
    if rules != [] {
      assert forall x :: x in rules <==> x == rules[0] || x in rules[1..];
      if ValidRule(rules[0], tools, glob) {
        AddDeniesShape(name, rules[1..], tools, glob, File(m, rules[0]), key);
      } else {
        assert rules[0] in rules;
      }
    }
  }

  ghost predicate Finished(w: Walk, n: string) {
    n in w.colour && w.colour[n] == Black
  }

  ghost function FinishedSet(w: Walk): set<string> {
    set n | n in w.colour && w.colour[n] == Black
  }

  /** `later` has coloured black exactly the profiles of `added`, includes first. */
  ghost predicate Blackened(
    ps: map<string, Profile>, tools: map<string, string>, glob: Matcher, w: Walk, later: Walk, added: seq<string>) {
    && (forall n :: n in later.colour <==> n in w.colour || n in added)
    && (forall n :: n in later.colour ==> later.colour[n] == if n in added then Black else w.colour[n])
    && Distinct(added)
    && (forall n :: n in added ==> n !in w.colour && SoundProfile(ps, tools, glob, n))
    && FollowsFrom(IncludesOf(ps), added, FinishedSet(w))
  }

  ghost predicate CollectedAt(
    lists: map<string, seq<Rule>>, m: RuleMap, later: RuleMap, added: seq<string>, key: RuleKey) {
    RulesAt(later, key) == RulesAt(m, key) + Gather(lists, added, key)
  }

  /** `later` is `m` with exactly the rules of the profiles of `added`, in that order. */
  ghost predicate Collected(lists: map<string, seq<Rule>>, m: RuleMap, later: RuleMap, added: seq<string>) {
    forall key :: CollectedAt(lists, m, later, added, key)
  }

  ghost predicate Extended(
    ps: map<string, Profile>, tools: map<string, string>, glob: Matcher, w: Walk, later: Walk, added: seq<string>) {
    && Blackened(ps, tools, glob, w, later, added)
    && Collected(AllowLists(ps), w.allow, later.allow, added)
    && Collected(DenyLists(ps), w.deny, later.deny, added)
  }

  lemma {:induction false} VisitShape(
    ps: map<string, Profile>, tools: map<string, string>, glob: Matcher, name: string, w: Walk)
    returns (added: seq<string>)
    requires Visit(ps, tools, glob, name, w).Ok?
    ensures Extended(ps, tools, glob, w, Visit(ps, tools, glob, name, w).value, added)
    ensures name in added || Finished(w, name)
    ensures forall n :: n in added ==> Reaches(IncludesOf(ps), name, n)
    decreases ps.Keys - w.colour.Keys, 0
  {
    if name in w.colour {
      added := [];
    } else {
      var g, p := IncludesOf(ps), ps[name];
      var entered := w.(colour := w.colour[name := Grey]);
      assert name in ps.Keys - w.colour.Keys && name !in ps.Keys - entered.colour.Keys;
      var below := VisitAll(ps, tools, glob, p.includes, entered).value;
      var inner := VisitAllShape(ps, tools, glob, p.includes, entered);
      added := inner + [name];
      var later := Visit(ps, tools, glob, name, w).value;
      CollectedLeave(ps, tools, glob, name, w, below, later, inner);
      BlackenedLeave(ps, tools, glob, name, w, below, later, inner);
      forall n | n in added
        ensures Reaches(g, name, n)
      {
        WalkZero(g, name);
        if n in inner {
          IncludesReach(g, name, n);
        }
      }
    }
  }

  /** Leaving a profile whose includes are finished appends it to the finishing order. */
  lemma {:induction false} BlackenedLeave(
    ps: map<string, Profile>, tools: map<string, string>, glob: Matcher, name: string, w: Walk, below: Walk,
    later: Walk, inner: seq<string>)
    requires SoundProfile(ps, tools, glob, name) && name !in w.colour
    requires Blackened(ps, tools, glob, w.(colour := w.colour[name := Grey]), below, inner)
    requires forall b :: b in ps[name].includes ==> b in inner || Finished(w.(colour := w.colour[name := Grey]), b)
    requires later.colour == below.colour[name := Black]
    ensures Blackened(ps, tools, glob, w, later, inner + [name])
  {
    assert FinishedSet(w.(colour := w.colour[name := Grey])) == FinishedSet(w);
    AppendOrder(IncludesOf(ps), inner, name, FinishedSet(w));
  }

  lemma {:induction false} CollectedLeave(
    ps: map<string, Profile>, tools: map<string, string>, glob: Matcher, name: string, w: Walk, below: Walk,
    later: Walk, inner: seq<string>)
    requires name in ps
    requires Collected(AllowLists(ps), w.allow, below.allow, inner)
             && Collected(DenyLists(ps), w.deny, below.deny, inner)
    requires AddAllows(name, ps[name].allow, tools, glob, below.allow) == Ok(later.allow)
    requires AddDenies(name, ps[name].deny, tools, glob, below.deny) == Ok(later.deny)
    ensures Collected(AllowLists(ps), w.allow, later.allow, inner + [name])
    ensures Collected(DenyLists(ps), w.deny, later.deny, inner + [name])
    ensures GoodRules(ps[name], tools, glob)
  {
    forall key
      ensures CollectedAt(AllowLists(ps), below.allow, later.allow, [name], key)
      ensures CollectedAt(DenyLists(ps), below.deny, later.deny, [name], key)
    {
      AddAllowsShape(name, ps[name].allow, tools, glob, below.allow, key);
      AddDeniesShape(name, ps[name].deny, tools, glob, below.deny, key);
      assert [name][1..] == [];
    }
    CollectedJoin(AllowLists(ps), w.allow, below.allow, later.allow, inner, [name]);
    CollectedJoin(DenyLists(ps), w.deny, below.deny, later.deny, inner, [name]);
    AddAllowsShape(name, ps[name].allow, tools, glob, below.allow, RuleKey("", ""));
    AddDeniesShape(name, ps[name].deny, tools, glob, below.deny, RuleKey("", ""));
  }

  lemma {:induction false} VisitAllShape(
    ps: map<string, Profile>, tools: map<string, string>, glob: Matcher, names: seq<string>, w: Walk)
    returns (added: seq<string>)
    requires VisitAll(ps, tools, glob, names, w).Ok?
    ensures Extended(ps, tools, glob, w, VisitAll(ps, tools, glob, names, w).value, added)
    ensures forall n :: n in names ==> n in added || Finished(w, n)
    ensures forall n :: n in added ==> Reachable(IncludesOf(ps), names, n)
    decreases ps.Keys - w.colour.Keys, 1, |names|
  {
    if names == [] {
      added := [];
    } else {
      var first := Visit(ps, tools, glob, names[0], w).value;
      var a := VisitShape(ps, tools, glob, names[0], w);
      var b := VisitAllShape(ps, tools, glob, names[1..], first);
      added := a + b;
      var later := VisitAll(ps, tools, glob, names, w).value;
      ExtendedJoin(ps, tools, glob, w, first, later, a, b);
      forall n | n in added
        ensures Reachable(IncludesOf(ps), names, n)
      {
      }
      forall n | n in names
        ensures n in added || Finished(w, n)
      {
        assert n == names[0] || n in names[1..];
      }
    }
  }

  lemma {:induction false} ExtendedJoin(
    ps: map<string, Profile>, tools: map<string, string>, glob: Matcher, w: Walk, mid: Walk, later: Walk,
    a: seq<string>, b: seq<string>)
    requires Extended(ps, tools, glob, w, mid, a) && Extended(ps, tools, glob, mid, later, b)
    ensures Extended(ps, tools, glob, w, later, a + b)
  {
    BlackenedJoin(ps, tools, glob, w, mid, later, a, b);
    CollectedJoin(AllowLists(ps), w.allow, mid.allow, later.allow, a, b);
    CollectedJoin(DenyLists(ps), w.deny, mid.deny, later.deny, a, b);
  }

  lemma {:induction false} BlackenedJoin(
    ps: map<string, Profile>, tools: map<string, string>, glob: Matcher, w: Walk, mid: Walk, later: Walk,
    a: seq<string>, b: seq<string>)
    requires Blackened(ps, tools, glob, w, mid, a) && Blackened(ps, tools, glob, mid, later, b)
    ensures Blackened(ps, tools, glob, w, later, a + b)
  {
    JoinOrders(IncludesOf(ps), a, b, FinishedSet(w), FinishedSet(mid));
  }

  lemma {:induction false} CollectedJoin(
    lists: map<string, seq<Rule>>, m: RuleMap, mid: RuleMap, later: RuleMap, a: seq<string>, b: seq<string>)
    requires Collected(lists, m, mid, a) && Collected(lists, mid, later, b)
    ensures Collected(lists, m, later, a + b)
  {
    forall key
      ensures CollectedAt(lists, m, later, a + b, key)
    {
      CollectedJoinAt(lists, m, mid, later, a, b, key);
    }
  }

  lemma {:induction false} CollectedJoinAt(
    lists: map<string, seq<Rule>>, m: RuleMap, mid: RuleMap, later: RuleMap, a: seq<string>, b: seq<string>,
    key: RuleKey)
    requires CollectedAt(lists, m, mid, a, key) && CollectedAt(lists, mid, later, b, key)
    ensures CollectedAt(lists, m, later, a + b, key)
  {
    GatherAppend(lists, a, b, key);
  }

  /** Why an error is right: its profile really has the reported fault. */
  ghost predicate Justified(ps: map<string, Profile>, tools: map<string, string>, glob: Matcher, e: CompileError) {
    match e.reason
    case InvalidName => !ValidProfileName(e.profile)
    case MissingProfile => e.profile !in ps
    case IncludeCycle => OnCycle(IncludesOf(ps), e.profile)
    case _ => e.profile in ps && !GoodRules(ps[e.profile], tools, glob)
  }

  /** Every profile still being visited leads on to `n`. */
  ghost predicate GreyLeadTo(ps: map<string, Profile>, w: Walk, n: string) {
    forall a :: a in w.colour && w.colour[a] == Grey ==> ReachesOnward(IncludesOf(ps), a, n)
  }

  lemma {:induction false} VisitError(
    ps: map<string, Profile>, tools: map<string, string>, glob: Matcher, name: string, w: Walk)
    requires Visit(ps, tools, glob, name, w).Err?
    requires GreyLeadTo(ps, w, name)
    ensures var e := Visit(ps, tools, glob, name, w).error;
            Justified(ps, tools, glob, e) && Reaches(IncludesOf(ps), name, e.profile)
    decreases ps.Keys - w.colour.Keys, 0
  {
    var g := IncludesOf(ps);
    WalkZero(g, name);
    if ValidProfileName(name) && name !in w.colour && name in ps {
      var p := ps[name];
      var entered := w.(colour := w.colour[name := Grey]);
      assert name in ps.Keys - w.colour.Keys && name !in ps.Keys - entered.colour.Keys;
      forall m | m in p.includes
        ensures GreyLeadTo(ps, entered, m)
      {
        forall a | a in entered.colour && entered.colour[a] == Grey
          ensures ReachesOnward(g, a, m)
        {
          assert Edge(g, name, m);
          if a == name {
            WalkStep(g, name, name, m, 0);
          } else {
            ReachStep(g, a, name, m);
          }
        }
      }
      var inner := VisitAll(ps, tools, glob, p.includes, entered);
      if inner.Err? {
        VisitAllError(ps, tools, glob, p.includes, entered);
        var b :| b in p.includes && Reaches(g, b, inner.error.profile);
        EdgeReaches(g, name, b, inner.error.profile);
      } else {
        AddAllowsShape(name, p.allow, tools, glob, inner.value.allow, RuleKey("", ""));
        AddDeniesShape(name, p.deny, tools, glob, inner.value.deny, RuleKey("", ""));
      }
    }
  }

  lemma {:induction false} VisitAllError(
    ps: map<string, Profile>, tools: map<string, string>, glob: Matcher, names: seq<string>, w: Walk)
    requires VisitAll(ps, tools, glob, names, w).Err?
    requires forall n :: n in names ==> GreyLeadTo(ps, w, n)
    ensures var e := VisitAll(ps, tools, glob, names, w).error;
            Justified(ps, tools, glob, e) && Reachable(IncludesOf(ps), names, e.profile)
    decreases ps.Keys - w.colour.Keys, 1, |names|
  {
    assert names[0] in names;
    var first := Visit(ps, tools, glob, names[0], w);
    if first.Err? {
      VisitError(ps, tools, glob, names[0], w);
    } else {
      var added := VisitShape(ps, tools, glob, names[0], w);
      forall n | n in names[1..]
        ensures n in names && GreyLeadTo(ps, first.value, n)
      {
        assert forall a :: a in first.value.colour && first.value.colour[a] == Grey ==>
                 a in w.colour && w.colour[a] == Grey;
      }
      VisitAllError(ps, tools, glob, names[1..], first.value);
      var e := VisitAll(ps, tools, glob, names, w).error;
      ReachableFromMore(IncludesOf(ps), names[1..], names, e.profile);
    }
  }

  /** `order` lists each reachable profile once, includes before includers. */
  ghost predicate FinishingOrder(ps: map<string, Profile>, active: seq<string>, order: seq<string>) {
    && Distinct(order)
    && IncludesFirst(IncludesOf(ps), order)
    && (forall n :: n in order <==> Reachable(IncludesOf(ps), active, n))
  }

  /** Each keyed list is the concatenation, over `order`, of each profile's own rules for the key. */
  ghost predicate CollectedIn(ps: map<string, Profile>, order: seq<string>, p: Policy) {
    forall key ::
      && RulesAt(p.allow, key) == Gather(AllowLists(ps), order, key)
      && RulesAt(p.deny, key) == Gather(DenyLists(ps), order, key)
  }

  lemma {:induction false} StartToFinish(
    ps: map<string, Profile>, active: seq<string>, tools: map<string, string>, glob: Matcher, done: Walk,
    order: seq<string>)
    requires Blackened(ps, tools, glob, Start, done, order)
    requires forall n :: n in active ==> n in order || Finished(Start, n)
    requires forall n :: n in order ==> Reachable(IncludesOf(ps), active, n)
    ensures FinishingOrder(ps, active, order)
  {
    var g, reached := IncludesOf(ps), set n | n in order;
    assert IncludesFirst(g, order);
    forall a, b | a in reached && Edge(g, a, b)
      ensures b in reached
    {
      var i :| 0 <= i < |order| && order[i] == a;
      assert ListedBefore(order, i, b);
    }
    forall n | Reachable(g, active, n)
      ensures n in order
    {
      ClosedHoldsReachable(g, reached, active, n);
    }
  }

  lemma {:induction false} CollectedFromNothing(lists: map<string, seq<Rule>>, later: RuleMap, order: seq<string>)
    requires Collected(lists, map[], later, order)
    ensures forall key :: RulesAt(later, key) == Gather(lists, order, key)
  {
    forall key
      ensures RulesAt(later, key) == Gather(lists, order, key)
    {
      assert CollectedAt(lists, map[], later, order, key);
    }
  }

  /** Success yields exactly the reachable profiles' rules, each profile contributing once. */
  lemma {:induction false} CompiledPolicy(
    ps: map<string, Profile>, active: seq<string>, tools: map<string, string>, glob: Matcher)
    returns (order: seq<string>)
    requires CompileSpec(ps, active, tools, glob).Ok?
    ensures FinishingOrder(ps, active, order)
    ensures CollectedIn(ps, order, CompileSpec(ps, active, tools, glob).value)
    ensures forall n :: n in order ==> SoundProfile(ps, tools, glob, n)
  {
    order := VisitAllShape(ps, tools, glob, active, Start);
    var done := VisitAll(ps, tools, glob, active, Start).value;
    StartToFinish(ps, active, tools, glob, done, order);
    CollectedFromNothing(AllowLists(ps), done.allow, order);
    CollectedFromNothing(DenyLists(ps), done.deny, order);
  }

  /** Compilation succeeds exactly when every reachable profile is sound and on no include cycle. */
  lemma {:induction false} CompileSucceedsExactly(
    ps: map<string, Profile>, active: seq<string>, tools: map<string, string>, glob: Matcher)
    ensures CompileSpec(ps, active, tools, glob).Ok? <==> Compilable(ps, active, tools, glob)
  {
    var g := IncludesOf(ps);
    if CompileSpec(ps, active, tools, glob).Ok? {
      var order := CompiledPolicy(ps, active, tools, glob);
      forall n | Reachable(g, active, n)
        ensures SoundProfile(ps, tools, glob, n) && !OnCycle(g, n)
      {
        OrderedAcyclic(g, order, n);
      }
    } else {
      CompileErrorJustified(ps, active, tools, glob);
    }
  }

  /** A reported error names a reachable profile that really has the reported fault. */
  lemma {:induction false} CompileErrorJustified(
    ps: map<string, Profile>, active: seq<string>, tools: map<string, string>, glob: Matcher)
    requires CompileSpec(ps, active, tools, glob).Err?
    ensures var e := CompileSpec(ps, active, tools, glob).error;
            Justified(ps, tools, glob, e) && Reachable(IncludesOf(ps), active, e.profile)
  {
    VisitAllError(ps, tools, glob, active, Start);
  }
}
