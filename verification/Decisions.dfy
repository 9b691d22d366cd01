/**
 The three decision procedures over a compiled policy (`Allows`, `Explain`,
 `Advertises` of internal/core/policy.go) and how they agree.
 */
module Decisions {
  import opened IncludeGraph
  import opened Policy
  import opened PolicyMeaning

  predicate Matches(rule: Rule, effect: string, tool: string, resource: string, glob: Matcher) {
    && rule.effect == effect && rule.tool == tool
    && (rule.resource == resource || (IsGlob(rule.resource) && glob(rule.resource, resource) == Hit))
  }

  /** A resource pattern meets a target: the same text, or a pattern with `*`, `?` or `[` that matches it. */
  ghost predicate Hits(pattern: string, target: string, glob: Matcher) {
    || pattern == target
    || (('*' in pattern || '?' in pattern || '[' in pattern) && glob(pattern, target) == Hit)
  }

  lemma {:induction false} GlobCharacters(resource: string)
    ensures IsGlob(resource) <==> '*' in resource || '?' in resource || '[' in resource
  {
    var chars := "*?[";
    assert chars[0] == '*' && chars[1] == '?' && chars[2] == '[';
    assert forall c :: c in chars <==> c == chars[0] || c == chars[1] || c == chars[2];
  }

  lemma {:induction false} MatchesExactly(effect: string, tool: string, target: string, glob: Matcher)
    ensures forall rule :: Matches(rule, effect, tool, target, glob) <==>
              rule.effect == effect && rule.tool == tool && Hits(rule.resource, target, glob)
  {
    forall rule: Rule
      ensures Matches(rule, effect, tool, target, glob) <==>
                rule.effect == effect && rule.tool == tool && Hits(rule.resource, target, glob)
    {
      GlobCharacters(rule.resource);
    }
  }

  predicate AnyMatch(rules: seq<Rule>, effect: string, tool: string, resource: string, glob: Matcher) {
    exists rule :: rule in rules && Matches(rule, effect, tool, resource, glob)
  }

  /** Deny precedence over the two lists filed under the key. */
  predicate Permits(p: Policy, effect: string, tool: string, resource: string, glob: Matcher) {
    && resource != ""
    && AnyMatch(RulesAt(p.allow, RuleKey(effect, tool)), effect, tool, resource, glob)
    && !AnyMatch(RulesAt(p.deny, RuleKey(effect, tool)), effect, tool, resource, glob)
  }

  method FirstMatch(rules: seq<Rule>, effect: string, tool: string, resource: string, glob: Matcher)
    returns (found: bool)
    ensures found == AnyMatch(rules, effect, tool, resource, glob)
  {
    var i := 0;
    while i < |rules|
      invariant 0 <= i <= |rules|
      invariant forall j :: 0 <= j < i ==> !Matches(rules[j], effect, tool, resource, glob)
    {
      if Matches(rules[i], effect, tool, resource, glob) {
        return true;
      }
      i := i + 1;
    }
    return false;
  }

  method Allows(p: Policy, effect: string, tool: string, resource: string, glob: Matcher) returns (allowed: bool)
    ensures allowed == Permits(p, effect, tool, resource, glob)
    ensures allowed <==>
              && resource != ""
              && (exists r :: r in RulesAt(p.allow, RuleKey(effect, tool)) && r.effect == effect && r.tool == tool
                    && Hits(r.resource, resource, glob))
              && !exists r :: r in RulesAt(p.deny, RuleKey(effect, tool)) && r.effect == effect && r.tool == tool
                    && Hits(r.resource, resource, glob)
  {
    MatchesExactly(effect, tool, resource, glob);
    if resource == "" {
      return false;
    }
    var key := RuleKey(effect, tool);
    var denied := FirstMatch(RulesAt(p.deny, key), effect, tool, resource, glob);
    if denied {
      return false;
    }
    allowed := FirstMatch(RulesAt(p.allow, key), effect, tool, resource, glob);
  }

  datatype Explanation = Explanation(
    effect: string, tool: string, resource: string, allowed: bool, scope: string,
    checks: seq<string>, grants: seq<Rule>, denials: seq<Rule>)

  function Selected(rules: seq<Rule>, effect: string, tool: string, resource: string, glob: Matcher): seq<Rule> {
    if rules == [] then []
    else
      var n := |rules| - 1;
      Selected(rules[..n], effect, tool, resource, glob)
        + if Matches(rules[n], effect, tool, resource, glob) then [rules[n]] else []
  }

  lemma {:induction false} SelectedMembers(
    rules: seq<Rule>, effect: string, tool: string, resource: string, glob: Matcher)
    ensures forall r :: r in Selected(rules, effect, tool, resource, glob)
              <==> r in rules && Matches(r, effect, tool, resource, glob)
    ensures Selected(rules, effect, tool, resource, glob) == [] <==> !AnyMatch(rules, effect, tool, resource, glob)
  {
    if rules != [] {
      var n := |rules| - 1;
      SelectedMembers(rules[..n], effect, tool, resource, glob);
      assert forall r :: r in rules <==> r in rules[..n] || r == rules[n];
    }
  }

  method Select(rules: seq<Rule>, effect: string, tool: string, resource: string, glob: Matcher)
    returns (chosen: seq<Rule>)
    ensures chosen == Selected(rules, effect, tool, resource, glob)
  {
    chosen := [];
    var i := 0;
    while i < |rules|
      invariant 0 <= i <= |rules|
      invariant chosen == Selected(rules[..i], effect, tool, resource, glob)
    {
      assert rules[..i + 1][..i] == rules[..i];
      if Matches(rules[i], effect, tool, resource, glob) {
        chosen := chosen + [rules[i]];
      }
      i := i + 1;
    }
    assert rules[..i] == rules;
  }

  /** The explanation always carries the decision, and exactly the rules that decided it. */
  method Explain(p: Policy, effect: string, tool: string, resource: string, glob: Matcher) returns (x: Explanation)
    ensures x.effect == effect && x.tool == tool && x.resource == resource && x.scope == "profile"
    ensures x.allowed == Permits(p, effect, tool, resource, glob)
    ensures x.checks == ["token_identity", "token_role", "capability"]
                        + if effect == "repair" then ["read_only_mode"] else []
    ensures resource == "" ==> x.grants == [] && x.denials == []
    ensures resource != "" ==>
              && x.grants == Selected(RulesAt(p.allow, RuleKey(effect, tool)), effect, tool, resource, glob)
              && x.denials == Selected(RulesAt(p.deny, RuleKey(effect, tool)), effect, tool, resource, glob)
              && (forall r :: r in x.grants
                    <==> r in RulesAt(p.allow, RuleKey(effect, tool)) && Matches(r, effect, tool, resource, glob))
              && (forall r :: r in x.denials
                    <==> r in RulesAt(p.deny, RuleKey(effect, tool)) && Matches(r, effect, tool, resource, glob))
  {
    var checks := ["token_identity", "token_role", "capability"];
    if effect == REPAIR {
      checks := checks + ["read_only_mode"];
    }
    if resource == "" {
      return Explanation(effect, tool, resource, false, "profile", checks, [], []);
    }
    var key := RuleKey(effect, tool);
    var grants := Select(RulesAt(p.allow, key), effect, tool, resource, glob);
    var denials := Select(RulesAt(p.deny, key), effect, tool, resource, glob);
    SelectedMembers(RulesAt(p.allow, key), effect, tool, resource, glob);
    SelectedMembers(RulesAt(p.deny, key), effect, tool, resource, glob);
    x := Explanation(effect, tool, resource, |grants| > 0 && |denials| == 0, "profile", checks, grants, denials);
  }

  predicate Blocks(denial: Rule, grant: Rule, effect: string, tool: string, glob: Matcher) {
    || denial.resource == "*"
    || denial.resource == grant.resource
    || (!IsGlob(grant.resource) && Matches(denial, effect, tool, grant.resource, glob))
  }

  predicate Unblocked(p: Policy, grant: Rule, effect: string, tool: string, glob: Matcher) {
    forall denial :: denial in RulesAt(p.deny, RuleKey(effect, tool)) ==> !Blocks(denial, grant, effect, tool, glob)
  }

  predicate Offers(p: Policy, effect: string, tool: string, glob: Matcher) {
    exists grant :: grant in RulesAt(p.allow, RuleKey(effect, tool)) && Unblocked(p, grant, effect, tool, glob)
  }

  /** A denial leaves a grant standing: not `*`, not the same pattern, and no hit on an exact grant. */
  ghost predicate Spares(denial: Rule, grant: Rule, effect: string, tool: string, glob: Matcher) {
    && denial.resource != "*" && denial.resource != grant.resource
    && ('*' in grant.resource || '?' in grant.resource || '[' in grant.resource
        || denial.effect != effect || denial.tool != tool || !Hits(denial.resource, grant.resource, glob))
  }

  lemma {:induction false} BlocksExactly(denial: Rule, grant: Rule, effect: string, tool: string, glob: Matcher)
    ensures Blocks(denial, grant, effect, tool, glob) <==> !Spares(denial, grant, effect, tool, glob)
  {
    GlobCharacters(grant.resource);
    GlobCharacters(denial.resource);
  }

  lemma {:induction false} OffersExactly(p: Policy, effect: string, tool: string, glob: Matcher)
    ensures Offers(p, effect, tool, glob) <==>
              exists g :: g in RulesAt(p.allow, RuleKey(effect, tool))
                  && forall d :: d in RulesAt(p.deny, RuleKey(effect, tool)) ==> Spares(d, g, effect, tool, glob)
  {
    forall d, g
      ensures Blocks(d, g, effect, tool, glob) <==> !Spares(d, g, effect, tool, glob)
    {
      BlocksExactly(d, g, effect, tool, glob);
    }
  }

  method Advertises(p: Policy, effect: string, tool: string, glob: Matcher) returns (offered: bool)
    ensures offered == Offers(p, effect, tool, glob)
    ensures offered <==>
              exists g :: g in RulesAt(p.allow, RuleKey(effect, tool))
                  && forall d :: d in RulesAt(p.deny, RuleKey(effect, tool)) ==> Spares(d, g, effect, tool, glob)
  {
    OffersExactly(p, effect, tool, glob);
    var grants, denials := RulesAt(p.allow, RuleKey(effect, tool)), RulesAt(p.deny, RuleKey(effect, tool));
    var i := 0;
    while i < |grants|
      invariant 0 <= i <= |grants|
      invariant forall k :: 0 <= k < i ==> !Unblocked(p, grants[k], effect, tool, glob)
    {
      var blocked, j := false, 0;
      while j < |denials| && !blocked
        invariant 0 <= j <= |denials|
        invariant !blocked ==> forall k :: 0 <= k < j ==> !Blocks(denials[k], grants[i], effect, tool, glob)
        invariant blocked ==> exists k :: 0 <= k < |denials| && Blocks(denials[k], grants[i], effect, tool, glob)
      {
        blocked := Blocks(denials[j], grants[i], effect, tool, glob);
        j := j + 1;
      }
      if !blocked {
        assert Unblocked(p, grants[i], effect, tool, glob);
        assert grants[i] in RulesAt(p.allow, RuleKey(effect, tool));
        return true;
      }
      i := i + 1;
    }
    return false;
  }

  // ----- what the decisions mean over the profiles -----

  lemma {:induction false} KeyedMembers(rules: seq<Rule>, key: RuleKey, r: Rule)
    ensures r in Keyed(rules, key) <==> r in rules && KeyOf(r) == key
  {
    if rules != [] {
      KeyedMembers(rules[1..], key, r);
      assert r in rules <==> r == rules[0] || r in rules[1..];
    }
  }

  ghost predicate Contributed(lists: map<string, seq<Rule>>, order: seq<string>, r: Rule) {
    exists n :: n in order && n in lists && r in lists[n]
  }

  lemma {:induction false} GatherMembers(lists: map<string, seq<Rule>>, order: seq<string>, key: RuleKey, r: Rule)
    ensures r in Gather(lists, order, key) <==> Contributed(lists, order, r) && KeyOf(r) == key
  {
    if order != [] {
      GatherMembers(lists, order[1..], key, r);
      assert forall n :: n in order <==> n == order[0] || n in order[1..];
      if order[0] in lists {
        KeyedMembers(lists[order[0]], key, r);
      }
    }
  }

  ghost predicate ActiveAllow(ps: map<string, Profile>, active: seq<string>, r: Rule) {
    exists n :: Reachable(IncludesOf(ps), active, n) && n in ps && r in ps[n].allow
  }

  ghost predicate ActiveDeny(ps: map<string, Profile>, active: seq<string>, r: Rule) {
    exists n :: Reachable(IncludesOf(ps), active, n) && n in ps && r in ps[n].deny
  }

  /** The keyed lists hold exactly the rules of the reachable profiles. */
  lemma {:induction false} CompiledMembers(
    ps: map<string, Profile>, active: seq<string>, tools: map<string, string>, glob: Matcher, key: RuleKey, r: Rule)
    requires CompileSpec(ps, active, tools, glob).Ok?
    ensures var p := CompileSpec(ps, active, tools, glob).value;
            && (r in RulesAt(p.allow, key) <==> ActiveAllow(ps, active, r) && KeyOf(r) == key)
            && (r in RulesAt(p.deny, key) <==> ActiveDeny(ps, active, r) && KeyOf(r) == key)
            && (r in RulesAt(p.allow, key) ==> ValidRule(r, tools, glob) && !BroadRepair(r))
            && (r in RulesAt(p.deny, key) ==> ValidRule(r, tools, glob))
  {
    var order := CompiledPolicy(ps, active, tools, glob);
    GatherMembers(AllowLists(ps), order, key, r);
    GatherMembers(DenyLists(ps), order, key, r);
    assert Contributed(AllowLists(ps), order, r) <==> ActiveAllow(ps, active, r);
    assert Contributed(DenyLists(ps), order, r) <==> ActiveDeny(ps, active, r);
  }

  /** The decision in terms of the reachable profiles alone. */
  ghost predicate GrantedByProfiles(
    ps: map<string, Profile>, active: seq<string>, effect: string, tool: string, resource: string, glob: Matcher) {
    && resource != ""
    && (exists r :: ActiveAllow(ps, active, r) && Matches(r, effect, tool, resource, glob))
    && !(exists r :: ActiveDeny(ps, active, r) && Matches(r, effect, tool, resource, glob))
  }

  lemma {:induction false} AllowsMeaning(
    ps: map<string, Profile>, active: seq<string>, tools: map<string, string>, glob: Matcher, effect: string,
    tool: string, resource: string)
    requires CompileSpec(ps, active, tools, glob).Ok?
    ensures Permits(CompileSpec(ps, active, tools, glob).value, effect, tool, resource, glob)
       <==> GrantedByProfiles(ps, active, effect, tool, resource, glob)
  {
    var key := RuleKey(effect, tool);
    forall r | Matches(r, effect, tool, resource, glob)
      ensures var p := CompileSpec(ps, active, tools, glob).value;
              && (r in RulesAt(p.allow, key) <==> ActiveAllow(ps, active, r))
              && (r in RulesAt(p.deny, key) <==> ActiveDeny(ps, active, r))
    {
      CompiledMembers(ps, active, tools, glob, key, r);
    }
  }

  // ----- order and growth -----

  ghost predicate SameMembers<T(!new)>(a: seq<T>, b: seq<T>) {
    forall x :: x in a <==> x in b
  }

  /** The same profiles with includes and rules listed in another order or with repeats. */
  ghost predicate Reordered(ps: map<string, Profile>, qs: map<string, Profile>) {
    && ps.Keys == qs.Keys
    && forall n :: n in ps ==>
         SameMembers(ps[n].includes, qs[n].includes) && SameMembers(ps[n].allow, qs[n].allow)
           && SameMembers(ps[n].deny, qs[n].deny)
  }

  lemma {:induction false} SameEdgesSamePaths(g: Graph, h: Graph, p: seq<string>)
    requires forall a, b :: Edge(g, a, b) ==> Edge(h, a, b)
    requires IsPath(g, p)
    ensures IsPath(h, p)
    decreases |p|
  {
    if |p| > 1 {
      SameEdgesSamePaths(g, h, p[..|p| - 1]);
    }
  }

  lemma {:induction false} SameEdgesSameWalks(g: Graph, h: Graph, a: string, b: string, edges: nat)
    requires forall x, y :: Edge(g, x, y) ==> Edge(h, x, y)
    requires Walks(g, a, b, edges)
    ensures Walks(h, a, b, edges)
  {
    var p :| IsPath(g, p) && |p| == edges + 1 && p[0] == a && p[|p| - 1] == b;
    SameEdgesSamePaths(g, h, p);
  }

  lemma {:induction false} ReorderedReach(
    ps: map<string, Profile>, qs: map<string, Profile>, a: seq<string>, b: seq<string>, n: string)
    requires Reordered(ps, qs) && SameMembers(a, b)
    ensures Reachable(IncludesOf(ps), a, n) ==> Reachable(IncludesOf(qs), b, n)
    ensures OnCycle(IncludesOf(ps), n) ==> OnCycle(IncludesOf(qs), n)
  {
    var g, h := IncludesOf(ps), IncludesOf(qs);
    assert forall x, y :: Edge(g, x, y) ==> Edge(h, x, y);
    if Reachable(g, a, n) {
      var r :| r in a && Reaches(g, r, n);
      var edges :| Walks(g, r, n, edges);
      SameEdgesSameWalks(g, h, r, n, edges);
    }
    if OnCycle(g, n) {
      var edges :| edges > 0 && Walks(g, n, n, edges);
      SameEdgesSameWalks(g, h, n, n, edges);
    }
  }

  lemma {:induction false} ReorderedCompilable(
    ps: map<string, Profile>, qs: map<string, Profile>, a: seq<string>, b: seq<string>, tools: map<string, string>,
    glob: Matcher)
    requires Reordered(ps, qs) && SameMembers(a, b) && Compilable(ps, a, tools, glob)
    ensures Compilable(qs, b, tools, glob)
  {
    forall n | Reachable(IncludesOf(qs), b, n)
      ensures SoundProfile(qs, tools, glob, n) && !OnCycle(IncludesOf(qs), n)
    {
      ReorderedReach(qs, ps, b, a, n);
      assert SoundProfile(ps, tools, glob, n);
    }
  }

  lemma {:induction false} ReorderedActive(
    ps: map<string, Profile>, qs: map<string, Profile>, a: seq<string>, b: seq<string>, r: Rule)
    requires Reordered(ps, qs) && SameMembers(a, b)
    ensures ActiveAllow(ps, a, r) ==> ActiveAllow(qs, b, r)
    ensures ActiveDeny(ps, a, r) ==> ActiveDeny(qs, b, r)
  {
    if ActiveAllow(ps, a, r) {
      var n :| Reachable(IncludesOf(ps), a, n) && n in ps && r in ps[n].allow;
      ReorderedReach(ps, qs, a, b, n);
    }
    if ActiveDeny(ps, a, r) {
      var n :| Reachable(IncludesOf(ps), a, n) && n in ps && r in ps[n].deny;
      ReorderedReach(ps, qs, a, b, n);
    }
  }

  /** Success and every decision are independent of profile, include and rule order. */
  lemma {:induction false} OrderIrrelevant(
    ps: map<string, Profile>, qs: map<string, Profile>, a: seq<string>, b: seq<string>, tools: map<string, string>,
    glob: Matcher, effect: string, tool: string, resource: string)
    requires Reordered(ps, qs) && SameMembers(a, b)
    requires CompileSpec(ps, a, tools, glob).Ok?
    ensures CompileSpec(qs, b, tools, glob).Ok?
    ensures Permits(CompileSpec(ps, a, tools, glob).value, effect, tool, resource, glob)
       <==> Permits(CompileSpec(qs, b, tools, glob).value, effect, tool, resource, glob)
  {
    CompileSucceedsExactly(ps, a, tools, glob);
    CompileSucceedsExactly(qs, b, tools, glob);
    ReorderedCompilable(ps, qs, a, b, tools, glob);
    AllowsMeaning(ps, a, tools, glob, effect, tool, resource);
    AllowsMeaning(qs, b, tools, glob, effect, tool, resource);
    forall r
      ensures ActiveAllow(ps, a, r) <==> ActiveAllow(qs, b, r)
      ensures ActiveDeny(ps, a, r) <==> ActiveDeny(qs, b, r)
    {
      ReorderedActive(ps, qs, a, b, r);
      ReorderedActive(qs, ps, b, a, r);
    }
  }

  /** Activating more profiles never revives a target that an active deny rule matches. */
  lemma {:induction false} DenialSurvivesGrowth(
    ps: map<string, Profile>, active: seq<string>, more: seq<string>, tools: map<string, string>, glob: Matcher,
    effect: string, tool: string, resource: string, denial: Rule)
    requires forall n :: n in active ==> n in more
    requires CompileSpec(ps, more, tools, glob).Ok?
    requires ActiveDeny(ps, active, denial) && Matches(denial, effect, tool, resource, glob)
    ensures !Permits(CompileSpec(ps, more, tools, glob).value, effect, tool, resource, glob)
  {
    var n :| Reachable(IncludesOf(ps), active, n) && n in ps && denial in ps[n].deny;
    ReachableFromMore(IncludesOf(ps), active, more, n);
    assert ActiveDeny(ps, more, denial);
    AllowsMeaning(ps, more, tools, glob, effect, tool, resource);
  }

  // ----- permission against advertisement -----

  predicate StarMatchesSlashFree(glob: Matcher, resource: string) {
    '/' !in resource ==> glob("*", resource) == Hit
  }

  /** Every list is filed under its rules' own key, as compilation leaves it. */
  ghost predicate WellKeyed(p: Policy) {
    forall key, r :: r in RulesAt(p.allow, key) || r in RulesAt(p.deny, key) ==> KeyOf(r) == key
  }

  lemma {:induction false} CompiledWellKeyed(
    ps: map<string, Profile>, active: seq<string>, tools: map<string, string>, glob: Matcher)
    requires CompileSpec(ps, active, tools, glob).Ok?
    ensures WellKeyed(CompileSpec(ps, active, tools, glob).value)
  {
    forall key, r
      ensures var p := CompileSpec(ps, active, tools, glob).value;
              r in RulesAt(p.allow, key) || r in RulesAt(p.deny, key) ==> KeyOf(r) == key
    {
      CompiledMembers(ps, active, tools, glob, key, r);
    }
  }

  ghost predicate DeniesStar(p: Policy, effect: string, tool: string) {
    exists d :: d in RulesAt(p.deny, RuleKey(effect, tool)) && d.resource == "*"
  }

  /**
   A tool with a permitted target is advertised exactly when its deny list has no
   literal "*" rule; for a slash-free target there can be no such rule.
   */
  lemma {:induction false} PermittedIsAdvertised(
    p: Policy, effect: string, tool: string, resource: string, glob: Matcher)
    requires WellKeyed(p) && Permits(p, effect, tool, resource, glob)
    ensures Offers(p, effect, tool, glob) <==> !DeniesStar(p, effect, tool)
    ensures StarMatchesSlashFree(glob, resource) && '/' !in resource ==> Offers(p, effect, tool, glob)
  {
    var key := RuleKey(effect, tool);
    var grant :| grant in RulesAt(p.allow, key) && Matches(grant, effect, tool, resource, glob);
    forall d | d in RulesAt(p.deny, key) && d.resource != "*"
      ensures !Blocks(d, grant, effect, tool, glob)
    {
      assert KeyOf(d) == key && KeyOf(grant) == key;
      assert !Matches(d, effect, tool, resource, glob);
    }
    if '/' !in resource && StarMatchesSlashFree(glob, resource) {
      forall d | d in RulesAt(p.deny, key)
        ensures d.resource != "*"
      {
        assert KeyOf(d) == key;
        assert "*"[0] == '*' && '*' in "*" && '*' in "*?[";
        assert d.resource == "*" ==> IsGlob(d.resource) && Matches(d, effect, tool, resource, glob);
      }
    }
    if DeniesStar(p, effect, tool) {
      var d :| d in RulesAt(p.deny, key) && d.resource == "*";
      assert forall g :: Blocks(d, g, effect, tool, glob);
    } else {
      assert Unblocked(p, grant, effect, tool, glob);
    }
  }

  /** A literal "*" denial blocks every grant. */
  lemma {:induction false} OffersDeniesNoStar(p: Policy, effect: string, tool: string, glob: Matcher)
    requires Offers(p, effect, tool, glob)
    ensures !DeniesStar(p, effect, tool)
  {
    var grant :| grant in RulesAt(p.allow, RuleKey(effect, tool)) && Unblocked(p, grant, effect, tool, glob);
    assert forall d :: d in RulesAt(p.deny, RuleKey(effect, tool)) ==> !Blocks(d, grant, effect, tool, glob);
  }

  /** Repair grants are exact, so a target is permitted exactly when it is the resource of an unblocked grant. */
  lemma {:induction false} PermittedRepairTargets(
    ps: map<string, Profile>, active: seq<string>, tools: map<string, string>, glob: Matcher, tool: string,
    target: string)
    requires CompileSpec(ps, active, tools, glob).Ok?
    requires Offers(CompileSpec(ps, active, tools, glob).value, REPAIR, tool, glob)
    ensures var p := CompileSpec(ps, active, tools, glob).value;
            Permits(p, REPAIR, tool, target, glob) <==>
              exists g :: g in RulesAt(p.allow, RuleKey(REPAIR, tool)) && g.resource == target
                  && Unblocked(p, g, REPAIR, tool, glob)
  {
    var p, key := CompileSpec(ps, active, tools, glob).value, RuleKey(REPAIR, tool);
    CompiledWellKeyed(ps, active, tools, glob);
    OffersDeniesNoStar(p, REPAIR, tool, glob);
    if Permits(p, REPAIR, tool, target, glob) {
      var g :| g in RulesAt(p.allow, key) && Matches(g, REPAIR, tool, target, glob);
      CompiledMembers(ps, active, tools, glob, key, g);
      forall d | d in RulesAt(p.deny, key)
        ensures !Blocks(d, g, REPAIR, tool, glob)
      {
        assert KeyOf(d) == key && !Matches(d, REPAIR, tool, target, glob);
      }
    }
    if g :| g in RulesAt(p.allow, key) && g.resource == target && Unblocked(p, g, REPAIR, tool, glob) {
      CompiledMembers(ps, active, tools, glob, key, g);
    }
  }

  /** An advertised repair tool has a concrete target that is permitted. */
  lemma {:induction false} AdvertisedRepairHasTarget(
    ps: map<string, Profile>, active: seq<string>, tools: map<string, string>, glob: Matcher, tool: string)
    returns (target: string)
    requires CompileSpec(ps, active, tools, glob).Ok?
    requires Offers(CompileSpec(ps, active, tools, glob).value, REPAIR, tool, glob)
    ensures Permits(CompileSpec(ps, active, tools, glob).value, REPAIR, tool, target, glob)
    ensures tool in tools && tools[tool] == REPAIR
  {
    var p, key := CompileSpec(ps, active, tools, glob).value, RuleKey(REPAIR, tool);
    var grant :| grant in RulesAt(p.allow, key) && Unblocked(p, grant, REPAIR, tool, glob);
    target := grant.resource;
    CompiledMembers(ps, active, tools, glob, key, grant);
  }

  /** A single profile without includes compiles to its own rules. */
  lemma {:induction false} OneProfileCompiles(
    name: string, grant: Rule, denials: seq<Rule>, tools: map<string, string>, glob: Matcher)
    requires ValidProfileName(name) && ValidRule(grant, tools, glob) && !BroadRepair(grant)
    requires |denials| <= 1 && forall d :: d in denials ==> ValidRule(d, tools, glob)
    ensures CompileSpec(map[name := Profile([], [grant], denials)], [name], tools, glob)
         == Ok(Policy(map[KeyOf(grant) := [grant]], if denials == [] then map[] else map[KeyOf(denials[0]) := denials]))
  {
    var ps := map[name := Profile([], [grant], denials)];
    var entered := Walk(map[name := Grey], map[], map[]);
    var deny: RuleMap := if denials == [] then map[] else map[KeyOf(denials[0]) := denials];
    var done := Walk(map[name := Black], map[KeyOf(grant) := [grant]], deny);
    FiledAlone(grant);
    assert AddAllows(name, [grant], tools, glob, map[]) == Ok(done.allow) by {
      assert [grant][1..] == [];
    }
    if denials != [] {
      FiledAlone(denials[0]);
      assert denials == [denials[0]] && denials[0] in denials && denials[1..] == [];
    }
    assert AddDenies(name, denials, tools, glob, map[]) == Ok(deny);
    assert Start.(colour := Start.colour[name := Grey]) == entered;
    assert VisitAll(ps, tools, glob, [], entered) == Ok(entered);
    assert entered.colour[name := Black] == done.colour;
    assert Visit(ps, tools, glob, name, Start) == Ok(done);
    assert [name][1..] == [];
    assert VisitAll(ps, tools, glob, [name], Start) == Ok(done);
  }

  lemma {:induction false} FiledAlone(rule: Rule)
    ensures File(map[], rule) == map[KeyOf(rule) := [rule]]
  {
    assert [] + [rule] == [rule];
  }
}
