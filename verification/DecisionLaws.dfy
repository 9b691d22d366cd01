/**
 Compilation and decision over the reachable profiles, stated on the rules themselves
 (internal/core/policy.go): which patterns compile, and which rules decide a target.
 */
module DecisionLaws {
  import opened IncludeGraph
  import opened Policy
  import opened PolicyMeaning
  import opened Decisions

  /** No character of the text has a meaning in a pattern. */
  ghost predicate Plain(text: string) {
    '*' !in text && '?' !in text && '[' !in text
  }

  /** The rule is about this effect and tool and meets the target. */
  ghost predicate Decides(r: Rule, effect: string, tool: string, target: string, glob: Matcher) {
    r.effect == effect && r.tool == tool && Hits(r.resource, target, glob)
  }

  /** What a target's decision is, over the reachable profiles. */
  lemma {:induction false} PermitsExactly(
    ps: map<string, Profile>, active: seq<string>, tools: map<string, string>, glob: Matcher, effect: string,
    tool: string, target: string)
    requires CompileSpec(ps, active, tools, glob).Ok?
    ensures Permits(CompileSpec(ps, active, tools, glob).value, effect, tool, target, glob) <==>
              && target != ""
              && (exists n, r :: Reachable(IncludesOf(ps), active, n) && n in ps && r in ps[n].allow
                    && Decides(r, effect, tool, target, glob))
              && !exists n, r :: Reachable(IncludesOf(ps), active, n) && n in ps && r in ps[n].deny
                    && Decides(r, effect, tool, target, glob)
  {
    AllowsMeaning(ps, active, tools, glob, effect, tool, target);
    MatchesExactly(effect, tool, target, glob);
    assert forall r :: Matches(r, effect, tool, target, glob) <==> Decides(r, effect, tool, target, glob);
  }

  /** An active pattern that hits decides: a denial against the target, a grant for it unless a denial meets it too. */
  lemma {:induction false} PatternDecides(
    ps: map<string, Profile>, active: seq<string>, tools: map<string, string>, glob: Matcher, n: string, r: Rule,
    target: string)
    requires CompileSpec(ps, active, tools, glob).Ok? && Reachable(IncludesOf(ps), active, n) && n in ps
    requires target != "" && !Plain(r.resource) && glob(r.resource, target) == Hit
    ensures var p := CompileSpec(ps, active, tools, glob).value;
            && (r in ps[n].deny ==> !Permits(p, r.effect, r.tool, target, glob))
            && (r in ps[n].allow ==>
                  (Permits(p, r.effect, r.tool, target, glob) <==>
                   !exists m, d :: Reachable(IncludesOf(ps), active, m) && m in ps && d in ps[m].deny
                       && Decides(d, r.effect, r.tool, target, glob)))
  {
    PermitsExactly(ps, active, tools, glob, r.effect, r.tool, target);
    assert Decides(r, r.effect, r.tool, target, glob);
  }

  /** An active plain rule decides its own resource, and every other target is decided without it. */
  lemma {:induction false} PlainRuleDecidesItsOwn(
    ps: map<string, Profile>, active: seq<string>, tools: map<string, string>, glob: Matcher, n: string, r: Rule,
    target: string)
    requires CompileSpec(ps, active, tools, glob).Ok? && Reachable(IncludesOf(ps), active, n) && n in ps
    requires Plain(r.resource)
    ensures r in ps[n].deny ==>
              !Permits(CompileSpec(ps, active, tools, glob).value, r.effect, r.tool, r.resource, glob)
    ensures r in ps[n].allow ==>
              (Permits(CompileSpec(ps, active, tools, glob).value, r.effect, r.tool, r.resource, glob) <==>
               !exists m, d :: Reachable(IncludesOf(ps), active, m) && m in ps && d in ps[m].deny
                   && Decides(d, r.effect, r.tool, r.resource, glob))
    ensures target != r.resource ==>
              (Permits(CompileSpec(ps, active, tools, glob).value, r.effect, r.tool, target, glob) <==>
               && target != ""
               && (exists m, a :: Reachable(IncludesOf(ps), active, m) && m in ps && a in ps[m].allow && a != r
                     && Decides(a, r.effect, r.tool, target, glob))
               && !exists m, d :: Reachable(IncludesOf(ps), active, m) && m in ps && d in ps[m].deny && d != r
                     && Decides(d, r.effect, r.tool, target, glob))
  {
    PermitsExactly(ps, active, tools, glob, r.effect, r.tool, r.resource);
    PermitsExactly(ps, active, tools, glob, r.effect, r.tool, target);
    assert Decides(r, r.effect, r.tool, r.resource, glob);
    assert target != r.resource ==> !Decides(r, r.effect, r.tool, target, glob);
    if r in ps[n].allow {
      RuleInWords(r, tools, glob);
      CompileSucceedsExactly(ps, active, tools, glob);
      assert SoundProfile(ps, tools, glob, n);
    }
  }

  /** What a rule must be to compile, in any profile and, beyond that, as a grant. */
  ghost predicate WellFormed(r: Rule, tools: map<string, string>, glob: Matcher) {
    && (r.effect == "observe" || r.effect == "repair") && r.tool in tools && tools[r.tool] == r.effect
    && r.resource != "" && '\0' !in r.resource && '\n' !in r.resource && '\r' !in r.resource
    && glob(r.resource, "probe") != BadPattern
  }

  lemma {:induction false} RuleInWords(r: Rule, tools: map<string, string>, glob: Matcher)
    ensures ValidRule(r, tools, glob) <==> WellFormed(r, tools, glob)
    ensures BroadRepair(r) <==> r.effect == "repair" && !Plain(r.resource)
  {
    var chars := "\0\n\r";
    assert chars[0] == '\0' && chars[1] == '\n' && chars[2] == '\r';
    assert forall c :: c in chars <==> c == chars[0] || c == chars[1] || c == chars[2];
    GlobCharacters(r.resource);
  }

  /**
   Compilation succeeds exactly when every reachable name is well formed, present and on no
   include cycle, every rule of its profile is well formed, and every repair grant is plain.
   */
  lemma {:induction false} CompileSucceedsInWords(
    ps: map<string, Profile>, active: seq<string>, tools: map<string, string>, glob: Matcher)
    ensures CompileSpec(ps, active, tools, glob).Ok? <==>
              forall n :: Reachable(IncludesOf(ps), active, n) ==>
                && 0 < |n| <= 64
                && (forall c :: c in n ==> c == '-' || c == '_' || 'a' <= c <= 'z' || '0' <= c <= '9')
                && n in ps && !OnCycle(IncludesOf(ps), n)
                && (forall r :: r in ps[n].allow ==>
                      WellFormed(r, tools, glob) && (r.effect == "repair" ==> Plain(r.resource)))
                && (forall r :: r in ps[n].deny ==> WellFormed(r, tools, glob))
  {
    CompileSucceedsExactly(ps, active, tools, glob);
    forall r
      ensures ValidRule(r, tools, glob) <==> WellFormed(r, tools, glob)
      ensures BroadRepair(r) <==> r.effect == "repair" && !Plain(r.resource)
    {
      RuleInWords(r, tools, glob);
    }
  }

  /** A filed repair grant holds none of the three characters, so it permits its own resource alone. */
  lemma {:induction false} RepairGrantsArePlain(
    ps: map<string, Profile>, active: seq<string>, tools: map<string, string>, glob: Matcher, tool: string, r: Rule)
    requires CompileSpec(ps, active, tools, glob).Ok?
    requires r in RulesAt(CompileSpec(ps, active, tools, glob).value.allow, RuleKey("repair", tool))
    ensures '*' !in r.resource && '?' !in r.resource && '[' !in r.resource
    ensures forall target :: Hits(r.resource, target, glob) <==> target == r.resource
  {
    CompiledMembers(ps, active, tools, glob, RuleKey("repair", tool), r);
    RuleInWords(r, tools, glob);
  }

  /** Some reachable profile grants the repair of this very target, and no reachable denial meets it. */
  ghost predicate RepairGranted(
    ps: map<string, Profile>, active: seq<string>, glob: Matcher, tool: string, target: string) {
    && target != ""
    && (exists n, r :: Reachable(IncludesOf(ps), active, n) && n in ps && r in ps[n].allow
          && r.effect == "repair" && r.tool == tool && r.resource == target)
    && !exists n, r :: Reachable(IncludesOf(ps), active, n) && n in ps && r in ps[n].deny
          && r.effect == "repair" && r.tool == tool && Hits(r.resource, target, glob)
  }

  lemma {:induction false} RepairPermitsExactly(
    ps: map<string, Profile>, active: seq<string>, tools: map<string, string>, glob: Matcher, tool: string,
    target: string)
    requires CompileSpec(ps, active, tools, glob).Ok?
    ensures Permits(CompileSpec(ps, active, tools, glob).value, REPAIR, tool, target, glob)
       <==> RepairGranted(ps, active, glob, tool, target)
  {
    PermitsExactly(ps, active, tools, glob, REPAIR, tool, target);
    CompileSucceedsInWords(ps, active, tools, glob);
    forall n, r | Reachable(IncludesOf(ps), active, n) && n in ps && r in ps[n].allow && r.effect == REPAIR
      ensures Hits(r.resource, target, glob) <==> r.resource == target
    {
      assert Plain(r.resource);
    }
    assert forall r :: Decides(r, REPAIR, tool, target, glob) <==>
                         r.effect == "repair" && r.tool == tool && Hits(r.resource, target, glob);
  }
}
