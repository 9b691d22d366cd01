/**
 Two native restarts at once (internal/repair/repair_linux.go, internal/status/repair_linux.go,
 internal/containers/docker.go): a call that returns with an unknown outcome frees the
 admission slot while its restart may still be going on.
 */
module RepairOverlap {
  import opened Wrappers
  import opened Policy
  import opened Decisions
  import opened TokenRecords
  import opened RepairWorker
  import ProfileLoader
  import ToolGate

  function LastOf(states: seq<State>): State
    requires states != []
  {
    states[|states| - 1]
  }

  lemma {:induction false} ExtendRun(s: Server, steps: seq<Step>, states: seq<State>, step: Step)
    requires RunOf(s, steps, states) && CanStep(s, LastOf(states), step)
    ensures RunOf(s, steps + [step], states + [TakeStep(s, LastOf(states), step)])
  {
    var more, later := steps + [step], states + [TakeStep(s, LastOf(states), step)];
    forall k | 0 <= k < |more|
      ensures StepAt(s, more, later, k)
    {
      if k < |steps| {
        assert StepAt(s, steps, states, k);
      }
    }
  }

  /** The state after the request in the slot has emitted its next `n` items. */
  ghost function Emitted(s: Server, st: State, v: Active, n: nat): State
    requires v.next + n <= |Items(s, v.request, v.attempt)|
  {
    st.(trace := st.trace + Items(s, v.request, v.attempt)[v.next..v.next + n], slot := Some(v.(next := v.next + n)))
  }

  lemma {:induction false} EmitOneMore(s: Server, st: State, v: Active, n: nat)
    requires v.next + n < |Items(s, v.request, v.attempt)|
    ensures CanStep(s, Emitted(s, st, v, n), Emit)
    ensures TakeStep(s, Emitted(s, st, v, n), Emit) == Emitted(s, st, v, n + 1)
  {
    TraceGrows(st.trace, Items(s, v.request, v.attempt), v.next, v.next + n);
  }

  lemma {:induction false} TraceGrows(trace: seq<Item>, items: seq<Item>, from: nat, to: nat)
    requires from <= to < |items|
    ensures (trace + items[from..to]) + [items[to]] == trace + items[from..to + 1]
  {
    assert items[from..to + 1] == items[from..to] + [items[to]];
  }

  /** The request in the slot emits its next `n` items undisturbed. */
  lemma {:induction false} EmitSome(s: Server, steps: seq<Step>, states: seq<State>, v: Active, n: nat)
    returns (more: seq<Step>, later: seq<State>)
    requires RunOf(s, steps, states) && LastOf(states).slot == Some(v) && v.next + n <= |Items(s, v.request, v.attempt)|
    ensures RunOf(s, more, later) && LastOf(later) == Emitted(s, LastOf(states), v, n)
  {
    if n == 0 {
      more, later := steps, states;
      assert LastOf(states).trace + [] == LastOf(states).trace;
    } else {
      var mid, to := EmitSome(s, steps, states, v, n - 1);
      EmitOneMore(s, LastOf(states), v, n - 1);
      ExtendRun(s, mid, to, Emit);
      more, later := mid + [Emit], to + [TakeStep(s, LastOf(to), Emit)];
    }
  }

  /** A request that finds the slot free emits its first `n` items. */
  lemma {:induction false} Begin(s: Server, steps: seq<Step>, states: seq<State>, q: nat, a: Attempt, n: nat)
    returns (more: seq<Step>, later: seq<State>)
    requires RunOf(s, steps, states) && LastOf(states).slot.None? && CanStep(s, LastOf(states), Arrive(q, a))
    requires n <= |Items(s, q, a)|
    ensures RunOf(s, more, later) && LastOf(later).slot == Some(Active(q, a, n))
    ensures LastOf(later).trace == LastOf(states).trace + Items(s, q, a)[..n]
    ensures LastOf(later).admitted == LastOf(states).admitted[q := a] && LastOf(later).refused == LastOf(states).refused
  {
    ExtendRun(s, steps, states, Arrive(q, a));
    var mid, to := steps + [Arrive(q, a)], states + [TakeStep(s, LastOf(states), Arrive(q, a))];
    more, later := EmitSome(s, mid, to, Active(q, a, 0), n);
    assert Items(s, q, a)[0..n] == Items(s, q, a)[..n];
  }

  /** A whole request served from an idle slot. */
  lemma {:induction false} ServeOne(s: Server, steps: seq<Step>, states: seq<State>, q: nat, a: Attempt)
    returns (more: seq<Step>, later: seq<State>)
    requires RunOf(s, steps, states) && LastOf(states).slot.None? && CanStep(s, LastOf(states), Arrive(q, a))
    ensures RunOf(s, more, later) && LastOf(later).slot.None?
    ensures LastOf(later).trace == LastOf(states).trace + Items(s, q, a)
    ensures LastOf(later).admitted == LastOf(states).admitted[q := a] && LastOf(later).refused == LastOf(states).refused
  {
    var mid, to := Begin(s, steps, states, q, a, |Items(s, q, a)|);
    assert Items(s, q, a)[..|Items(s, q, a)|] == Items(s, q, a);
    ExtendRun(s, mid, to, Leave);
    more, later := mid + [Leave], to + [TakeStep(s, LastOf(to), Leave)];
  }

  /** An attempt that calls the restarter and whose call returns without knowing the outcome. */
  predicate LeavesOpen(s: Server, a: Attempt) {
    Authorized(s, a) && CanRestart(a) && a.firstAudit.Written? && !Known(a)
  }

  /**
   Any two authorized requests, the first with an unknown outcome, can follow each other
   so that the second restart begins while the first has not been seen to end.
   */
  lemma {:induction false} SecondRestartBeginsBesideTheFirst(s: Server, a: Attempt, b: Attempt)
    returns (steps: seq<Step>, states: seq<State>)
    requires LeavesOpen(s, a) && LeavesOpen(s, b)
    ensures RunOf(s, steps, states)
    ensures var trace, k := LastOf(states).trace, |Items(s, 0, a)| + 1;
            && |trace| == k + 1 && trace[1] == RestartBegin(0, a.body.tool, a.body.target)
            && trace[k] == RestartBegin(1, b.body.tool, b.body.target)
            && forall j :: 0 <= j < |trace| ==> !trace[j].RestartEnd?
  {
    steps, states := ServeOne(s, [], [Idle], 0, a);
    RestartingShape(s, 1, b);
    assert [] + Items(s, 0, a) == Items(s, 0, a);
    steps, states := Begin(s, steps, states, 1, b, 2);
    OpenTrace(s, a, b);
  }

  lemma {:induction false} OpenTrace(s: Server, a: Attempt, b: Attempt)
    requires LeavesOpen(s, a) && LeavesOpen(s, b) && |Items(s, 1, b)| >= 2
    ensures var trace, k := Items(s, 0, a) + Items(s, 1, b)[..2], |Items(s, 0, a)| + 1;
            && |trace| == k + 1 && trace[1] == RestartBegin(0, a.body.tool, a.body.target)
            && trace[k] == RestartBegin(1, b.body.tool, b.body.target)
            && forall j :: 0 <= j < |trace| ==> !trace[j].RestartEnd?
  {
    var items, others := Items(s, 0, a), Items(s, 1, b);
    RestartingShape(s, 0, a);
    RestartingShape(s, 1, b);
    forall m | 0 <= m < |items|
      ensures !items[m].RestartEnd?
    {
      ItemsShape(s, 0, a, m);
    }
    assert others[..2] == [others[0], others[1]];
  }

  // ----- such requests exist -----

  const GRANT := Rule(REPAIR, "restart_service", "web.service")

  /** A repair token's request to restart `web.service`, which the one active profile grants. */
  function Sample(s: Server, secret: string): Attempt {
    var dir := map["p" := Profile([], [GRANT], [])];
    var token := Token("t", "operator", ["repair"], Never, false, s.modern(secret), false);
    Attempt(
      s.gatewayUID, "POST", "/restart", Request(secret, "restart_service", "web.service"),
      Some(Settings(false, s.gatewayUID, s.euid, s.tokenPath, s.socket, dir, ["p"])), Some([token]), 0,
      Written, Written, true, false, Finished(UNKNOWN))
  }

  lemma {:induction false} SamplePolicy(glob: Matcher)
    requires glob("web.service", "probe") != BadPattern
    ensures ProfileLoader.LoadSpec(map["p" := Profile([], [GRANT], [])], ["p"], ToolGate.Effects(), glob)
         == ProfileLoader.Ready(Policy(map[KeyOf(GRANT) := [GRANT]], map[]))
  {
    assert ValidProfileName("p");
    SampleRule(glob);
    OneProfileLoads("p", Profile([], [GRANT], []));
    OneProfileCompiles("p", GRANT, [], ToolGate.Effects(), glob);
  }

  lemma {:induction false} SampleRule(glob: Matcher)
    requires glob("web.service", "probe") != BadPattern
    ensures ValidRule(GRANT, ToolGate.Effects(), glob) && !BroadRepair(GRANT)
  {
    assert ToolGate.Catalog[9].name == GRANT.tool && ToolGate.Catalog[9].effect == REPAIR;
    ToolGate.CatalogRule(9, GRANT.resource, glob);
    assert !IsGlob("web.service");
  }

  lemma {:induction false} OneProfileLoads(name: string, p: Profile)
    requires ValidProfileName(name) && p.includes == []
    ensures ProfileLoader.LoadList(map[name := p], [name], 0, map[]) == ProfileLoader.Loaded(map[name := p])
  {
    var dir := map[name := p];
    assert ProfileLoader.LoadList(dir, [], 1, dir) == ProfileLoader.Loaded(dir);
    assert map[][name := p] == dir;
    assert ProfileLoader.LoadOne(dir, name, 0, map[]) == ProfileLoader.Loaded(dir);
    assert [name][1..] == [];
  }

  lemma {:induction false} SampleLeavesOpen(s: Server, secret: string)
    requires 32 <= |secret| <= 128 && s.glob("web.service", "probe") != BadPattern
    ensures LeavesOpen(s, Sample(s, secret))
  {
    var a := Sample(s, secret);
    SamplePolicy(s.glob);
    var p := LoadPolicy(s, a).value;
    assert GRANT in RulesAt(p.allow, KeyOf(GRANT)) && Matches(GRANT, REPAIR, GRANT.tool, GRANT.resource, s.glob);
    assert Permits(p, REPAIR, GRANT.tool, GRANT.resource, s.glob);
    assert Identity(s, a) == Some(a.records.value[0]) && "repair" in a.records.value[0].roles;
  }
}
