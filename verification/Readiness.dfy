/**
 The readiness wait after a unit is started (internal/lifecycle/manager_linux.go): a
 unit is ready once it has answered every probe for a whole second.
 */
module Readiness {
  import opened Wrappers
  import PlanDigest

  const STABLE_MS := 1000

  /**
   One turn of the loop. `noted` is the instant the turn would open a stable window at
   and `checked` the instant it measures the window at, both in milliseconds.
   */
  datatype Probe = Probe(active: bool, dialled: bool, answered: bool, noted: int, checked: int)

  /** Only the gateway is also asked for its health response. */
  predicate Healthy(unit: string, p: Probe) {
    p.active && p.dialled && (unit == PlanDigest.GATEWAY ==> p.answered)
  }

  /** The clock does not run backwards. */
  predicate Ordered(probes: seq<Probe>) {
    && (forall i :: 0 <= i < |probes| ==> probes[i].noted <= probes[i].checked)
    && (forall i, j :: 0 <= i < j < |probes| ==> probes[i].checked <= probes[j].noted)
  }

  /** In every probe from `from` to `to` the unit was active and dialled, and the gateway answered. */
  ghost predicate HealthyThrough(unit: string, probes: seq<Probe>, from: nat, to: nat) {
    to < |probes|
      && forall k :: from <= k <= to ==>
           && probes[k].active && probes[k].dialled
           && (probes[k].answered || unit != "hostlens-gateway.service")
  }

  /** An unbroken run of healthy probes that lasted the whole stable second and ends with probe `to`. */
  ghost predicate StableAt(unit: string, probes: seq<Probe>, from: nat, to: nat) {
    from <= to && HealthyThrough(unit, probes, from, to) && probes[to].checked - probes[from].noted >= 1000
  }

  /**
   `waitReady`: the probes made before the deadline, in order. The wait ends at the first
   probe that completes a stable second, and fails only when no run of probes, wherever
   it begins, lasted one.
   */
  method WaitReady(unit: string, probes: seq<Probe>) returns (ready: Option<nat>)
    requires Ordered(probes)
    ensures ready.Some? <==> exists from: nat, to: nat :: StableAt(unit, probes, from, to)
    ensures ready.Some? ==> exists from: nat :: StableAt(unit, probes, from, ready.value)
    ensures ready.Some? ==> forall from: nat, to: nat :: StableAt(unit, probes, from, to) ==> ready.value <= to
  {
    var stableSince: Option<int> := None;
    ghost var since: nat := 0;
    var i: nat := 0;
    while i < |probes|
      invariant since <= i <= |probes|
      invariant stableSince.Some? <==> since < i
      invariant stableSince.Some? ==>
                  stableSince.value == probes[since].noted && HealthyThrough(unit, probes, since, i - 1)
      invariant since > 0 ==> !Healthy(unit, probes[since - 1])
      invariant forall from: nat, to: nat :: to < i ==> !StableAt(unit, probes, from, to)
    {
      if Healthy(unit, probes[i]) {
        if stableSince.None? {
          stableSince := Some(probes[i].noted);
        }
        if probes[i].checked - stableSince.value >= STABLE_MS {
          assert StableAt(unit, probes, since, i);
          return Some(i);
        }
        LongestRun(unit, probes, since, i);
      } else {
        stableSince, since := None, i + 1;
      }
      i := i + 1;
    }
    return None;
  }

  /** If the longest healthy run ending at a probe is too short, every run ending there is. */
  lemma {:induction false} LongestRun(unit: string, probes: seq<Probe>, since: nat, to: nat)
    requires Ordered(probes) && since <= to < |probes| && (since > 0 ==> !Healthy(unit, probes[since - 1]))
    requires !StableAt(unit, probes, since, to) && HealthyThrough(unit, probes, since, to)
    ensures forall from: nat :: !StableAt(unit, probes, from, to)
  {
    forall from: nat
      ensures !StableAt(unit, probes, from, to)
    {
      assert from > since && from < |probes| ==> probes[since].noted <= probes[from].noted;
    }
  }
}
