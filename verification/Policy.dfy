/**
 Profile policy: rules, profiles and the three-colour compilation of the active
 include graph (internal/core/policy.go). `path.Match` is the parameter `glob`.
 Text is modelled byte by byte as `char`.
 */
module Policy {

  const OBSERVE := "observe"
  const REPAIR := "repair"

  datatype Rule = Rule(effect: string, tool: string, resource: string)
  datatype Profile = Profile(includes: seq<string>, allow: seq<Rule>, deny: seq<Rule>)
  datatype RuleKey = RuleKey(effect: string, tool: string)
  type RuleMap = map<RuleKey, seq<Rule>>
  datatype Policy = Policy(allow: RuleMap, deny: RuleMap)

  /** Outcome of `path.Match(pattern, name)`. */
  datatype Match = Hit | Miss | BadPattern
  type Matcher = (string, string) -> Match

  datatype Reason = InvalidName | IncludeCycle | MissingProfile | BadAllowRule | BroadRepairGrant | BadDenyRule
  datatype CompileError = CompileError(profile: string, reason: Reason)
  datatype Result<T> = Ok(value: T) | Err(error: CompileError) {
    predicate IsFailure() { Err? }
    function PropagateFailure<U>(): Result<U> requires Err? { Err(error) }
    function Extract(): T requires Ok? { value }
  }

  predicate ContainsAny(s: string, chars: string) {
    exists c :: c in s && c in chars
  }

  predicate IsGlob(resource: string) {
    ContainsAny(resource, "*?[")
  }

  predicate ValidProfileName(name: string) {
    && name != "" && |name| <= 64
    && forall c :: c in name ==> c == '-' || c == '_' || 'a' <= c <= 'z' || '0' <= c <= '9'
  }

  predicate ValidRule(rule: Rule, tools: map<string, string>, glob: Matcher) {
    && (rule.effect == OBSERVE || rule.effect == REPAIR)
    && rule.tool in tools && tools[rule.tool] == rule.effect
    && rule.resource != "" && !ContainsAny(rule.resource, "\0\n\r")
    && glob(rule.resource, "probe") != BadPattern
  }

  predicate BroadRepair(rule: Rule) {
    rule.effect == REPAIR && IsGlob(rule.resource)
  }

  function KeyOf(rule: Rule): RuleKey {
    RuleKey(rule.effect, rule.tool)
  }

  /** The rules filed under a key; Go's map yields nil for an absent key. */
  function RulesAt(m: RuleMap, key: RuleKey): seq<Rule> {
    if key in m then m[key] else []
  }

  function File(m: RuleMap, rule: Rule): RuleMap {
    m[KeyOf(rule) := RulesAt(m, KeyOf(rule)) + [rule]]
  }

  datatype Colour = Grey | Black

  /** What one compilation has coloured and collected so far. */
  datatype Walk = Walk(colour: map<string, Colour>, allow: RuleMap, deny: RuleMap)

  function AddAllows(
    name: string, rules: seq<Rule>, tools: map<string, string>, glob: Matcher, m: RuleMap): Result<RuleMap> {
    if rules == [] then Ok(m)
    else if !ValidRule(rules[0], tools, glob) then Err(CompileError(name, BadAllowRule))
    else if BroadRepair(rules[0]) then Err(CompileError(name, BroadRepairGrant))
    else AddAllows(name, rules[1..], tools, glob, File(m, rules[0]))
  }

  function AddDenies(
    name: string, rules: seq<Rule>, tools: map<string, string>, glob: Matcher, m: RuleMap): Result<RuleMap> {
    if rules == [] then Ok(m)
    else if !ValidRule(rules[0], tools, glob) then Err(CompileError(name, BadDenyRule))
    else AddDenies(name, rules[1..], tools, glob, File(m, rules[0]))
  }

  /** Depth-first visit of one profile: the meaning of the recursive closure. */
  function Visit(
    ps: map<string, Profile>, tools: map<string, string>, glob: Matcher, name: string, w: Walk): (r: Result<Walk>)
    ensures r.Ok? ==> w.colour.Keys <= r.value.colour.Keys
    decreases ps.Keys - w.colour.Keys, 0
  {
    if !ValidProfileName(name) then Err(CompileError(name, InvalidName))
    else if name in w.colour then
      if w.colour[name] == Grey then Err(CompileError(name, IncludeCycle)) else Ok(w)
    else if name !in ps then Err(CompileError(name, MissingProfile))
    else
      var p := ps[name];
      var entered := w.(colour := w.colour[name := Grey]);
      assert name in ps.Keys - w.colour.Keys && name !in ps.Keys - entered.colour.Keys;
      var below :- VisitAll(ps, tools, glob, p.includes, entered);
      var allow :- AddAllows(name, p.allow, tools, glob, below.allow);
      var deny :- AddDenies(name, p.deny, tools, glob, below.deny);
      Ok(Walk(below.colour[name := Black], allow, deny))
  }

  function VisitAll(
    ps: map<string, Profile>, tools: map<string, string>, glob: Matcher, names: seq<string>, w: Walk): (r: Result<Walk>)
    ensures r.Ok? ==> w.colour.Keys <= r.value.colour.Keys
    decreases ps.Keys - w.colour.Keys, 1, |names|
  {
    if names == [] then Ok(w)
    else
      var first :- Visit(ps, tools, glob, names[0], w);
      VisitAll(ps, tools, glob, names[1..], first)
  }

  const Start := Walk(map[], map[], map[])

  function CompileSpec(
    ps: map<string, Profile>, active: seq<string>, tools: map<string, string>, glob: Matcher): Result<Policy> {
    var done :- VisitAll(ps, tools, glob, active, Start);
    Ok(Policy(done.allow, done.deny))
  }

  datatype Outcome = Passed | Failed(error: CompileError)

  /** The compilation as the source runs it: a recursive closure over mutable maps. */
  class Compiler {
    const profiles: map<string, Profile>
    const tools: map<string, string>
    const glob: Matcher
    var colour: map<string, Colour>
    var allow: RuleMap
    var deny: RuleMap

    constructor (profiles: map<string, Profile>, tools: map<string, string>, glob: Matcher)
      ensures this.profiles == profiles && this.tools == tools && this.glob == glob
      ensures Collected() == Start
    {
      this.profiles, this.tools, this.glob := profiles, tools, glob;
      colour, allow, deny := map[], map[], map[];
    }

    function Collected(): Walk
      reads this
    {
      Walk(colour, allow, deny)
    }

    method VisitProfile(name: string) returns (r: Outcome)
      modifies this
      ensures match Visit(profiles, tools, glob, name, old(Collected()))
              case Ok(w) => r == Passed && Collected() == w
              case Err(e) => r == Failed(e)
      decreases profiles.Keys - colour.Keys
    {
      if !ValidProfileName(name) {
        return Failed(CompileError(name, InvalidName));
      }
      if name in colour {
        if colour[name] == Grey {
          return Failed(CompileError(name, IncludeCycle));
        }
        return Passed;
      }
      if name !in profiles {
        return Failed(CompileError(name, MissingProfile));
      }
      var profile := profiles[name];
      colour := colour[name := Grey];
      ghost var entered := Collected();
      var i := 0;
      while i < |profile.includes|
        invariant 0 <= i <= |profile.includes|
        invariant old(colour.Keys) + {name} <= colour.Keys
        invariant VisitAll(profiles, tools, glob, profile.includes, entered)
               == VisitAll(profiles, tools, glob, profile.includes[i..], Collected())
      {
        assert name in profiles.Keys - old(colour.Keys) && name !in profiles.Keys - colour.Keys;
        var rest := profile.includes[i..];
        assert rest[0] == profile.includes[i] && rest[1..] == profile.includes[i + 1..];
        r := VisitProfile(profile.includes[i]);
        if r.Failed? {
          return;
        }
        i := i + 1;
      }
      ghost var below := Collected();
      i := 0;
      while i < |profile.allow|
        invariant 0 <= i <= |profile.allow|
        invariant colour == below.colour && deny == below.deny
        invariant AddAllows(name, profile.allow, tools, glob, below.allow)
               == AddAllows(name, profile.allow[i..], tools, glob, allow)
      {
        var rule := profile.allow[i];
        assert profile.allow[i..][1..] == profile.allow[i + 1..];
        if !ValidRule(rule, tools, glob) {
          return Failed(CompileError(name, BadAllowRule));
        }
        if BroadRepair(rule) {
          return Failed(CompileError(name, BroadRepairGrant));
        }
        allow := allow[KeyOf(rule) := RulesAt(allow, KeyOf(rule)) + [rule]];
        i := i + 1;
      }
      i := 0;
      while i < |profile.deny|
        invariant 0 <= i <= |profile.deny|
        invariant colour == below.colour
        invariant AddAllows(name, profile.allow, tools, glob, below.allow) == Ok(allow)
        invariant AddDenies(name, profile.deny, tools, glob, below.deny)
               == AddDenies(name, profile.deny[i..], tools, glob, deny)
      {
        var rule := profile.deny[i];
        assert profile.deny[i..][1..] == profile.deny[i + 1..];
        if !ValidRule(rule, tools, glob) {
          return Failed(CompileError(name, BadDenyRule));
        }
        deny := deny[KeyOf(rule) := RulesAt(deny, KeyOf(rule)) + [rule]];
        i := i + 1;
      }
      colour := colour[name := Black];
      return Passed;
    }
  }

  method Compile(profiles: map<string, Profile>, active: seq<string>, tools: map<string, string>, glob: Matcher)
    returns (r: Result<Policy>)
    ensures r == CompileSpec(profiles, active, tools, glob)
  {
    var c := new Compiler(profiles, tools, glob);
    var i := 0;
    while i < |active|
      invariant 0 <= i <= |active|
      invariant c.profiles == profiles && c.tools == tools && c.glob == glob
      invariant VisitAll(profiles, tools, glob, active, Start)
             == VisitAll(profiles, tools, glob, active[i..], c.Collected())
    {
      assert active[i..][1..] == active[i + 1..];
      var step := c.VisitProfile(active[i]);
      if step.Failed? {
        return Err(step.error);
      }
      i := i + 1;
    }
    return Ok(Policy(c.allow, c.deny));
  }
}
