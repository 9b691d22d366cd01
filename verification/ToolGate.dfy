/**
 The gateway's gate (internal/server/server.go): the tool catalog, `authorize`,
 tool registration in `New` and the listing and call paths of `middleware`.
 */
module ToolGate {
  import opened Policy
  import opened Decisions

  /** How a tool finds its target: a constant, or a field of its decoded arguments. */
  datatype Target = Fixed(value: string) | Argument

  datatype Definition = Definition(
    name: string, effect: string, docker: bool, collection: bool, target: Target, wantsID: bool)

  const Catalog: seq<Definition> := [
    Definition("host_status", OBSERVE, false, false, Fixed("host"), false),
    Definition("list_services", OBSERVE, false, true, Fixed("*"), false),
    Definition("service_status", OBSERVE, false, false, Argument, false),
    Definition("service_logs", OBSERVE, false, false, Argument, false),
    Definition("docker_status", OBSERVE, true, false, Fixed("engine"), false),
    Definition("list_docker_containers", OBSERVE, true, true, Fixed("*"), false),
    Definition("container_status", OBSERVE, true, false, Argument, true),
    Definition("container_stats", OBSERVE, true, false, Argument, true),
    Definition("container_logs", OBSERVE, true, false, Argument, true),
    Definition("restart_service", REPAIR, false, false, Argument, false),
    Definition("restart_container", REPAIR, true, false, Argument, true)]

  /** The decoded target field of a call, if the arguments decode. */
  datatype Arguments = Undecodable | Decoded(field: string)
  datatype Resource = Resource(value: string) | NoResource

  function ResourceOf(tool: Definition, args: Arguments): Resource {
    match tool.target
    case Fixed(v) => Resource(v)
    case Argument => if args.Decoded? && args.field != "" then Resource(args.field) else NoResource
  }

  predicate ValidID(id: string) {
    |id| == 64 && forall c :: c in id ==> '0' <= c <= '9' || 'a' <= c <= 'f'
  }

  datatype App = App(policy: Policy, readOnly: bool, docker: bool, repair: bool)

  function RoleFor(effect: string): string {
    if effect == REPAIR then "repair" else "observe"
  }

  predicate Authorized(a: App, roles: seq<string>, tool: Definition, resource: string, discovery: bool, glob: Matcher) {
    && !(tool.effect == REPAIR && a.readOnly)
    && (!discovery && tool.wantsID ==> ValidID(resource))
    && RoleFor(tool.effect) in roles
    && (tool.docker ==> a.docker)
    && (tool.effect == REPAIR ==> a.repair)
    && if discovery || tool.collection
       then Offers(a.policy, tool.effect, tool.name, glob)
       else Permits(a.policy, tool.effect, tool.name, resource, glob)
  }

  method Authorize(a: App, roles: seq<string>, tool: Definition, resource: string, discovery: bool, glob: Matcher)
    returns (ok: bool)
    ensures ok == Authorized(a, roles, tool, resource, discovery, glob)
  {
    if tool.effect == REPAIR && a.readOnly {
      return false;
    }
    if !discovery && tool.wantsID && !ValidID(resource) {
      return false;
    }
    var role := if tool.effect == REPAIR then "repair" else "observe";
    if role !in roles || (tool.docker && !a.docker) || (tool.effect == REPAIR && !a.repair) {
      return false;
    }
    if discovery || tool.collection {
      ok := Advertises(a.policy, tool.effect, tool.name, glob);
    } else {
      ok := Allows(a.policy, tool.effect, tool.name, resource, glob);
    }
  }

  predicate Registers(a: App, tool: Definition, glob: Matcher) {
    && !(tool.effect == REPAIR && (a.readOnly || !a.repair))
    && !(tool.docker && !a.docker)
    && Offers(a.policy, tool.effect, tool.name, glob)
  }

  ghost predicate Registered(a: App, name: string, glob: Matcher) {
    exists tool :: tool in Catalog && tool.name == name && Registers(a, tool, glob)
  }

  /** The registration loop of `New`. */
  method Register(a: App, glob: Matcher) returns (registered: seq<string>)
    ensures forall n :: n in registered <==> Registered(a, n, glob)
  {
    registered := [];
    var i := 0;
    while i < |Catalog|
      invariant 0 <= i <= |Catalog|
      invariant forall n :: n in registered
                  <==> exists k :: 0 <= k < i && Catalog[k].name == n && Registers(a, Catalog[k], glob)
    {
      var tool := Catalog[i];
      var offered := Advertises(a.policy, tool.effect, tool.name, glob);
      if !((tool.effect == REPAIR && (a.readOnly || !a.repair)) || (tool.docker && !a.docker) || !offered) {
        registered := registered + [tool.name];
      }
      i := i + 1;
    }
  }

  datatype Lookup = Known(tool: Definition) | Unknown

  /** `find`: the catalog entry of a name; names are distinct, so there is at most one. */
  method Find(name: string) returns (r: Lookup)
    ensures r.Known? ==> r.tool in Catalog && r.tool.name == name
    ensures r.Unknown? ==> forall tool :: tool in Catalog ==> tool.name != name
  {
    var i := 0;
    while i < |Catalog|
      invariant 0 <= i <= |Catalog|
      invariant forall k :: 0 <= k < i ==> Catalog[k].name != name
    {
      if Catalog[i].name == name {
        return Known(Catalog[i]);
      }
      i := i + 1;
    }
    return Unknown;
  }

  /** The catalog position of a name, read off its length and first letter. */
  function Slot(name: string): int {
    match |name|
    case 11 => 0
    case 12 => 3
    case 13 => if name[0] == 'l' then 1 else 4
    case 14 => if name[0] == 's' then 2 else 8
    case 15 => if name[0] == 'c' then 7 else 9
    case 16 => 6
    case 17 => 10
    case _ => 5
  }

  lemma {:induction false} CatalogNamesDistinct()
    ensures forall i, j :: 0 <= i < j < |Catalog| ==> Catalog[i].name != Catalog[j].name
  {
    assert forall i :: 0 <= i < |Catalog| ==> Slot(Catalog[i].name) == i;
  }

  lemma {:induction false} OneEntryPerName(tool: Definition, other: Definition)
    requires tool in Catalog && other in Catalog && tool.name == other.name
    ensures tool == other
  {
    CatalogNamesDistinct();
    var i :| 0 <= i < |Catalog| && Catalog[i] == tool;
    var j :| 0 <= j < |Catalog| && Catalog[j] == other;
  }

  ghost predicate Discoverable(a: App, roles: seq<string>, name: string, glob: Matcher) {
    exists tool :: tool in Catalog && tool.name == name && Authorized(a, roles, tool, "", true, glob)
  }

  method MayDiscover(a: App, roles: seq<string>, name: string, glob: Matcher) returns (ok: bool)
    ensures ok <==> Discoverable(a, roles, name, glob)
  {
    var found := Find(name);
    if found.Unknown? {
      return false;
    }
    ok := Authorize(a, roles, found.tool, "", true, glob);
    forall tool | tool in Catalog && tool.name == name
      ensures tool == found.tool
    {
      OneEntryPerName(tool, found.tool);
    }
  }

  /** The names an identity may discover, in the order offered. */
  ghost function Visible(a: App, roles: seq<string>, offered: seq<string>, glob: Matcher): seq<string> {
    if offered == [] then []
    else
      var n := |offered| - 1;
      Visible(a, roles, offered[..n], glob) + if Discoverable(a, roles, offered[n], glob) then [offered[n]] else []
  }

  lemma {:induction false} VisibleMembers(a: App, roles: seq<string>, offered: seq<string>, glob: Matcher)
    ensures forall n :: n in Visible(a, roles, offered, glob) <==> n in offered && Discoverable(a, roles, n, glob)
  {
    if offered != [] {
      VisibleMembers(a, roles, offered[..|offered| - 1], glob);
      assert offered == offered[..|offered| - 1] + [offered[|offered| - 1]];
    }
  }

  /** The listing path of `middleware`: the offered tools this identity may discover. */
  method ListTools(a: App, roles: seq<string>, offered: seq<string>, glob: Matcher) returns (filtered: seq<string>)
    ensures forall n :: n in filtered <==> n in offered && Discoverable(a, roles, n, glob)
    ensures filtered == Visible(a, roles, offered, glob)
  {
    filtered := [];
    var i := 0;
    while i < |offered|
      invariant 0 <= i <= |offered|
      invariant filtered == Visible(a, roles, offered[..i], glob)
    {
      assert offered[..i + 1][..i] == offered[..i];
      var ok := MayDiscover(a, roles, offered[i], glob);
      if ok {
        filtered := filtered + [offered[i]];
      }
      i := i + 1;
    }
    assert offered[..i] == offered;
    VisibleMembers(a, roles, offered, glob);
  }

  /** The call path of `middleware`: the request is passed on. */
  ghost predicate Callable(a: App, roles: seq<string>, name: string, args: Arguments, glob: Matcher) {
    exists tool :: tool in Catalog && tool.name == name && ResourceOf(tool, args).Resource?
                   && Authorized(a, roles, tool, ResourceOf(tool, args).value, false, glob)
  }

  method CallTool(a: App, roles: seq<string>, name: string, args: Arguments, glob: Matcher) returns (passed: bool)
    ensures passed <==> Callable(a, roles, name, args, glob)
  {
    var found := Find(name);
    if found.Unknown? {
      return false;
    }
    forall tool | tool in Catalog && tool.name == name
      ensures tool == found.tool
    {
      OneEntryPerName(tool, found.tool);
    }
    var resource := ResourceOf(found.tool, args);
    if resource.NoResource? {
      return false;
    }
    passed := Authorize(a, roles, found.tool, resource.value, false, glob);
  }

  function EffectsOf(tools: seq<Definition>): map<string, string> {
    if tools == [] then map[]
    else EffectsOf(tools[..|tools| - 1])[tools[|tools| - 1].name := tools[|tools| - 1].effect]
  }

  function Effects(): map<string, string> {
    EffectsOf(Catalog)
  }

  lemma {:induction false} EffectIsListed(tools: seq<Definition>, name: string)
    requires name in EffectsOf(tools)
    ensures exists tool :: tool in tools && tool.name == name && tool.effect == EffectsOf(tools)[name]
  {
    var last := tools[|tools| - 1];
    if last.name != name {
      EffectIsListed(tools[..|tools| - 1], name);
      var tool :| tool in tools[..|tools| - 1] && tool.name == name && tool.effect == EffectsOf(tools)[name];
      assert tool in tools;
    } else {
      assert last in tools;
    }
  }

  /** `ToolEffects`; its duplicate check never fires. */
  method ToolEffects() returns (effects: map<string, string>)
    ensures effects == Effects()
  {
    effects := map[];
    var i := 0;
    while i < |Catalog|
      invariant 0 <= i <= |Catalog|
      invariant effects == EffectsOf(Catalog[..i])
    {
      assert Catalog[..i + 1][..i] == Catalog[..i];
      assert Catalog[i].name !in effects by {
        if Catalog[i].name in effects {
          EffectIsListed(Catalog[..i], Catalog[i].name);
          CatalogNamesDistinct();
        }
      }
      effects := effects[Catalog[i].name := Catalog[i].effect];
      i := i + 1;
    }
    assert Catalog[..i] == Catalog;
  }

  /** The only repair tools are the two restarts. */
  lemma {:induction false} RepairToolsAreRestarts(tool: string)
    requires tool in Effects() && Effects()[tool] == REPAIR
    ensures tool == "restart_service" || tool == "restart_container"
  {
    EffectIsListed(Catalog, tool);
    var entry :| entry in Catalog && entry.name == tool && entry.effect == REPAIR;
  }

  // ----- calls, discovery and registration agree -----

  lemma {:induction false} IDsHaveNoSlash(id: string)
    requires ValidID(id)
    ensures '/' !in id
  {
  }

  /**
   A call that passes is for a tool that `New` registered and that the same
   identity sees in its listing, for every slash-free resource. Every fixed target
   and every container ID is slash-free, so only service names can escape.
   */
  lemma {:induction false} CallableIsListed(
    a: App, ps: map<string, Profile>, active: seq<string>, glob: Matcher, roles: seq<string>, tool: Definition,
    resource: string)
    requires CompileSpec(ps, active, Effects(), glob) == Ok(a.policy)
    requires tool in Catalog && Authorized(a, roles, tool, resource, false, glob)
    requires '/' !in resource && StarMatchesSlashFree(glob, resource)
    ensures Authorized(a, roles, tool, "", true, glob) && Registers(a, tool, glob)
  {
    CompiledWellKeyed(ps, active, Effects(), glob);
    if !tool.collection {
      PermittedIsAdvertised(a.policy, tool.effect, tool.name, resource, glob);
    }
  }

  lemma {:induction false} FixedTargetsHaveNoSlash(tool: Definition)
    requires tool in Catalog
    ensures tool.target.Fixed? ==> '/' !in tool.target.value
  {
  }

  /** The tools whose target is a service name, the only free text a call can name. */
  ghost predicate TakesService(name: string) {
    exists tool :: tool in Catalog && tool.name == name && tool.target.Argument? && !tool.wantsID
  }

  /**
   The same at the level of requests: what `CallTool` passes, `Register` and `ListTools`
   include, whatever the arguments, unless a service name holds a slash.
   */
  lemma {:induction false} PassedCallIsListed(
    a: App, ps: map<string, Profile>, active: seq<string>, glob: Matcher, roles: seq<string>, name: string,
    args: Arguments)
    requires CompileSpec(ps, active, Effects(), glob) == Ok(a.policy)
    requires forall r :: StarMatchesSlashFree(glob, r)
    requires Callable(a, roles, name, args, glob)
    requires TakesService(name) && args.Decoded? ==> '/' !in args.field
    ensures Discoverable(a, roles, name, glob)
    ensures Registered(a, name, glob)
  {
    var tool :| tool in Catalog && tool.name == name && ResourceOf(tool, args).Resource?
                && Authorized(a, roles, tool, ResourceOf(tool, args).value, false, glob);
    var resource := ResourceOf(tool, args).value;
    FixedTargetsHaveNoSlash(tool);
    if tool.wantsID {
      IDsHaveNoSlash(resource);
    }
    assert StarMatchesSlashFree(glob, resource);
    CallableIsListed(a, ps, active, glob, roles, tool, resource);
  }

  /** For any resource, the call's tool is listed exactly when no literal "*" denial exists. */
  lemma {:induction false} CallableIsListedExactly(
    a: App, ps: map<string, Profile>, active: seq<string>, glob: Matcher, roles: seq<string>, tool: Definition,
    resource: string)
    requires CompileSpec(ps, active, Effects(), glob) == Ok(a.policy)
    requires tool in Catalog && Authorized(a, roles, tool, resource, false, glob)
    ensures Authorized(a, roles, tool, "", true, glob) <==> !DeniesStar(a.policy, tool.effect, tool.name)
    ensures Registers(a, tool, glob) <==> !DeniesStar(a.policy, tool.effect, tool.name)
  {
    CompiledWellKeyed(ps, active, Effects(), glob);
    if tool.collection {
      OffersDeniesNoStar(a.policy, tool.effect, tool.name, glob);
    } else {
      PermittedIsAdvertised(a.policy, tool.effect, tool.name, resource, glob);
    }
  }

  lemma {:induction false} EffectRecorded(tools: seq<Definition>, i: nat)
    requires i < |tools| && forall j, k :: 0 <= j < k < |tools| ==> tools[j].name != tools[k].name
    ensures tools[i].name in EffectsOf(tools) && EffectsOf(tools)[tools[i].name] == tools[i].effect
  {
    var n := |tools| - 1;
    if i < n {
      EffectRecorded(tools[..n], i);
      assert tools[i].name != tools[n].name;
    }
  }

  lemma {:induction false} CatalogEffect(i: nat)
    requires i < |Catalog|
    ensures Catalog[i].name in Effects() && Effects()[Catalog[i].name] == Catalog[i].effect
  {
    CatalogNamesDistinct();
    EffectRecorded(Catalog, i);
  }

  /** A rule over a tool of the catalog is valid when its resource is a sound pattern. */
  lemma {:induction false} CatalogRule(i: nat, resource: string, glob: Matcher)
    requires i < |Catalog| && resource != "" && !ContainsAny(resource, "\0\n\r")
             && glob(resource, "probe") != BadPattern
    ensures ValidRule(Rule(Catalog[i].effect, Catalog[i].name, resource), Effects(), glob)
  {
    CatalogEffect(i);
    assert Catalog[i].effect == OBSERVE || Catalog[i].effect == REPAIR;
  }

  /** One grant for a target with a slash, and a denial of every slash-free target. */
  function SlashPolicy(name: string): Policy {
    var key := RuleKey(OBSERVE, name);
    Policy(map[key := [Rule(OBSERVE, name, "a/b")]], map[key := [Rule(OBSERVE, name, "*")]])
  }

  lemma {:induction false} SlashPolicyPermits(name: string, glob: Matcher)
    requires glob("*", "a/b") == Miss
    ensures Permits(SlashPolicy(name), OBSERVE, name, "a/b", glob)
  {
    var p, key := SlashPolicy(name), RuleKey(OBSERVE, name);
    assert Rule(OBSERVE, name, "a/b") in RulesAt(p.allow, key);
    assert "a/b"[0] != "*"[0];
  }

  lemma {:induction false} SlashPolicyCompiles(i: nat, glob: Matcher)
    requires i < |Catalog| && Catalog[i].effect == OBSERVE
    requires glob("*", "probe") != BadPattern && glob("a/b", "probe") != BadPattern
    ensures var grant, denial := Rule(OBSERVE, Catalog[i].name, "a/b"), Rule(OBSERVE, Catalog[i].name, "*");
            CompileSpec(map["p" := Profile([], [grant], [denial])], ["p"], Effects(), glob)
              == Ok(SlashPolicy(Catalog[i].name))
  {
    assert ValidProfileName("p") && OBSERVE[0] != REPAIR[0];
    CatalogRule(i, "a/b", glob);
    CatalogRule(i, "*", glob);
    OneProfileCompiles("p", Rule(OBSERVE, Catalog[i].name, "a/b"), [Rule(OBSERVE, Catalog[i].name, "*")], Effects(),
                       glob);
  }

  /** A compiled policy under which a service call passes although its tool is hidden. */
  lemma {:induction false} SlashTargetCanBeHidden(glob: Matcher) returns (a: App)
    requires glob("*", "a/b") == Miss && glob("*", "probe") != BadPattern && glob("a/b", "probe") != BadPattern
    ensures var grant, denial := Rule(OBSERVE, "service_status", "a/b"), Rule(OBSERVE, "service_status", "*");
            CompileSpec(map["p" := Profile([], [grant], [denial])], ["p"], Effects(), glob) == Ok(a.policy)
    ensures Callable(a, ["observe"], "service_status", Decoded("a/b"), glob)
    ensures !Discoverable(a, ["observe"], "service_status", glob) && !Registered(a, "service_status", glob)
  {
    var tool := Catalog[2];
    SlashPolicyCompiles(2, glob);
    SlashPolicyPermits(tool.name, glob);
    a := App(SlashPolicy(tool.name), true, false, false);
    HiddenByStar(a, tool, Rule(OBSERVE, tool.name, "*"), glob);
    AuthorizedPlainly(a, tool, "a/b", glob);
    assert tool in Catalog;
  }

  lemma {:induction false} AuthorizedPlainly(a: App, tool: Definition, target: string, glob: Matcher)
    requires tool.effect == OBSERVE && !tool.docker && !tool.collection && !tool.wantsID && tool.target.Argument?
    requires Permits(a.policy, OBSERVE, tool.name, target, glob)
    ensures Authorized(a, ["observe"], tool, target, false, glob)
            && ResourceOf(tool, Decoded(target)) == Resource(target)
  {
    assert OBSERVE[0] != REPAIR[0] && "observe" in ["observe"];
  }

  lemma {:induction false} HiddenByStar(a: App, tool: Definition, denial: Rule, glob: Matcher)
    requires tool in Catalog && denial in RulesAt(a.policy.deny, RuleKey(tool.effect, tool.name))
             && denial.resource == "*"
    ensures forall roles :: !Discoverable(a, roles, tool.name, glob)
    ensures !Registered(a, tool.name, glob)
  {
    assert !Offers(a.policy, tool.effect, tool.name, glob) by {
      assert forall g :: Blocks(denial, g, tool.effect, tool.name, glob);
    }
    forall other | other in Catalog && other.name == tool.name
      ensures other == tool
    {
      OneEntryPerName(other, tool);
    }
  }

  /** A grant that no denial blocks and whose resource has the form the tool's calls must have. */
  ghost predicate CallableGrant(a: App, tool: Definition, grant: Rule, glob: Matcher) {
    && grant in RulesAt(a.policy.allow, RuleKey(tool.effect, tool.name))
    && Unblocked(a.policy, grant, tool.effect, tool.name, glob)
    && (tool.wantsID ==> ValidID(grant.resource))
  }

  /** A call of a listed repair tool passes exactly for the resources of its callable grants. */
  lemma {:induction false} RepairCallPasses(
    a: App, ps: map<string, Profile>, active: seq<string>, glob: Matcher, roles: seq<string>, tool: Definition,
    target: string)
    requires CompileSpec(ps, active, Effects(), glob) == Ok(a.policy)
    requires tool in Catalog && tool.effect == REPAIR && Authorized(a, roles, tool, "", true, glob)
    ensures Authorized(a, roles, tool, target, false, glob)
            <==> exists g :: CallableGrant(a, tool, g, glob) && g.resource == target
  {
    PermittedRepairTargets(ps, active, Effects(), glob, tool.name, target);
    if Authorized(a, roles, tool, target, false, glob) {
      var key := RuleKey(REPAIR, tool.name);
      var g :| g in RulesAt(a.policy.allow, key) && g.resource == target
        && Unblocked(a.policy, g, REPAIR, tool.name, glob);
      assert CallableGrant(a, tool, g, glob);
    }
  }

  /** A repair tool an identity sees has a callable target exactly when one of its grants is callable. */
  lemma {:induction false} ListedRepairHasTarget(
    a: App, ps: map<string, Profile>, active: seq<string>, glob: Matcher, roles: seq<string>, tool: Definition)
    requires CompileSpec(ps, active, Effects(), glob) == Ok(a.policy)
    requires tool in Catalog && tool.effect == REPAIR && Authorized(a, roles, tool, "", true, glob)
    ensures (exists t :: Authorized(a, roles, tool, t, false, glob)) <==> exists g :: CallableGrant(a, tool, g, glob)
    ensures !tool.wantsID ==> exists t :: Authorized(a, roles, tool, t, false, glob)
  {
    if t :| Authorized(a, roles, tool, t, false, glob) {
      RepairCallPasses(a, ps, active, glob, roles, tool, t);
    }
    if g :| CallableGrant(a, tool, g, glob) {
      RepairCallPasses(a, ps, active, glob, roles, tool, g.resource);
      assert Authorized(a, roles, tool, g.resource, false, glob);
    }
    if !tool.wantsID {
      var g :| g in RulesAt(a.policy.allow, RuleKey(REPAIR, tool.name))
        && Unblocked(a.policy, g, REPAIR, tool.name, glob);
      assert CallableGrant(a, tool, g, glob);
    }
  }

  /** A compiled policy that lists `restart_container` while no call of it can pass. */
  lemma {:induction false} ListedRestartWithoutTarget(glob: Matcher) returns (a: App)
    requires glob("web", "probe") != BadPattern
    ensures CompileSpec(map["p" := Profile([], [Rule(REPAIR, "restart_container", "web")], [])], ["p"], Effects(),
                        glob) == Ok(a.policy)
    ensures Discoverable(a, ["repair"], "restart_container", glob) && Registered(a, "restart_container", glob)
    ensures forall args :: !Callable(a, ["repair"], "restart_container", args, glob)
  {
    var tool := Catalog[10];
    var grant := Rule(REPAIR, tool.name, "web");
    var ps := map["p" := Profile([], [grant], [])];
    assert ValidProfileName("p") && !IsGlob("web");
    CatalogRule(10, "web", glob);
    OneProfileCompiles("p", grant, [], Effects(), glob);
    a := App(Policy(map[RuleKey(REPAIR, tool.name) := [grant]], map[]), false, true, true);
    assert grant in RulesAt(a.policy.allow, RuleKey(REPAIR, tool.name));
    assert Unblocked(a.policy, grant, REPAIR, tool.name, glob);
    assert "repair" in ["repair"] && tool in Catalog;
    assert Authorized(a, ["repair"], tool, "", true, glob) && Registers(a, tool, glob);
    assert forall g :: !CallableGrant(a, tool, g, glob) by {
      assert !ValidID("web");
    }
    ListedRepairHasTarget(a, ps, ["p"], glob, ["repair"], tool);
    forall other | other in Catalog && other.name == tool.name
      ensures other == tool
    {
      OneEntryPerName(other, tool);
    }
  }
}
