/**
 The gateway's gate by tool name (internal/server/server.go): who may call, see and
 register each of the eleven tools, without the catalog that the gate consults.
 */
module GateLaws {
  import opened Policy
  import opened Decisions
  import opened ToolGate

  ghost predicate RestartTool(name: string) {
    name == "restart_service" || name == "restart_container"
  }

  ghost predicate ServiceTool(name: string) {
    name == "service_status" || name == "service_logs" || name == "restart_service"
  }

  ghost predicate ContainerTool(name: string) {
    name == "container_status" || name == "container_stats" || name == "container_logs" || name == "restart_container"
  }

  ghost predicate CollectionTool(name: string) {
    name == "list_services" || name == "list_docker_containers"
  }

  ghost predicate DockerTool(name: string) {
    ContainerTool(name) || name == "docker_status" || name == "list_docker_containers"
  }

  ghost predicate KnownTool(name: string) {
    || ServiceTool(name) || ContainerTool(name) || CollectionTool(name)
    || name == "host_status" || name == "docker_status"
  }

  ghost function EffectOf(name: string): string {
    if RestartTool(name) then "repair" else "observe"
  }

  /** The full identifier of a container. */
  ghost predicate FullID(id: string) {
    |id| == 64 && forall k :: 0 <= k < 64 ==> '0' <= id[k] <= '9' || 'a' <= id[k] <= 'f'
  }

  /** What every use of a tool needs of the identity and the host. */
  ghost predicate Equipped(a: App, roles: seq<string>, name: string) {
    && KnownTool(name) && EffectOf(name) in roles && (DockerTool(name) ==> a.docker)
    && (RestartTool(name) ==> !a.readOnly && a.repair)
  }

  /** The arguments of a call are in order: a service named, a container identified in full. */
  ghost predicate InOrder(name: string, args: Arguments) {
    && (ServiceTool(name) ==> args.Decoded? && args.field != "")
    && (ContainerTool(name) ==> args.Decoded? && FullID(args.field))
  }

  ghost function TargetOf(name: string, args: Arguments): string {
    if name == "host_status" then "host" else if name == "docker_status" then "engine"
    else if args.Decoded? then args.field else ""
  }

  // ----- the catalog -----

  lemma {:induction false} Position(tool: Definition) returns (i: nat)
    requires tool in Catalog
    ensures i < |Catalog| && tool == Catalog[i]
    ensures forall k :: 0 <= k < |Catalog| ==> (tool.name == Catalog[k].name <==> k == i)
  {
    i :| 0 <= i < |Catalog| && Catalog[i] == tool;
    CatalogNamesDistinct();
  }

  lemma {:induction false} EffectByName(tool: Definition)
    requires tool in Catalog
    ensures tool.effect == EffectOf(tool.name) && (tool.effect == REPAIR <==> RestartTool(tool.name))
  {
    var i := Position(tool);
    assert Catalog[9].name == "restart_service" && Catalog[10].name == "restart_container";
  }

  lemma {:induction false} ContainerByName(tool: Definition)
    requires tool in Catalog
    ensures tool.wantsID <==> ContainerTool(tool.name)
    ensures tool.docker <==> DockerTool(tool.name)
  {
    var i := Position(tool);
    assert Catalog[6].name == "container_status" && Catalog[7].name == "container_stats";
    assert Catalog[8].name == "container_logs" && Catalog[10].name == "restart_container";
    assert Catalog[4].name == "docker_status" && Catalog[5].name == "list_docker_containers";
  }

  lemma {:induction false} CollectionByName(tool: Definition)
    requires tool in Catalog
    ensures tool.collection <==> CollectionTool(tool.name)
    ensures tool.collection ==> tool.target.Fixed?
  {
    var i := Position(tool);
    assert Catalog[1].name == "list_services" && Catalog[5].name == "list_docker_containers";
  }

  lemma {:induction false} ServiceByName(tool: Definition)
    requires tool in Catalog
    ensures tool.target.Argument? && !tool.wantsID <==> ServiceTool(tool.name)
    ensures tool.wantsID ==> tool.target.Argument?
  {
    var i := Position(tool);
    assert Catalog[2].name == "service_status" && Catalog[3].name == "service_logs";
    assert Catalog[9].name == "restart_service";
  }

  lemma {:induction false} FixedByName(tool: Definition)
    requires tool in Catalog
    ensures tool.target.Fixed? && !tool.collection <==> tool.name == "host_status" || tool.name == "docker_status"
    ensures tool.name == "host_status" ==> tool.target == Fixed("host")
    ensures tool.name == "docker_status" ==> tool.target == Fixed("engine")
  {
    var i := Position(tool);
    assert Catalog[0].name == "host_status" && Catalog[4].name == "docker_status";
  }

  lemma {:induction false} EntryKnown(tool: Definition)
    requires tool in Catalog
    ensures KnownTool(tool.name)
  {
    ContainerByName(tool);
    CollectionByName(tool);
    ServiceByName(tool);
    FixedByName(tool);
  }

  lemma {:induction false} KnownEntry(name: string) returns (tool: Definition)
    requires KnownTool(name)
    ensures tool in Catalog && tool.name == name
  {
    if ServiceTool(name) {
      tool := Catalog[if name == "service_status" then 2 else if name == "service_logs" then 3 else 9];
    } else if ContainerTool(name) {
      tool := ContainerEntry(name);
    } else if CollectionTool(name) {
      tool := Catalog[if name == "list_services" then 1 else 5];
    } else {
      tool := Catalog[if name == "host_status" then 0 else 4];
    }
  }

  lemma {:induction false} ContainerEntry(name: string) returns (tool: Definition)
    requires ContainerTool(name)
    ensures tool in Catalog && tool.name == name
  {
    if name == "container_status" {
      tool := Catalog[6];
    } else if name == "container_stats" {
      tool := Catalog[7];
    } else {
      tool := Catalog[if name == "container_logs" then 8 else 10];
    }
  }

  lemma {:induction false} IDExactly(id: string)
    ensures ValidID(id) <==> FullID(id)
  {
    if ValidID(id) {
      assert forall k :: 0 <= k < 64 ==> id[k] in id;
    }
  }

  // ----- the three uses -----

  lemma {:induction false} AuthorizedExactly(
    a: App, roles: seq<string>, tool: Definition, target: string, glob: Matcher)
    requires tool in Catalog
    ensures Authorized(a, roles, tool, target, false, glob) <==>
              && Equipped(a, roles, tool.name) && (ContainerTool(tool.name) ==> FullID(target))
              && if CollectionTool(tool.name) then Offers(a.policy, EffectOf(tool.name), tool.name, glob)
                 else Permits(a.policy, EffectOf(tool.name), tool.name, target, glob)
    ensures Authorized(a, roles, tool, "", true, glob) <==>
              Equipped(a, roles, tool.name) && Offers(a.policy, EffectOf(tool.name), tool.name, glob)
  {
    EntryKnown(tool);
    EffectByName(tool);
    ContainerByName(tool);
    CollectionByName(tool);
    IDExactly(target);
  }

  lemma {:induction false} ResourceExactly(tool: Definition, args: Arguments)
    requires tool in Catalog
    ensures ResourceOf(tool, args).Resource? && (ContainerTool(tool.name) ==> FullID(ResourceOf(tool, args).value))
       <==> InOrder(tool.name, args)
    ensures ResourceOf(tool, args).Resource? && !CollectionTool(tool.name) ==>
              ResourceOf(tool, args).value == TargetOf(tool.name, args)
  {
    ContainerByName(tool);
    CollectionByName(tool);
    ServiceByName(tool);
    FixedByName(tool);
  }

  /** A call is passed on exactly when identity, host, arguments and policy are in order for the tool it names. */
  lemma {:induction false} CallPassesExactly(a: App, roles: seq<string>, name: string, args: Arguments, glob: Matcher)
    ensures Callable(a, roles, name, args, glob) <==>
              && Equipped(a, roles, name) && InOrder(name, args)
              && if CollectionTool(name) then Offers(a.policy, EffectOf(name), name, glob)
                 else Permits(a.policy, EffectOf(name), name, TargetOf(name, args), glob)
  {
    forall tool | tool in Catalog && tool.name == name && ResourceOf(tool, args).Resource?
      ensures Authorized(a, roles, tool, ResourceOf(tool, args).value, false, glob) <==>
                && Equipped(a, roles, name) && InOrder(name, args)
                && if CollectionTool(name) then Offers(a.policy, EffectOf(name), name, glob)
                   else Permits(a.policy, EffectOf(name), name, TargetOf(name, args), glob)
    {
      AuthorizedExactly(a, roles, tool, ResourceOf(tool, args).value, glob);
      ResourceExactly(tool, args);
    }
    if KnownTool(name) {
      var tool := KnownEntry(name);
      ResourceExactly(tool, args);
    }
  }

  /** A tool is shown to an identity exactly when it is equipped for it and the policy leaves it some target. */
  lemma {:induction false} DiscoverableExactly(a: App, roles: seq<string>, name: string, glob: Matcher)
    ensures Discoverable(a, roles, name, glob)
       <==> Equipped(a, roles, name) && Offers(a.policy, EffectOf(name), name, glob)
  {
    forall tool | tool in Catalog && tool.name == name
      ensures Authorized(a, roles, tool, "", true, glob)
              <==> Equipped(a, roles, name) && Offers(a.policy, EffectOf(name), name, glob)
    {
      AuthorizedExactly(a, roles, tool, "", glob);
    }
    if KnownTool(name) {
      var tool := KnownEntry(name);
    }
  }

  /** A tool is registered exactly when the host is equipped for it and the policy leaves it some target. */
  lemma {:induction false} RegisteredExactly(a: App, name: string, glob: Matcher)
    ensures Registered(a, name, glob) <==>
              && KnownTool(name) && (DockerTool(name) ==> a.docker) && (RestartTool(name) ==> !a.readOnly && a.repair)
              && Offers(a.policy, EffectOf(name), name, glob)
  {
    forall tool | tool in Catalog && tool.name == name
      ensures tool.effect == EffectOf(name) && (tool.effect == REPAIR <==> RestartTool(name))
      ensures (tool.docker <==> DockerTool(name)) && KnownTool(name)
    {
      EffectByName(tool);
      ContainerByName(tool);
      EntryKnown(tool);
    }
    if KnownTool(name) {
      var tool := KnownEntry(name);
    }
  }
}
