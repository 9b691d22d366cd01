/**
 The repair worker (internal/repair/repair_linux.go): `handle` audits before it
 acts, and `Run` admits one request at a time. Everything a request reads from
 outside (peer, body, configuration, token store, audit results, restart result)
 is part of its `Attempt`, so configuration and tokens may differ between requests.
 */
module RepairWorker {
  import opened Wrappers
  import opened Policy
  import opened Decisions
  import opened TokenRecords
  import opened DecisionLaws
  import ProfileLoader
  import TokenStore
  import ToolGate

  /** What the worker process was started with. */
  datatype Server = Server(
    gatewayUID: int, euid: int, tokenPath: string, socket: string, glob: Matcher, modern: string -> string,
    legacy: string -> string)

  datatype Body = Unreadable | TooLarge | Malformed | Request(secret: string, tool: string, target: string)

  /** One configuration file with its profile directory, as `core.Load` finds them. */
  datatype Settings = Settings(
    readOnly: bool, gatewayUID: int, repairUID: int, tokenStore: string, repairSocket: string,
    dir: map<string, Profile>, active: seq<string>)

  /** A restarter that gives up waiting, or whose engine call errs, returns this issue. */
  const UNKNOWN := "restart_outcome_unknown"

  datatype Restart = Failed | Finished(issue: string)

  /** An audit write succeeds, leaves nothing, or leaves its line and still reports an error. */
  datatype Write = Written | Lost | ReportsLate

  datatype Attempt = Attempt(
    peer: int, verb: string, path: string, body: Body,
    settings: Option<Settings>, records: Option<seq<Token>>, now: int,
    firstAudit: Write, lastAudit: Write, services: bool, containers: bool, restart: Restart)

  datatype Event = Event(request: nat, token: string, tool: string, target: string, decision: string, outcome: string)

  /**
   What the outside can observe, in order: `RestartBegin` calls the native restart,
   `RestartEnd` is its end where the call learned of it, `Returned` the return of the call.
   */
  datatype Item =
    | Audit(event: Event)
    | RestartBegin(request: nat, tool: string, target: string)
    | RestartEnd(request: nat)
    | Returned(request: nat)
    | Respond(request: nat, code: int)

  function RequestOf(i: Item): nat {
    if i.Audit? then i.event.request else i.request
  }

  /** `core.Load` with the gateway's tool effects. */
  function LoadPolicy(s: Server, a: Attempt): Option<Policy> {
    if a.settings.None? then None
    else match ProfileLoader.LoadSpec(a.settings.value.dir, a.settings.value.active, ToolGate.Effects(), s.glob)
      case Ready(p) => Some(p)
      case NotLoaded(_) => None
      case NotCompiled(_) => None
  }

  predicate Enabled(s: Server, a: Attempt) {
    && LoadPolicy(s, a).Some?
    && var c := a.settings.value;
       !c.readOnly && c.gatewayUID == s.gatewayUID && c.repairUID == s.euid && c.tokenStore == s.tokenPath
         && c.repairSocket == s.socket
  }

  /** `Verify` over the list it reads: the first record that opens for the secret now. */
  function Verified(s: Server, records: seq<Token>, secret: string, now: int): (r: Option<Token>)
    ensures r.Some? ==> r.value in records && TokenStore.Store.Opens(r.value, secret, now, s.modern, s.legacy)
  {
    if records == [] then None
    else if TokenStore.Store.Opens(records[0], secret, now, s.modern, s.legacy) then Some(records[0])
    else Verified(s, records[1..], secret, now)
  }

  function Identity(s: Server, a: Attempt): Option<Token>
    requires a.body.Request?
  {
    if a.records.None? || |a.body.secret| < 32 || |a.body.secret| > 128 then None
    else Verified(s, a.records.value, a.body.secret, a.now)
  }

  predicate FromGateway(s: Server, a: Attempt) {
    a.peer == s.gatewayUID && a.verb == "POST" && a.path == "/restart"
  }

  /** Every check that stands between a request and a restart. */
  predicate Authorized(s: Server, a: Attempt) {
    && FromGateway(s, a) && a.body.Request? && Enabled(s, a)
    && Identity(s, a).Some? && "repair" in Identity(s, a).value.roles
    && Permits(LoadPolicy(s, a).value, REPAIR, a.body.tool, a.body.target, s.glob)
  }

  predicate CanRestart(a: Attempt)
    requires a.body.Request?
  {
    (a.body.tool == "restart_service" && a.services) || (a.body.tool == "restart_container" && a.containers)
  }

  /** The restart is known to have ended, or never to have begun, when the call returns. */
  predicate Known(a: Attempt) {
    a.restart.Failed? || a.restart.issue != UNKNOWN
  }

  /** The line an audit write leaves. */
  function Line(event: Event, write: Write): seq<Item> {
    if write.Lost? then [] else [Audit(event)]
  }

  function DeniedItems(q: nat, token: string, code: int, write: Write): seq<Item> {
    Line(Event(q, token, "", "", "denied", "denied"), write) + [Respond(q, if write.Written? then code else 503)]
  }

  function Started(s: Server, q: nat, a: Attempt): Event
    requires Authorized(s, a)
  {
    Event(q, Identity(s, a).value.id, a.body.tool, a.body.target, "allowed", "started")
  }

  /** The outcome text of the closing audit event. */
  function Outcome(a: Attempt): string
    requires a.body.Request?
  {
    if !CanRestart(a) || a.restart.Failed? then "failed"
    else if a.restart.issue != "" then a.restart.issue else "completed"
  }

  function Closing(s: Server, q: nat, a: Attempt): seq<Item>
    requires Authorized(s, a)
  {
    var code := if a.lastAudit.Written? && CanRestart(a) && a.restart.Finished? then 200 else 503;
    Line(Started(s, q, a).(outcome := Outcome(a)), a.lastAudit) + [Respond(q, code)]
  }

  /** The call of the restarter. */
  function Restarting(q: nat, a: Attempt): seq<Item>
    requires a.body.Request?
  {
    if !CanRestart(a) then []
    else [RestartBegin(q, a.body.tool, a.body.target)] + (if Known(a) then [RestartEnd(q)] else []) + [Returned(q)]
  }

  /** What an authorized request makes observable. */
  function Performed(s: Server, q: nat, a: Attempt): seq<Item>
    requires Authorized(s, a)
  {
    if !a.firstAudit.Written? then Line(Started(s, q, a), a.firstAudit) + [Respond(q, 503)]
    else [Audit(Started(s, q, a))] + Restarting(q, a) + Closing(s, q, a)
  }

  /** Everything one request makes observable. */
  function Items(s: Server, q: nat, a: Attempt): seq<Item> {
    if !FromGateway(s, a) then DeniedItems(q, "", 403, a.firstAudit)
    else if !a.body.Request? then DeniedItems(q, "", 400, a.firstAudit)
    else if !Enabled(s, a) then DeniedItems(q, "", 403, a.firstAudit)
    else if Identity(s, a).None? then DeniedItems(q, "", 403, a.firstAudit)
    else if !Authorized(s, a) then DeniedItems(q, Identity(s, a).value.id, 403, a.firstAudit)
    else Performed(s, q, a)
  }

  class Worker {
    const server: Server
    var trace: seq<Item>

    constructor (server: Server)
      ensures this.server == server && trace == []
    {
      this.server, trace := server, [];
    }

    /** `record`: an audit line is written, or an error is reported with or without it. */
    method Record(event: Event, write: Write) returns (ok: bool)
      modifies this
      ensures ok == write.Written? && trace == old(trace) + Line(event, write)
    {
      if !write.Lost? {
        trace := trace + [Audit(event)];
      }
      return write.Written?;
    }

    method Deny(event: Event, code: int, write: Write)
      modifies this
      ensures trace == old(trace) + Line(event, write) + [Respond(event.request, if write.Written? then code else 503)]
    {
      var ok := Record(event, write);
      trace := trace + [Respond(event.request, if ok then code else 503)];
    }

    method Handle(q: nat, a: Attempt)
      modifies this
      ensures trace == old(trace) + Items(server, q, a)
    {
      var event := Event(q, "", "", "", "denied", "denied");
      if a.peer != server.gatewayUID || a.verb != "POST" || a.path != "/restart" {
        Deny(event, 403, a.firstAudit);
        return;
      }
      if !a.body.Request? {
        Deny(event, 400, a.firstAudit);
        return;
      }
      if !Enabled(server, a) {
        Deny(event, 403, a.firstAudit);
        return;
      }
      var token := Identity(server, a);
      if token.None? {
        Deny(event, 403, a.firstAudit);
        return;
      }
      event := event.(token := token.value.id);
      var allowed := Allows(LoadPolicy(server, a).value, REPAIR, a.body.tool, a.body.target, server.glob);
      if "repair" !in token.value.roles || !allowed {
        Deny(event, 403, a.firstAudit);
        return;
      }
      Perform(q, a, event.(tool := a.body.tool, target := a.body.target, decision := "allowed", outcome := "started"));
    }

    /** From the start event of an authorized request to its answer. */
    method Perform(q: nat, a: Attempt, started: Event)
      requires Authorized(server, a) && started == Started(server, q, a)
      modifies this
      ensures trace == old(trace) + Performed(server, q, a)
    {
      var ok := Record(started, a.firstAudit);
      if !ok {
        trace := trace + [Respond(q, 503)];
        return;
      }
      var failed := Restart(q, a);
      var event := started.(outcome := "completed");
      if failed {
        event := event.(outcome := "failed");
      } else if a.restart.issue != "" {
        event := event.(outcome := a.restart.issue);
      }
      ok := Record(event, a.lastAudit);
      trace := trace + [Respond(q, if ok && !failed then 200 else 503)];
    }

    /** The switch over the tool and the native call; an unknown tool or a missing restarter is an error. */
    method Restart(q: nat, a: Attempt) returns (failed: bool)
      requires a.body.Request?
      modifies this
      ensures trace == old(trace) + Restarting(q, a)
      ensures failed <==> !CanRestart(a) || a.restart.Failed?
    {
      if !CanRestart(a) {
        return true;
      }
      trace := trace + [RestartBegin(q, a.body.tool, a.body.target)];
      if Known(a) {
        trace := trace + [RestartEnd(q)];
      }
      trace := trace + [Returned(q)];
      return a.restart.Failed?;
    }
  }

  // ----- the checks, one by one -----

  /** A stored record is this secret's, unrevoked and unexpired. */
  ghost predicate Fits(s: Server, t: Token, secret: string, now: int) {
    && t.hash == (if t.legacy then s.legacy(secret) else s.modern(secret))
    && !t.revoked && (t.expires.Never? || now < t.expires.instant)
  }

  ghost predicate FitsFirst(s: Server, records: seq<Token>, secret: string, now: int, i: nat) {
    i < |records| && Fits(s, records[i], secret, now) && forall k :: 0 <= k < i ==> !Fits(s, records[k], secret, now)
  }

  lemma {:induction false} VerifiedFirst(s: Server, records: seq<Token>, secret: string, now: int) returns (i: nat)
    ensures i <= |records| && forall k :: 0 <= k < i ==> !Fits(s, records[k], secret, now)
    ensures i < |records| ==> Fits(s, records[i], secret, now)
    ensures Verified(s, records, secret, now) == if i < |records| then Some(records[i]) else None
  {
    i := 0;
    if records != [] && !Fits(s, records[0], secret, now) {
      var rest := VerifiedFirst(s, records[1..], secret, now);
      i := rest + 1;
      assert forall k :: 0 < k <= rest && k < |records| ==> records[k] == records[1..][k - 1];
    }
  }

  /** The configuration permits repair and is the one this worker was started with. */
  ghost predicate SettingsAgree(s: Server, c: Settings) {
    && !c.readOnly && c.gatewayUID == s.gatewayUID && c.repairUID == s.euid
    && c.tokenStore == s.tokenPath && c.repairSocket == s.socket
  }

  /** The profile directory loads and compiles. */
  ghost predicate Loads(s: Server, c: Settings) {
    && ProfileLoader.LoadList(c.dir, c.active, 0, map[]).Loaded?
    && CompileSpec(c.dir, c.active, ToolGate.Effects(), s.glob).Ok?
  }

  lemma {:induction false} LoadsExactly(s: Server, a: Attempt)
    ensures LoadPolicy(s, a).Some? <==> a.settings.Some? && Loads(s, a.settings.value)
    ensures LoadPolicy(s, a).Some? ==>
              var c := a.settings.value;
              Ok(LoadPolicy(s, a).value) == CompileSpec(c.dir, c.active, ToolGate.Effects(), s.glob)
  {
    if a.settings.Some? && ProfileLoader.LoadList(a.settings.value.dir, a.settings.value.active, 0, map[]).Loaded? {
      ProfileLoader.LoadedPolicyIsDirectoryPolicy(
        a.settings.value.dir, a.settings.value.active, ToolGate.Effects(), s.glob);
    }
  }

  /** The secret is that of the stored record `i` and of none before it, which may repair and has this identifier. */
  ghost predicate TokenChecked(s: Server, a: Attempt, i: nat, id: string)
    requires a.body.Request?
  {
    && a.records.Some? && 32 <= |a.body.secret| <= 128
    && FitsFirst(s, a.records.value, a.body.secret, a.now, i)
    && a.records.value[i].id == id && "repair" in a.records.value[i].roles
  }

  /** Every check that stands between a request and a restart by the token `id`. */
  ghost predicate Checked(s: Server, a: Attempt, id: string) {
    && a.peer == s.gatewayUID && a.verb == "POST" && a.path == "/restart" && a.body.Request?
    && a.settings.Some? && SettingsAgree(s, a.settings.value) && Loads(s, a.settings.value)
    && (exists i: nat :: TokenChecked(s, a, i, id))
    && RepairGranted(a.settings.value.dir, a.settings.value.active, s.glob, a.body.tool, a.body.target)
  }

  lemma {:induction false} TokenCheckedExactly(s: Server, a: Attempt, id: string)
    requires a.body.Request?
    ensures Identity(s, a).Some? && "repair" in Identity(s, a).value.roles && Identity(s, a).value.id == id
       <==> exists i: nat :: TokenChecked(s, a, i, id)
  {
    if a.records.Some? {
      var i := VerifiedFirst(s, a.records.value, a.body.secret, a.now);
      forall j: nat | TokenChecked(s, a, j, id)
        ensures j == i
      {
        assert FitsFirst(s, a.records.value, a.body.secret, a.now, j);
      }
      if Identity(s, a).Some? && "repair" in Identity(s, a).value.roles && Identity(s, a).value.id == id {
        assert TokenChecked(s, a, i, id);
      }
    }
  }

  lemma {:induction false} GrantedExactly(s: Server, a: Attempt)
    requires a.body.Request? && LoadPolicy(s, a).Some?
    ensures Permits(LoadPolicy(s, a).value, REPAIR, a.body.tool, a.body.target, s.glob)
       <==> RepairGranted(a.settings.value.dir, a.settings.value.active, s.glob, a.body.tool, a.body.target)
  {
    var c := a.settings.value;
    LoadsExactly(s, a);
    RepairPermitsExactly(c.dir, c.active, ToolGate.Effects(), s.glob, a.body.tool, a.body.target);
  }

  /** A request is authorized exactly when each check holds, and then for the token it identified. */
  lemma {:induction false} AuthorizedExactly(s: Server, a: Attempt, id: string)
    ensures Checked(s, a, id) <==> Authorized(s, a) && Identity(s, a).value.id == id
  {
    LoadsExactly(s, a);
    if a.body.Request? {
      TokenCheckedExactly(s, a, id);
      if LoadPolicy(s, a).Some? {
        GrantedExactly(s, a);
      }
    }
  }

  // ----- one request -----

  /** A permitted repair names one of the two restarts. */
  lemma {:induction false} PermittedRepairIsRestart(s: Server, a: Attempt, tool: string, target: string)
    requires LoadPolicy(s, a).Some? && Permits(LoadPolicy(s, a).value, REPAIR, tool, target, s.glob)
    ensures tool == "restart_service" || tool == "restart_container"
  {
    var c, p, key := a.settings.value, LoadPolicy(s, a).value, RuleKey(REPAIR, tool);
    var got := ProfileLoader.LoadList(c.dir, c.active, 0, map[]).profiles;
    var grant :| grant in RulesAt(p.allow, key) && Matches(grant, REPAIR, tool, target, s.glob);
    CompiledMembers(got, c.active, ToolGate.Effects(), s.glob, key, grant);
    ToolGate.RepairToolsAreRestarts(tool);
  }

  /** A restart stands second, right behind its own recorded start event; all checks held. */
  ghost predicate RestartJustified(s: Server, q: nat, a: Attempt, m: int) {
    && m == 1 && Authorized(s, a) && CanRestart(a) && a.firstAudit.Written?
    && (a.body.tool == "restart_service" || a.body.tool == "restart_container")
  }

  /** Where the items of a request that calls the restarter stand. */
  lemma {:induction false} RestartingShape(s: Server, q: nat, a: Attempt)
    requires Authorized(s, a) && CanRestart(a) && a.firstAudit.Written?
    ensures var items, closing := Items(s, q, a), Audit(Started(s, q, a).(outcome := Outcome(a)));
            var r := if Known(a) then 3 else 2;
            && |items| > r + 1 && items[0] == Audit(Started(s, q, a))
            && items[1] == RestartBegin(q, a.body.tool, a.body.target) && items[r] == Returned(q)
            && (Known(a) ==> items[2] == RestartEnd(q))
            && (!a.lastAudit.Lost? ==> |items| == r + 3 && items[r + 1] == closing)
            && items[|items| - 1] == Respond(q, if a.lastAudit.Written? && a.restart.Finished? then 200 else 503)
  {
    var begin := [Audit(Started(s, q, a))] + Restarting(q, a);
    assert |begin| == if Known(a) then 4 else 3;
    assert Items(s, q, a) == begin + Closing(s, q, a);
  }

  /** A denied event names no tool or target. */
  ghost predicate EventSound(i: Item) {
    i.Audit? && i.event.decision == "denied" ==> i.event.tool == "" && i.event.target == ""
  }

  /** What an item of a request may be: justified as a restart, an end, a denial or a success. */
  ghost predicate ItemFits(s: Server, q: nat, a: Attempt, items: seq<Item>, m: nat)
    requires m < |items|
  {
    var i := items[m];
    && RequestOf(i) == q
    && (i.RestartBegin? ==> RestartJustified(s, q, a, m) && i == RestartBegin(q, a.body.tool, a.body.target))
    && (i.RestartEnd? ==> RestartJustified(s, q, a, 1) && Known(a))
    && EventSound(i)
    && (i.Respond? && i.code == 200 ==>
          && m > 0 && Authorized(s, a) && a.restart.Finished?
          && items[m - 1] == Audit(Started(s, q, a).(outcome := Outcome(a))))
  }

  lemma {:induction false} PerformedShape(s: Server, q: nat, a: Attempt, m: nat)
    requires Authorized(s, a) && m < |Performed(s, q, a)|
    ensures ItemFits(s, q, a, Performed(s, q, a), m)
  {
    if a.firstAudit.Written? && CanRestart(a) {
      RestartingFits(s, q, a, m);
    } else {
      IdleFits(s, q, a, m);
    }
  }

  lemma {:induction false} RestartingFits(s: Server, q: nat, a: Attempt, m: nat)
    requires Authorized(s, a) && m < |Performed(s, q, a)| && a.firstAudit.Written? && CanRestart(a)
    ensures ItemFits(s, q, a, Performed(s, q, a), m)
  {
    assert "denied"[0] != "allowed"[0];
    PermittedRepairIsRestart(s, a, a.body.tool, a.body.target);
    RestartingShape(s, q, a);
  }

  lemma {:induction false} IdleFits(s: Server, q: nat, a: Attempt, m: nat)
    requires Authorized(s, a) && m < |Performed(s, q, a)| && !(a.firstAudit.Written? && CanRestart(a))
    ensures ItemFits(s, q, a, Performed(s, q, a), m)
  {
    assert "denied"[0] != "allowed"[0];
  }

  lemma {:induction false} ItemsShape(s: Server, q: nat, a: Attempt, m: nat)
    requires m < |Items(s, q, a)|
    ensures ItemFits(s, q, a, Items(s, q, a), m)
  {
    if Authorized(s, a) {
      PerformedShape(s, q, a, m);
    }
  }

  /** The code a request is answered with. */
  ghost function Code(s: Server, q: nat, a: Attempt): int {
    var items := Items(s, q, a);
    if items != [] && items[|items| - 1].Respond? then items[|items| - 1].code else 0
  }

  /** The request names a restart that this worker has a restarter for. */
  ghost predicate HasRestarter(a: Attempt) {
    && a.body.Request?
    && ((a.body.tool == "restart_service" && a.services) || (a.body.tool == "restart_container" && a.containers))
  }

  /** What the closing event says: a failure, the issue that was returned, or completion. */
  ghost function Ending(a: Attempt): string {
    if !HasRestarter(a) || a.restart.Failed? then "failed"
    else if a.restart.issue == "" then "completed" else a.restart.issue
  }

  /** A checked request with its start on record, and no other, calls the restarter; a 200 says that all went well. */
  lemma {:induction false} CheckedRequest(s: Server, q: nat, a: Attempt, id: string)
    requires Checked(s, a, id)
    ensures RestartBegin(q, a.body.tool, a.body.target) in Items(s, q, a) <==> a.firstAudit.Written? && HasRestarter(a)
    ensures Code(s, q, a)
         == if a.firstAudit.Written? && a.lastAudit.Written? && HasRestarter(a) && a.restart.Finished? then 200 else 503
    ensures a.firstAudit.Written? && !a.lastAudit.Lost? ==>
              exists m :: 0 < m < |Items(s, q, a)|
                  && Items(s, q, a)[m] == Audit(Event(q, id, a.body.tool, a.body.target, "allowed", Ending(a)))
  {
    AuthorizedExactly(s, a, id);
    if a.firstAudit.Written? && CanRestart(a) {
      RestartingAnswer(s, q, a);
    } else {
      IdleAnswer(s, q, a);
    }
  }

  lemma {:induction false} RestartingAnswer(s: Server, q: nat, a: Attempt)
    requires Authorized(s, a) && CanRestart(a) && a.firstAudit.Written?
    ensures RestartBegin(q, a.body.tool, a.body.target) in Items(s, q, a)
    ensures Code(s, q, a) == if a.lastAudit.Written? && a.restart.Finished? then 200 else 503
    ensures !a.lastAudit.Lost? ==>
              exists m :: 0 < m < |Items(s, q, a)|
                  && Items(s, q, a)[m] == Audit(Started(s, q, a).(outcome := Outcome(a)))
  {
    RestartingShape(s, q, a);
  }

  lemma {:induction false} IdleAnswer(s: Server, q: nat, a: Attempt)
    requires Authorized(s, a) && !(CanRestart(a) && a.firstAudit.Written?)
    ensures RestartBegin(q, a.body.tool, a.body.target) !in Items(s, q, a)
    ensures Code(s, q, a) == 503
    ensures a.firstAudit.Written? && !a.lastAudit.Lost? ==>
              |Items(s, q, a)| > 1 && Items(s, q, a)[1] == Audit(Started(s, q, a).(outcome := "failed"))
  {
    assert forall i :: i in Items(s, q, a) ==> i.Audit? || i == Respond(q, 503);
  }

  /** A request that fails a check shows one denied event and its answer, 503 if the event is not on record. */
  lemma {:induction false} UncheckedRequest(s: Server, q: nat, a: Attempt)
    requires !exists id :: Checked(s, a, id)
    ensures Code(s, q, a)
         == if !a.firstAudit.Written? then 503
            else if a.peer == s.gatewayUID && a.verb == "POST" && a.path == "/restart" && !a.body.Request? then 400
            else 403
    ensures forall i :: i in Items(s, q, a) ==> i.Respond? || i.Audit?
    ensures !a.firstAudit.Lost? ==>
              exists token :: Items(s, q, a)[0] == Audit(Event(q, token, "", "", "denied", "denied"))
                  && (token != "" ==> a.records.Some? && exists t :: t in a.records.value && t.id == token)
  {
    if Authorized(s, a) {
      AuthorizedExactly(s, a, Identity(s, a).value.id);
    }
  }

  /** The closing event's outcome tells whether the restart is known to have ended. */
  lemma {:induction false} OutcomeTells(a: Attempt)
    requires a.body.Request? && CanRestart(a)
    ensures Known(a) <==> Outcome(a) != "restart_outcome_unknown"
  {
    assert UNKNOWN[0] == 'r' && "failed"[0] == 'f' && "completed"[0] == 'c';
  }

  // ----- every run of the worker, with the single admission slot -----

  datatype Active = Active(request: nat, attempt: Attempt, next: nat)
  datatype State = State(trace: seq<Item>, slot: Option<Active>, admitted: map<nat, Attempt>, refused: set<nat>)
  datatype Step = Arrive(request: nat, attempt: Attempt) | Emit | Leave

  const Idle := State([], None, map[], {})

  /** Request identifiers are fresh; a request that finds the slot taken is turned away. */
  ghost predicate CanStep(s: Server, st: State, step: Step) {
    match step
    case Arrive(q, _) => q !in st.admitted && q !in st.refused
    case Emit => st.slot.Some? && st.slot.value.next < |Items(s, st.slot.value.request, st.slot.value.attempt)|
    case Leave => st.slot.Some? && st.slot.value.next == |Items(s, st.slot.value.request, st.slot.value.attempt)|
  }

  ghost function TakeStep(s: Server, st: State, step: Step): State
    requires CanStep(s, st, step)
  {
    match step
    case Arrive(q, a) =>
      if st.slot.None? then st.(slot := Some(Active(q, a, 0)), admitted := st.admitted[q := a])
      else st.(trace := st.trace + [Respond(q, 503)], refused := st.refused + {q})
    case Emit =>
      var v := st.slot.value;
      st.(trace := st.trace + [Items(s, v.request, v.attempt)[v.next]], slot := Some(v.(next := v.next + 1)))
    case Leave => st.(slot := None)
  }

  ghost predicate RunOf(s: Server, steps: seq<Step>, states: seq<State>) {
    && |states| == |steps| + 1 && states[0] == Idle
    && forall k :: 0 <= k < |steps| ==> StepAt(s, steps, states, k)
  }

  ghost predicate StepAt(s: Server, steps: seq<Step>, states: seq<State>, k: nat)
    requires |states| == |steps| + 1 && k < |steps|
  {
    CanStep(s, states[k], steps[k]) && states[k + 1] == TakeStep(s, states[k], steps[k])
  }

  /** The item stands behind position `k` and before `end`. */
  ghost predicate Between(trace: seq<Item>, k: int, end: int, i: Item) {
    exists j :: 0 <= j < |trace| && k < j < end && trace[j] == i
  }

  ghost predicate Before(trace: seq<Item>, end: int, i: Item) {
    Between(trace, -1, end, i)
  }

  /** A restart in the trace has its own earlier start event, and every check held for it. */
  ghost predicate RestartSound(s: Server, st: State, k: nat)
    requires k < |st.trace|
  {
    st.trace[k].RestartBegin? ==>
      && st.trace[k].request in st.admitted
      && var q, a := st.trace[k].request, st.admitted[st.trace[k].request];
         && RestartJustified(s, q, a, 1) && a.body.tool == st.trace[k].tool && a.body.target == st.trace[k].target
         && Before(st.trace, k, Audit(Started(s, q, a)))
  }

  ghost predicate AnswerSound(s: Server, st: State, k: nat)
    requires k < |st.trace|
  {
    st.trace[k].Respond? && st.trace[k].code == 200 ==>
      && st.trace[k].request in st.admitted
      && var q, a := st.trace[k].request, st.admitted[st.trace[k].request];
         Authorized(s, a) && a.restart.Finished? && Before(st.trace, k, Audit(Started(s, q, a).(outcome := Outcome(a))))
  }

  /** An end in the trace belongs to a restart with a known outcome. */
  ghost predicate EndSound(st: State, k: nat)
    requires k < |st.trace|
  {
    st.trace[k].RestartEnd? ==> st.trace[k].request in st.admitted && Known(st.admitted[st.trace[k].request])
  }

  ghost predicate ItemSound(s: Server, st: State, k: nat)
    requires k < |st.trace|
  {
    RestartSound(s, st, k) && AnswerSound(s, st, k) && EventSound(st.trace[k]) && EndSound(st, k)
  }

  /** How far a request has come: one that has left the slot has emitted everything. */
  function Progress(s: Server, st: State, q: nat, a: Attempt): nat {
    if st.slot.Some? && st.slot.value.request == q then st.slot.value.next else |Items(s, q, a)|
  }

  /** The items behind a restart up to item `upto` of its request stand between the restart and `end`. */
  ghost predicate Followed(s: Server, trace: seq<Item>, k: int, end: int, q: nat, a: Attempt, upto: nat) {
    forall m :: 2 <= m < upto && m < |Items(s, q, a)| ==> Between(trace, k, end, Items(s, q, a)[m])
  }

  /** Between two restarts, of different requests, stands all the first one's request had to emit. */
  ghost predicate Apart(s: Server, st: State, i: nat, k: nat)
    requires i < |st.trace| && k < |st.trace|
  {
    i < k && st.trace[i].RestartBegin? && st.trace[k].RestartBegin? ==>
      && st.trace[i].request != st.trace[k].request && st.trace[i].request in st.admitted
      && var q, a := st.trace[i].request, st.admitted[st.trace[i].request];
         Followed(s, st.trace, i, k, q, a, |Items(s, q, a)|)
  }

  ghost predicate OneAtATime(s: Server, st: State) {
    forall i, k :: 0 <= i < |st.trace| && 0 <= k < |st.trace| ==> Apart(s, st, i, k)
  }

  /** What has followed a restart so far. */
  ghost predicate Tracked(s: Server, st: State, k: nat)
    requires k < |st.trace|
  {
    st.trace[k].RestartBegin? ==>
      && st.trace[k].request in st.admitted
      && var q, a := st.trace[k].request, st.admitted[st.trace[k].request];
         Followed(s, st.trace, k, |st.trace|, q, a, Progress(s, st, q, a))
  }

  /** Progress of the admitted request is exactly what the trace shows of it. */
  ghost predicate SlotSound(s: Server, st: State) {
    st.slot.Some? ==>
      var v := st.slot.value;
      && v.request in st.admitted && st.admitted[v.request] == v.attempt
      && v.next <= |Items(s, v.request, v.attempt)|
      && (forall m :: 0 <= m < v.next ==> Before(st.trace, |st.trace|, Items(s, v.request, v.attempt)[m]))
      && (v.next <= 1 ==> NoRestartOf(st.trace, v.request))
  }

  ghost predicate NoRestartOf(trace: seq<Item>, q: nat) {
    forall k :: 0 <= k < |trace| && trace[k].RestartBegin? ==> trace[k].request != q
  }

  ghost predicate Inv(s: Server, st: State) {
    && SlotSound(s, st) && OneAtATime(s, st)
    && (forall k :: 0 <= k < |st.trace| ==> ItemSound(s, st, k) && Tracked(s, st, k))
  }

  // ----- preservation -----

  lemma {:induction false} AppendBetween(trace: seq<Item>, i: Item, k: int, end: int, x: Item)
    requires end <= |trace| && Between(trace, k, end, x)
    ensures Between(trace + [i], k, end, x) && Between(trace + [i], k, |trace| + 1, x)
  {
    var j :| 0 <= j < |trace| && k < j < end && trace[j] == x;
    assert (trace + [i])[j] == x;
  }

  lemma {:induction false} AppendedBetween(trace: seq<Item>, i: Item, k: int)
    requires k < |trace|
    ensures Between(trace + [i], k, |trace| + 1, i)
  {
    assert (trace + [i])[|trace|] == i;
  }

  lemma {:induction false} AppendFollowed(
    s: Server, trace: seq<Item>, i: Item, k: int, end: int, q: nat, a: Attempt, upto: nat)
    requires end <= |trace| && Followed(s, trace, k, end, q, a, upto)
    ensures Followed(s, trace + [i], k, end, q, a, upto) && Followed(s, trace + [i], k, |trace| + 1, q, a, upto)
  {
    forall m | 2 <= m < upto && m < |Items(s, q, a)|
      ensures Between(trace + [i], k, end, Items(s, q, a)[m]) && Between(trace + [i], k, |trace| + 1, Items(s, q, a)[m])
    {
      AppendBetween(trace, i, k, end, Items(s, q, a)[m]);
    }
  }

  /** Appending keeps what was already justified. */
  lemma {:induction false} AppendKeeps(s: Server, st: State, later: State, i: Item, k: nat)
    requires later.trace == st.trace + [i] && later.admitted == st.admitted
    requires k < |st.trace| && ItemSound(s, st, k)
    ensures ItemSound(s, later, k)
  {
    var x := st.trace[k];
    assert later.trace[k] == x;
    if x.RestartBegin? {
      AppendBetween(st.trace, i, -1, k, Audit(Started(s, x.request, st.admitted[x.request])));
    }
    if x.Respond? && x.code == 200 {
      var q, a := x.request, st.admitted[x.request];
      AppendBetween(st.trace, i, -1, k, Audit(Started(s, q, a).(outcome := Outcome(a))));
    }
  }

  lemma {:induction false} AppendApart(s: Server, st: State, later: State, x: Item)
    requires later.trace == st.trace + [x] && later.admitted == st.admitted && OneAtATime(s, st)
    requires forall k :: 0 <= k < |st.trace| ==> Tracked(s, st, k)
    requires x.RestartBegin? ==> NoRestartOf(st.trace, x.request) && st.slot.Some? && st.slot.value.request == x.request
    ensures OneAtATime(s, later)
  {
    forall i, k | 0 <= i < |later.trace| && 0 <= k < |later.trace|
      ensures Apart(s, later, i, k)
    {
      if i < k && later.trace[i].RestartBegin? && later.trace[k].RestartBegin? {
        var q := st.trace[i].request;
        assert Tracked(s, st, i);
        var a := st.admitted[q];
        if k < |st.trace| {
          assert Apart(s, st, i, k);
          AppendFollowed(s, st.trace, x, i, k, q, a, |Items(s, q, a)|);
        } else {
          AppendFollowed(s, st.trace, x, i, |st.trace|, q, a, |Items(s, q, a)|);
        }
      }
    }
  }

  lemma {:induction false} TurnedAwayInv(s: Server, st: State, q: nat, a: Attempt)
    requires Inv(s, st) && CanStep(s, st, Arrive(q, a)) && st.slot.Some?
    ensures Inv(s, TakeStep(s, st, Arrive(q, a)))
  {
    var i := Respond(q, 503);
    var v, later := st.slot.value, TakeStep(s, st, Arrive(q, a));
    AppendApart(s, st, later, i);
    forall k | 0 <= k < |later.trace|
      ensures ItemSound(s, later, k) && Tracked(s, later, k)
    {
      if k < |st.trace| {
        AppendKeeps(s, st, later, i, k);
        AppendTracked(s, st, later, i, k);
      }
    }
    forall m | 0 <= m < v.next
      ensures Before(later.trace, |later.trace|, Items(s, v.request, v.attempt)[m])
    {
      AppendBetween(st.trace, i, -1, |st.trace|, Items(s, v.request, v.attempt)[m]);
    }
    assert NoRestartOf(st.trace, v.request) ==> NoRestartOf(later.trace, v.request);
  }

  /** A restart whose request has not moved stays tracked. */
  lemma {:induction false} AppendTracked(s: Server, st: State, later: State, i: Item, k: nat)
    requires later.trace == st.trace + [i] && later.admitted == st.admitted && k < |st.trace| && Tracked(s, st, k)
    requires st.trace[k].RestartBegin? && st.trace[k].request in st.admitted ==>
               var q, a := st.trace[k].request, st.admitted[st.trace[k].request];
               Progress(s, later, q, a) == Progress(s, st, q, a)
    ensures Tracked(s, later, k)
  {
    if st.trace[k].RestartBegin? {
      var q, a := st.trace[k].request, st.admitted[st.trace[k].request];
      AppendFollowed(s, st.trace, i, k, |st.trace|, q, a, Progress(s, st, q, a));
    }
  }

  lemma {:induction false} AdmitInv(s: Server, st: State, q: nat, a: Attempt)
    requires Inv(s, st) && CanStep(s, st, Arrive(q, a)) && st.slot.None?
    ensures Inv(s, TakeStep(s, st, Arrive(q, a)))
  {
    var later := TakeStep(s, st, Arrive(q, a));
    forall k | 0 <= k < |st.trace|
      ensures ItemSound(s, later, k) && Tracked(s, later, k) && (st.trace[k].RestartBegin? ==> st.trace[k].request != q)
    {
      assert ItemSound(s, st, k) && Tracked(s, st, k);
    }
    forall i, k | 0 <= i < |st.trace| && 0 <= k < |st.trace|
      ensures Apart(s, later, i, k)
    {
      assert Apart(s, st, i, k);
    }
  }

  /** The item just emitted is itself justified. */
  lemma {:induction false} EmittedSound(s: Server, st: State)
    requires Inv(s, st) && CanStep(s, st, Emit)
    ensures ItemSound(s, TakeStep(s, st, Emit), |st.trace|)
  {
    var v, later := st.slot.value, TakeStep(s, st, Emit);
    var items := Items(s, v.request, v.attempt);
    ItemsShape(s, v.request, v.attempt, v.next);
    assert later.trace[|st.trace|] == items[v.next];
    if v.next > 0 {
      AppendBetween(st.trace, items[v.next], -1, |st.trace|, items[v.next - 1]);
    }
    if items[v.next].RestartBegin? {
      RestartingShape(s, v.request, v.attempt);
    }
  }

  lemma {:induction false} EmitSlot(s: Server, st: State)
    requires Inv(s, st) && CanStep(s, st, Emit)
    ensures SlotSound(s, TakeStep(s, st, Emit))
  {
    var v, later := st.slot.value, TakeStep(s, st, Emit);
    var items := Items(s, v.request, v.attempt);
    EmittedOn(st.trace, items, v.next);
    EmitFirst(s, st);
  }

  /** The next item joins those already in the trace. */
  lemma {:induction false} EmittedOn(trace: seq<Item>, items: seq<Item>, next: nat)
    requires next < |items| && forall m :: 0 <= m < next ==> Before(trace, |trace|, items[m])
    ensures forall m :: 0 <= m < next + 1 ==> Before(trace + [items[next]], |trace| + 1, items[m])
  {
    forall m | 0 <= m < next + 1
      ensures Before(trace + [items[next]], |trace| + 1, items[m])
    {
      if m < next {
        AppendBetween(trace, items[next], -1, |trace|, items[m]);
      } else {
        AppendedBetween(trace, items[m], -1);
      }
    }
  }

  /** The first item of a request is no restart. */
  lemma {:induction false} EmitFirst(s: Server, st: State)
    requires Inv(s, st) && CanStep(s, st, Emit)
    ensures st.slot.value.next == 0 ==> NoRestartOf(TakeStep(s, st, Emit).trace, st.slot.value.request)
  {
    if st.slot.value.next == 0 {
      ItemsShape(s, st.slot.value.request, st.slot.value.attempt, 0);
    }
  }

  lemma {:induction false} FollowedOn(s: Server, trace: seq<Item>, k: nat, q: nat, a: Attempt, next: nat)
    requires k < |trace| && next < |Items(s, q, a)| && Followed(s, trace, k, |trace|, q, a, next)
    ensures Followed(s, trace + [Items(s, q, a)[next]], k, |trace| + 1, q, a, next + 1)
  {
    var i := Items(s, q, a)[next];
    AppendFollowed(s, trace, i, k, |trace|, q, a, next);
    AppendedBetween(trace, i, k);
  }

  /** The restart of the request in the slot is tracked one item further. */
  lemma {:induction false} EmitTracked(s: Server, st: State, k: nat)
    requires Inv(s, st) && CanStep(s, st, Emit) && k < |st.trace|
    ensures Tracked(s, TakeStep(s, st, Emit), k)
  {
    var v, later := st.slot.value, TakeStep(s, st, Emit);
    var i := Items(s, v.request, v.attempt)[v.next];
    assert Tracked(s, st, k) && later.trace[k] == st.trace[k];
    if st.trace[k].RestartBegin? && st.trace[k].request == v.request {
      FollowedOn(s, st.trace, k, v.request, v.attempt, v.next);
    } else {
      AppendTracked(s, st, later, i, k);
    }
  }

  lemma {:induction false} EmitInv(s: Server, st: State)
    requires Inv(s, st) && CanStep(s, st, Emit)
    ensures Inv(s, TakeStep(s, st, Emit))
  {
    var v, later := st.slot.value, TakeStep(s, st, Emit);
    var i := Items(s, v.request, v.attempt)[v.next];
    EmitSlot(s, st);
    ItemsShape(s, v.request, v.attempt, v.next);
    AppendApart(s, st, later, i);
    EmittedSound(s, st);
    forall k | 0 <= k < |later.trace|
      ensures ItemSound(s, later, k) && Tracked(s, later, k)
    {
      if k < |st.trace| {
        AppendKeeps(s, st, later, i, k);
        EmitTracked(s, st, k);
      }
    }
  }

  lemma {:induction false} LeaveInv(s: Server, st: State)
    requires Inv(s, st) && CanStep(s, st, Leave)
    ensures Inv(s, TakeStep(s, st, Leave))
  {
    var later := TakeStep(s, st, Leave);
    forall k | 0 <= k < |st.trace|
      ensures ItemSound(s, later, k) && Tracked(s, later, k)
    {
      assert ItemSound(s, st, k) && Tracked(s, st, k);
    }
    forall i, k | 0 <= i < |st.trace| && 0 <= k < |st.trace|
      ensures Apart(s, later, i, k)
    {
      assert Apart(s, st, i, k);
    }
  }

  lemma {:induction false} RunInv(s: Server, steps: seq<Step>, states: seq<State>, k: nat)
    requires RunOf(s, steps, states) && k < |states|
    ensures Inv(s, states[k])
  {
    if k > 0 {
      RunInv(s, steps, states, k - 1);
      assert StepAt(s, steps, states, k - 1);
      match steps[k - 1] {
        case Arrive(q, a) =>
          if states[k - 1].slot.None? {
            AdmitInv(s, states[k - 1], q, a);
          } else {
            TurnedAwayInv(s, states[k - 1], q, a);
          }
        case Emit => EmitInv(s, states[k - 1]);
        case Leave => LeaveInv(s, states[k - 1]);
      }
    }
  }

  // ----- what every run guarantees -----

  /**
   In every run each restart has its own earlier recorded start event with the same
   request, token, tool and target; every check held for it and it is one of the two
   restarts; and the call of every earlier restart, of another request, has returned.
   */
  lemma {:induction false} EveryRestartIsAudited(s: Server, steps: seq<Step>, states: seq<State>, n: nat, k: nat)
    requires RunOf(s, steps, states) && n < |states| && k < |states[n].trace| && states[n].trace[k].RestartBegin?
    ensures var st := states[n];
            var q := st.trace[k].request;
            && q in st.admitted && st.admitted[q].body.Request?
            && st.admitted[q].body.tool == st.trace[k].tool && st.admitted[q].body.target == st.trace[k].target
            && (st.trace[k].tool == "restart_service" || st.trace[k].tool == "restart_container")
            && (exists id :: Checked(s, st.admitted[q], id)
                  && Before(st.trace, k,
                            Audit(Event(q, id, st.trace[k].tool, st.trace[k].target, "allowed", "started"))))
            && forall i :: 0 <= i < k && st.trace[i].RestartBegin? ==>
                 st.trace[i].request != q && Between(st.trace, i, k, Returned(st.trace[i].request))
  {
    RunInv(s, steps, states, n);
    var st := states[n];
    assert ItemSound(s, st, k);
    AuthorizedExactly(s, st.admitted[st.trace[k].request], Identity(s, st.admitted[st.trace[k].request]).value.id);
    forall i | 0 <= i < k && st.trace[i].RestartBegin?
      ensures st.trace[i].request != st.trace[k].request && Between(st.trace, i, k, Returned(st.trace[i].request))
    {
      EarlierRestart(s, st, i, k);
    }
  }

  /** What stands between a restart and a later one. */
  lemma {:induction false} EarlierRestart(s: Server, st: State, i: nat, k: nat)
    requires Inv(s, st) && i < k < |st.trace| && st.trace[i].RestartBegin? && st.trace[k].RestartBegin?
    ensures var q := st.trace[i].request;
            && q != st.trace[k].request && q in st.admitted && Authorized(s, st.admitted[q])
            && var a := st.admitted[q];
               && Between(st.trace, i, k, Returned(q))
               && (Known(a) ==> Between(st.trace, i, k, RestartEnd(q)))
               && (!a.lastAudit.Lost? ==> Between(st.trace, i, k, Audit(Started(s, q, a).(outcome := Outcome(a)))))
  {
    var q := st.trace[i].request;
    assert ItemSound(s, st, i) && Apart(s, st, i, k);
    RestartingShape(s, q, st.admitted[q]);
  }

  /**
   A restart has ended before a later one begins exactly when its outcome was known to
   its call, which is what its closing audit event says; a restart of unknown outcome has
   no end in the trace at all, and the next one may begin beside it.
   */
  lemma {:induction false} EndedExactlyWhenKnown(
    s: Server, steps: seq<Step>, states: seq<State>, n: nat, i: nat, k: nat)
    requires RunOf(s, steps, states) && n < |states| && i < k < |states[n].trace|
    requires states[n].trace[i].RestartBegin? && states[n].trace[k].RestartBegin?
    ensures var st := states[n];
            var q := st.trace[i].request;
            && q in st.admitted && Authorized(s, st.admitted[q])
            && var a := st.admitted[q];
               && (Between(st.trace, i, k, RestartEnd(q)) <==> Outcome(a) != "restart_outcome_unknown")
               && (Outcome(a) == "restart_outcome_unknown" ==> RestartEnd(q) !in st.trace)
               && (!a.lastAudit.Lost? ==> Between(st.trace, i, k, Audit(Started(s, q, a).(outcome := Outcome(a)))))
  {
    RunInv(s, steps, states, n);
    var st := states[n];
    EarlierRestart(s, st, i, k);
    var q := st.trace[i].request;
    assert ItemSound(s, st, i);
    OutcomeTells(st.admitted[q]);
    forall j | 0 <= j < |st.trace| && st.trace[j] == RestartEnd(q)
      ensures Known(st.admitted[q])
    {
      assert ItemSound(s, st, j);
    }
  }

  /** A 200 answer has its recorded closing event, and a denied event names no tool or target. */
  lemma {:induction false} AnswersAndDenials(s: Server, steps: seq<Step>, states: seq<State>, n: nat, k: nat)
    requires RunOf(s, steps, states) && n < |states| && k < |states[n].trace|
    ensures var st := states[n];
            && EventSound(st.trace[k])
            && (st.trace[k].Respond? && st.trace[k].code == 200 ==>
                  && st.trace[k].request in st.admitted
                  && var q, a := st.trace[k].request, st.admitted[st.trace[k].request];
                     && Authorized(s, a) && a.restart.Finished?
                     && Before(st.trace, k, Audit(Started(s, q, a).(outcome := Outcome(a)))))
  {
    RunInv(s, steps, states, n);
    assert ItemSound(s, states[n], k);
  }
}
