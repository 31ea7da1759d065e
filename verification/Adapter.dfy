/** The session of the MCP adapter, src/compat/complete_adapter.rs: the initialize / initialized lifecycle,
    capability negotiation, and tool calls behind a bounded replay window. Text of replies and audit records
    are left out; a request says what its parameters parse to. */
module AdapterSpec {
  import opened Errors
  import opened Schemas
  import opened Arguments
  import opened Capabilities
  import opened RequestWindow
  import opened RouterSpec

  const REPLAY_WINDOW: nat := 1024

  datatype RequestId = StringId(s: string) | NumberId(digits: string) | NullId | Missing

  /** `offer` is what the client capabilities in the parameters parse to, if they are well formed;
      `versionOk` whether the requested protocol version can be negotiated; `call` the tool name and arguments
      of well-formed tools/call parameters. */
  datatype Request = Request(methodName: string, id: RequestId, hasParams: bool,
                             offer: Option<Manifest>, versionOk: bool, call: Option<ToolCall>)

  datatype ToolCall = ToolCall(name: string, arguments: Option<Json>)

  predicate IsNotification(r: Request) { r.id.Missing? }

  predicate NotificationOnly(m: string) {
    m == "notifications/initialized" || m == "notifications/cancelled"
  }

  predicate RemoteShutdown(m: string) {
    m in ["shutdown", "exit", "terminate", "server/shutdown", "notifications/shutdown"]
  }

  predicate RequiresInitialized(m: string) {
    m in ["roots/list", "elicitation/create", "tools/list", "tools/call", "resources/list", "resources/read",
          "resources/subscribe", "resources/unsubscribe", "prompts/list", "prompts/get", "logging/setLevel",
          "sampling/createMessage", "completion/complete"]
  }

  /** The identifier under which a request is remembered; strings and numbers with equal text share it. */
  function IdText(id: RequestId): Option<string> {
    match id
    case StringId(s) => Some(s)
    case NumberId(d) => Some(d)
    case NullId => Some("null")
    case Missing => None
  }

  function ReplayKey(id: string): string { "tools/call:" + id }

  /** The settings of the server, which may be changed between requests: tool names, offer, registered resources and
      policy. */
  datatype Server = Server(toolIds: map<string, nat>, offer: Manifest, resourceIds: set<nat>, policy: Option<Manifest>)

  datatype Session = Session(initializeSeen: bool, initializedSeen: bool, negotiated: Manifest, window: Window)

  datatype Reply =
    | Rejected | Replied | ReplayRejected(key: string) | Recorded(key: string) | Executed(key: string, tool: nat)

  const Nothing := Manifest(1, {}, {}, {}, {})

  function Fresh(): Session {
    Session(false, false, Nothing, Window([], REPLAY_WINDOW))
  }

  function ServerOffer(v: Server): Manifest {
    var m := v.offer.(resources := v.offer.resources + v.resourceIds);
    if v.policy.Some? then Intersect(m, v.policy.value) else m
  }

  function HandleInitialize(v: Server, s: Session, r: Request): (Session, Reply) {
    if r.methodName != "initialize" || IsNotification(r) then (s, Rejected)
    else if r.offer.None? || !r.versionOk || s.initializeSeen then (s, Rejected)
    else (s.(initializeSeen := true, negotiated := Intersect(r.offer.value, ServerOffer(v))), Replied)
  }

  function HandleInitialized(s: Session, r: Request): (Session, Reply) {
    if r.methodName != "notifications/initialized" || !IsNotification(r) then (s, Rejected)
    else if r.hasParams || !s.initializeSeen || s.initializedSeen then (s, Rejected)
    else (s.(initializedSeen := true), Replied)
  }

  function HandleToolsCall(v: Server, registry: Registry, s: Session, r: Request): (Session, Reply) {
    if r.methodName != "tools/call" || IsNotification(r) then (s, Rejected)
    else if RequiresInitialized(r.methodName) && !s.initializedSeen then (s, Rejected)
    else if r.call.None? || r.call.value.name !in v.toolIds then (s, Rejected)
    else
      var tool := v.toolIds[r.call.value.name];
      if tool !in s.negotiated.tools || tool !in registry then (s, Rejected)
      else match Encode(registry[tool].schema, r.call.value.arguments)
        case Err(_) => (s, Rejected)
        case Ok(args) =>
          var key := ReplayKey(IdText(r.id).value);
          if !Accepts(s.window, key) then (s, ReplayRejected(key))
          else
            var s' := s.(window := Record(s.window, key));
            match Authorize(registry, s.negotiated.tools, tool, args)
            case Ok(_) => (s', Executed(key, tool))
            case Err(_) => (s', Recorded(key))
  }

  /** The main dispatch; methods that touch none of this state are answered without a change. */
  function HandleRequest(v: Server, registry: Registry, s: Session, r: Request): (Session, Reply) {
    if RemoteShutdown(r.methodName) then (s, Rejected)
    else if IsNotification(r) && !NotificationOnly(r.methodName) then (s, Rejected)
    else if !IsNotification(r) && NotificationOnly(r.methodName) then (s, Rejected)
    else if !IsNotification(r) && RequiresInitialized(r.methodName) && !s.initializedSeen then (s, Rejected)
    else if r.methodName == "initialize" then HandleInitialize(v, s, r)
    else if r.methodName == "notifications/initialized" then HandleInitialized(s, r)
    else if r.methodName == "tools/call" then HandleToolsCall(v, registry, s, r)
    else (s, Replied)
  }

  /** Handlers are public too, so a run may call them directly or through the dispatch. */
  datatype Handler = ViaDispatch | ToInitialize | ToInitialized | ToToolsCall

  /** A request, the handler it is given to, and the settings and the router at that moment. */
  datatype Entry = Entry(server: Server, registry: Registry, handler: Handler, r: Request)

  function Step(s: Session, e: Entry): (Session, Reply) {
    match e.handler
    case ViaDispatch => HandleRequest(e.server, e.registry, s, e.r)
    case ToInitialize => HandleInitialize(e.server, s, e.r)
    case ToInitialized => HandleInitialized(s, e.r)
    case ToToolsCall => HandleToolsCall(e.server, e.registry, s, e.r)
  }

  // ---- runs ----

  /** What a session has done: a negotiation, its completion, and executions, each with the position of its
      key among the keys recorded, the router it went to and the arguments it was given. */
  datatype Event =
    | DidInitialize(offer: Manifest, server: Server, negotiated: Manifest)
    | DidComplete
    | DidExecute(tool: nat, at: nat, registry: Registry, arguments: Option<Json>)

  datatype SessionTrace = SessionTrace(session: Session, events: seq<Event>, keys: seq<string>)

  function EventsOf(t: SessionTrace, e: Entry, s': Session, a: Reply): seq<Event> {
    (if s'.initializeSeen && !t.session.initializeSeen && e.r.offer.Some?
     then [DidInitialize(e.r.offer.value, e.server, s'.negotiated)] else [])
    + (if s'.initializedSeen && !t.session.initializedSeen then [DidComplete] else [])
    + (if a.Executed? && e.r.call.Some?
       then [DidExecute(a.tool, |t.keys|, e.registry, e.r.call.value.arguments)] else [])
  }

  function KeysOf(a: Reply): seq<string> {
    if a.Executed? || a.Recorded? then [a.key] else []
  }

  function After(t: SessionTrace, e: Entry): SessionTrace {
    var (s', a) := Step(t.session, e);
    SessionTrace(s', t.events + EventsOf(t, e, s', a), t.keys + KeysOf(a))
  }

  function Run(t: SessionTrace, entries: seq<Entry>): SessionTrace
    decreases |entries|
  {
    if entries == [] then t else Run(After(t, entries[0]), entries[1..])
  }

  const Start := SessionTrace(Fresh(), [], [])

  predicate InitializedAt(t: SessionTrace, i: nat) {
    i < |t.events| && t.events[i].DidInitialize?
  }

  predicate CompletedAt(t: SessionTrace, i: nat) {
    i < |t.events| && t.events[i].DidComplete?
  }

  /** The lifecycle as it shows in the events: first the negotiation, then its completion, then executions. */
  predicate Lifecycle(t: SessionTrace) {
    && (t.session.initializedSeen ==> t.session.initializeSeen)
    && (t.session.initializeSeen <==> |t.events| >= 1)
    && (t.session.initializedSeen <==> |t.events| >= 2)
    && (InitializedAt(t, 0) <==> |t.events| >= 1)
    && (CompletedAt(t, 1) <==> |t.events| >= 2)
    && (forall i :: 2 <= i < |t.events| ==> t.events[i].DidExecute? && t.events[i].tool in t.session.negotiated.tools)
    && (if |t.events| >= 1
        then t.events[0].DidInitialize? && t.session.negotiated == t.events[0].negotiated
             && t.events[0].negotiated == Intersect(t.events[0].offer, ServerOffer(t.events[0].server))
        else t.session.negotiated == Nothing)
  }

  predicate Recording(t: SessionTrace) {
    && t.session.window.maxEntries == REPLAY_WINDOW
    && WindowOf(t.session.window, t.keys) && Separated(t.keys, REPLAY_WINDOW)
    && (forall i :: 2 <= i < |t.events| && t.events[i].DidExecute? ==> t.events[i].at < |t.keys|)
    && (forall i, j :: 2 <= i < j < |t.events| && t.events[i].DidExecute? && t.events[j].DidExecute? ==>
          t.events[i].at < t.events[j].at)
  }

  lemma ToolsCallShape(v: Server, registry: Registry, s: Session, r: Request)
    ensures var (s', a) := HandleToolsCall(v, registry, s, r);
      || (s' == s && !a.Executed? && !a.Recorded?)
      || ((a.Executed? || a.Recorded?) && s.initializedSeen && Accepts(s.window, a.key)
          && s' == s.(window := Record(s.window, a.key))
          && (a.Executed? ==> a.tool in s.negotiated.tools))
  {
    assert RequiresInitialized("tools/call");
  }

  /** What a handler accepts: the arguments encode by the schema of the tool and pass its validation. */
  predicate Acceptable(registry: Registry, tool: nat, arguments: Option<Json>) {
    && tool in registry
    && Encode(registry[tool].schema, arguments).Ok?
    && Validate(registry[tool].schema, Encode(registry[tool].schema, arguments).value).Ok?
  }

  /** A well-formed call, in an initialized session, of a tool that is negotiated and registered. */
  predicate Addressed(v: Server, registry: Registry, s: Session, r: Request) {
    && r.methodName == "tools/call" && !r.id.Missing? && s.initializedSeen
    && r.call.Some? && r.call.value.name in v.toolIds
    && v.toolIds[r.call.value.name] in s.negotiated.tools && v.toolIds[r.call.value.name] in registry
    && Encode(registry[v.toolIds[r.call.value.name]].schema, r.call.value.arguments).Ok?
  }

  function KeyOf(r: Request): string
    requires !r.id.Missing?
  {
    ReplayKey(IdText(r.id).value)
  }

  /** Requests share a key exactly when their identifiers read the same; `null` reads as its name. */
  lemma KeysAreTexts(r: Request, text: string)
    requires !r.id.Missing?
    ensures KeyOf(r) == "tools/call:" + text <==>
      r.id == StringId(text) || r.id == NumberId(text) || (r.id.NullId? && text == "null")
  {
    var t := IdText(r.id).value;
    var key := "tools/call:" + text;
    assert |"tools/call:"| == 11;
    assert KeyOf(r)[11..] == t && key[11..] == text;
  }

  /** Exactly which calls execute: the addressed ones with acceptable arguments whose key is not in the window. One with
      refused arguments is only recorded, and one whose key is in the window is refused as a replay. */
  lemma ToolsCallExecutesExactly(v: Server, registry: Registry, s: Session, r: Request)
    ensures var a := HandleToolsCall(v, registry, s, r).1;
      && (a.Executed? <==>
            && Addressed(v, registry, s, r) && KeyOf(r) !in s.window.order
            && Acceptable(registry, v.toolIds[r.call.value.name], r.call.value.arguments))
      && (a.Recorded? <==>
            && Addressed(v, registry, s, r) && KeyOf(r) !in s.window.order
            && !Acceptable(registry, v.toolIds[r.call.value.name], r.call.value.arguments))
      && (a.ReplayRejected? <==> Addressed(v, registry, s, r) && KeyOf(r) in s.window.order)
      && (a.Executed? ==> a.tool == v.toolIds[r.call.value.name] && a.key == KeyOf(r))
      && (a.Recorded? ==> a.key == KeyOf(r))
  {
    hide Encode, Validate;
    assert RequiresInitialized("tools/call");
  }

  /** The same of every entry, directly or through the dispatch. */
  lemma StepExecutesExactly(s: Session, e: Entry)
    ensures Step(s, e).1.Executed? <==>
      && (e.handler.ViaDispatch? || e.handler.ToToolsCall?)
      && Addressed(e.server, e.registry, s, e.r) && KeyOf(e.r) !in s.window.order
      && Acceptable(e.registry, e.server.toolIds[e.r.call.value.name], e.r.call.value.arguments)
    ensures Step(s, e).1.Executed? ==> Step(s, e).1.tool == e.server.toolIds[e.r.call.value.name]
  {
    ToolsCallExecutesExactly(e.server, e.registry, s, e.r);
    hide HandleToolsCall, HandleInitialize, HandleInitialized, Acceptable;
    AnswersWithoutExecuting(e.server, s, e.r);
    assert RequiresInitialized("tools/call");
  }

  /** Methods other than the three that touch the session are answered, without a change, exactly when they come as a
      request or as a notification as they should, not before the handshake if they need it, and stop no server. */
  lemma OthersAreAnsweredExactly(v: Server, registry: Registry, s: Session, r: Request)
    requires r.methodName !in {"initialize", "notifications/initialized", "tools/call"}
    ensures var (s', a) := HandleRequest(v, registry, s, r);
      && s' == s
      && a == if !RemoteShutdown(r.methodName) && (r.id.Missing? <==> r.methodName == "notifications/cancelled")
                 && (RequiresInitialized(r.methodName) ==> s.initializedSeen)
              then Replied else Rejected
  {
    hide RemoteShutdown, HandleInitialize, HandleInitialized, HandleToolsCall;
    assert !RequiresInitialized("notifications/cancelled");
    hide RequiresInitialized;
  }

  lemma AnswersWithoutExecuting(v: Server, s: Session, r: Request)
    ensures !HandleInitialize(v, s, r).1.Executed? && !HandleInitialized(s, r).1.Executed?
  {
  }

  /** Exactly which entries initialize a session, and which complete it. */
  lemma HandshakeSucceedsExactly(s: Session, e: Entry)
    ensures !s.initializeSeen && Step(s, e).0.initializeSeen <==>
      && (e.handler.ViaDispatch? || e.handler.ToInitialize?)
      && !s.initializeSeen && e.r.methodName == "initialize" && !e.r.id.Missing? && e.r.offer.Some? && e.r.versionOk
    ensures !s.initializedSeen && Step(s, e).0.initializedSeen <==>
      && (e.handler.ViaDispatch? || e.handler.ToInitialized?)
      && s.initializeSeen && !s.initializedSeen
      && e.r.methodName == "notifications/initialized" && e.r.id.Missing? && !e.r.hasParams
  {
    hide Record, Accepts, Encode, Validate, ServerOffer;
    ToolsCallShape(e.server, e.registry, s, e.r);
    hide HandleToolsCall;
    assert !RequiresInitialized("initialize") && !RemoteShutdown("initialize") && !NotificationOnly("initialize");
    assert NotificationOnly("notifications/initialized") && !RemoteShutdown("notifications/initialized");
  }

  /** A step is one of five kinds. */
  lemma StepShape(s: Session, e: Entry)
    ensures var (s', a) := Step(s, e);
      || (s' == s && !a.Executed? && !a.Recorded?)
      || (!s.initializeSeen && e.r.offer.Some? && !a.Executed? && !a.Recorded?
          && s' == s.(initializeSeen := true, negotiated := Intersect(e.r.offer.value, ServerOffer(e.server))))
      || (s.initializeSeen && !s.initializedSeen && !a.Executed? && !a.Recorded? && s' == s.(initializedSeen := true))
      || ((a.Executed? || a.Recorded?) && s.initializedSeen && Accepts(s.window, a.key)
          && s' == s.(window := Record(s.window, a.key))
          && (a.Executed? ==> a.tool in s.negotiated.tools))
  {
    hide HandleToolsCall, ServerOffer, RemoteShutdown, NotificationOnly, RequiresInitialized, Accepts, Record;
    ToolsCallShape(e.server, e.registry, s, e.r);
  }

  lemma StepKeepsLifecycle(t: SessionTrace, e: Entry)
    requires Lifecycle(t)
    ensures Lifecycle(After(t, e))
  {
    StepShape(t.session, e);
    var (s', a) := Step(t.session, e);
    var es := EventsOf(t, e, s', a);
    var t' := After(t, e);
    assert |es| <= 1;
    if es == [] {
      assert t'.events == t.events;
    } else {
      assert t'.events == t.events + [es[0]];
    }
  }

  lemma StepKeepsRecording(t: SessionTrace, e: Entry)
    requires Lifecycle(t) && Recording(t)
    ensures Recording(After(t, e))
  {
    StepShape(t.session, e);
    var (s', a) := Step(t.session, e);
    var t' := After(t, e);
    if a.Executed? || a.Recorded? {
      RecordKeepsWindow(t.session.window, t.keys, a.key);
      assert t'.keys == t.keys + [a.key];
    } else {
      assert t'.keys == t.keys;
    }
  }

  lemma {:induction false} RunKeepsInv(t: SessionTrace, entries: seq<Entry>)
    requires Lifecycle(t) && Recording(t)
    ensures Lifecycle(Run(t, entries)) && Recording(Run(t, entries))
    decreases |entries|
  {
    if entries != [] {
      StepKeepsLifecycle(t, entries[0]);
      StepKeepsRecording(t, entries[0]);
      RunKeepsInv(After(t, entries[0]), entries[1..]);
    }
  }

  /** What the server can agree to: its offer, the registered resources with it, as far as its policy allows. */
  lemma ServerOfferIsGreatest(v: Server, m: Manifest)
    ensures Within(m, ServerOffer(v)) <==>
      && m.version <= v.offer.version && m.tools <= v.offer.tools && m.prompts <= v.offer.prompts
      && m.extensions <= v.offer.extensions
      && (forall r :: r in m.resources ==> r in v.offer.resources || r in v.resourceIds)
      && (v.policy.Some? ==> Within(m, v.policy.value))
  {
  }

  /** The negotiated manifest of every run is the greatest within what client, server and policy offer. */
  lemma {:induction false} NegotiatedIsGreatest(entries: seq<Entry>, m: Manifest)
    ensures var t := Run(Start, entries);
      |t.events| >= 1 ==>
        && t.events[0].DidInitialize?
        && (Within(m, t.session.negotiated) <==>
              Within(m, t.events[0].offer) && Within(m, ServerOffer(t.events[0].server)))
  {
    var t := Run(Start, entries);
    ExecutionIsNegotiated(entries);
    hide Run, ServerOffer, Intersect, Within;
    if |t.events| >= 1 { IntersectIsGreatest(t.events[0].offer, ServerOffer(t.events[0].server), m); }
  }

  /** In every run a handler executes only after one successful initialize and then one completed initialized
      notification; the negotiated set is fixed by that initialize, lies within what client, server and policy
      offer, and contains every tool executed. */
  lemma {:induction false} ExecutionIsNegotiated(entries: seq<Entry>)
    ensures var t := Run(Start, entries);
      && (forall i :: 0 <= i < |t.events| ==>
            (t.events[i].DidInitialize? <==> i == 0) && (t.events[i].DidComplete? <==> i == 1))
      && (|t.events| >= 1 ==>
            && t.events[0].DidInitialize?
            && t.session.negotiated == t.events[0].negotiated
            && t.session.negotiated == Intersect(t.events[0].offer, ServerOffer(t.events[0].server))
            && t.session.negotiated.tools <= t.events[0].offer.tools
            && t.session.negotiated.tools <= t.events[0].server.offer.tools
            && (t.events[0].server.policy.Some? ==>
                  t.session.negotiated.tools <= t.events[0].server.policy.value.tools))
      && (forall i :: 0 <= i < |t.events| && t.events[i].DidExecute? ==>
            i >= 2 && t.events[i].tool in t.session.negotiated.tools)
  {
    hide Run, Recording;
    RunKeepsInv(Start, entries);
  }

  predicate Sound(e: Event) {
    e.DidExecute? ==> Acceptable(e.registry, e.tool, e.arguments)
  }

  /** In every run, what reached a handler had been accepted by the schema of its tool in the router it went to. */
  lemma {:induction false} ExecutionIsValidated(t: SessionTrace, entries: seq<Entry>)
    requires forall i :: 0 <= i < |t.events| ==> Sound(t.events[i])
    ensures var r := Run(t, entries); forall i :: 0 <= i < |r.events| ==> Sound(r.events[i])
    decreases |entries|
  {
    hide Step, Sound;
    if entries != [] {
      NewEventsAreSound(t, entries[0]);
      assert Run(t, entries) == Run(After(t, entries[0]), entries[1..]);
      ExecutionIsValidated(After(t, entries[0]), entries[1..]);
    }
  }

  lemma NewEventsAreSound(t: SessionTrace, e: Entry)
    requires forall i :: 0 <= i < |t.events| ==> Sound(t.events[i])
    ensures var r := After(t, e); forall i :: 0 <= i < |r.events| ==> Sound(r.events[i])
  {
    StepExecutesExactly(t.session, e);
    hide Step, Acceptable;
    var (s', a) := Step(t.session, e);
    var es := EventsOf(t, e, s', a);
    assert After(t, e).events == t.events + es;
    forall i | 0 <= i < |es| ensures Sound(es[i]) {
      if es[i].DidExecute? {
        assert es[i] == DidExecute(a.tool, |t.keys|, e.registry, e.r.call.value.arguments);
      }
    }
  }

  /** The handshake is complete in `t`, and `e` is a call of a negotiated tool that the router has, with arguments the
      router's schema accepts and a key that is not among the last 1024 recorded. */
  predicate Reaches(t: SessionTrace, e: Entry) {
    && CompletedAt(t, 1)
    && (e.handler.ViaDispatch? || e.handler.ToToolsCall?)
    && e.r.methodName == "tools/call" && !e.r.id.Missing?
    && e.r.call.Some? && e.r.call.value.name in e.server.toolIds
    && e.server.toolIds[e.r.call.value.name] in t.session.negotiated.tools
    && Acceptable(e.registry, e.server.toolIds[e.r.call.value.name], e.r.call.value.arguments)
    && KeyOf(e.r) !in Suffix(t.keys, REPLAY_WINDOW)
  }

  lemma ReachesIsExecuted(t: SessionTrace, e: Entry)
    requires Lifecycle(t) && Recording(t)
    ensures Step(t.session, e).1.Executed? <==> Reaches(t, e)
    ensures Reaches(t, e) ==> Step(t.session, e).1.tool == e.server.toolIds[e.r.call.value.name]
  {
    StepExecutesExactly(t.session, e);
    hide Step, Encode, Validate, Suffix, Separated, Distinct;
  }

  lemma ExecutedIsAppended(t: SessionTrace, e: Entry)
    requires Lifecycle(t)
    ensures var a, es, es' := Step(t.session, e).1, t.events, After(t, e).events;
      if a.Executed?
      then e.r.call.Some? && es' == es + [DidExecute(a.tool, |t.keys|, e.registry, e.r.call.value.arguments)]
      else |es'| > |es| ==> !es'[|es|].DidExecute?
  {
    StepShape(t.session, e);
    StepExecutesExactly(t.session, e);
    hide Step, Acceptable, Record;
    var (s', a) := Step(t.session, e);
    assert After(t, e).events == t.events + EventsOf(t, e, s', a);
  }

  /** Behind any run an entry reaches a handler exactly when it should, as the tool its name stands for and with its own
      arguments. */
  lemma {:induction false} RunExecutesExactly(entries: seq<Entry>, e: Entry)
    ensures var t := Run(Start, entries);
      var es, es' := t.events, After(t, e).events;
      && (|es'| > |es| && es'[|es|].DidExecute? <==> Reaches(t, e))
      && (Reaches(t, e) ==>
            es' == es + [DidExecute(e.server.toolIds[e.r.call.value.name], |t.keys|, e.registry,
                                    e.r.call.value.arguments)])
  {
    RunKeepsInv(Start, entries);
    var t := Run(Start, entries);
    hide Run, Lifecycle, Recording, After;
    ReachesIsExecuted(t, e);
    ExecutedIsAppended(t, e);
    hide *;
  }

  /** Two executions under the same replay key have at least 1024 other keys recorded between them, all different. */
  lemma {:induction false} ReplaysAreFarApart(entries: seq<Entry>, i: nat, j: nat)
    requires var t := Run(Start, entries);
      i < j < |t.events| && t.events[i].DidExecute? && t.events[j].DidExecute?
    ensures var t := Run(Start, entries);
      var a, b := t.events[i].at, t.events[j].at;
      && a < b < |t.keys|
      && (t.keys[a] == t.keys[b] ==>
            && b - a - 1 >= REPLAY_WINDOW
            && (forall k :: a < k <= a + REPLAY_WINDOW ==> t.keys[k] != t.keys[a])
            && (forall k, m :: a < k < m <= a + REPLAY_WINDOW ==> t.keys[k] != t.keys[m]))
  {
    RunKeepsInv(Start, entries);
    var t := Run(Start, entries);
    ExecutionIsNegotiated(entries);
    hide Run, WindowOf, Separated;
    var a, b := t.events[i].at, t.events[j].at;
    assert a < b < |t.keys|;
    if t.keys[a] == t.keys[b] { KeysBetweenAreOthers(t.keys, REPLAY_WINDOW, a, b); }
  }
}

module Adapter {
  import opened Errors
  import opened Schemas
  import opened Arguments
  import opened Capabilities
  import opened RequestWindow
  import opened RouterSpec
  import opened AdapterSpec

  class CompleteMcpAdapter {
    var server: Server
    var negotiatedManifest: Manifest
    var initializeSeen: bool
    var initializedSeen: bool
    const replayGuard: RequestReplayGuard

    ghost predicate Valid()
      reads this, replayGuard
    {
      replayGuard.Valid() && replayGuard.maxEntries == REPLAY_WINDOW
    }

    ghost function View(): Session
      reads this, replayGuard
    {
      Session(initializeSeen, initializedSeen, negotiatedManifest, replayGuard.View())
    }

    constructor (server: Server)
      ensures Valid() && View() == AdapterSpec.Fresh() && this.server == server && fresh(replayGuard)
    {
      this.server := server;
      negotiatedManifest, initializeSeen, initializedSeen := AdapterSpec.Nothing, false, false;
      replayGuard := new RequestReplayGuard(REPLAY_WINDOW);
    }

    method Initialize(r: Request) returns (a: Reply)
      requires Valid()
      modifies this`initializeSeen, this`negotiatedManifest
      ensures Valid()
      ensures View() == HandleInitialize(server, old(View()), r).0
      ensures a == HandleInitialize(server, old(View()), r).1
    {
      if r.methodName != "initialize" || IsNotification(r) { return Rejected; }
      if r.offer.None? { return Rejected; }
      if !r.versionOk { return Rejected; }
      if initializeSeen { return Rejected; }
      initializeSeen := true;
      var serverManifest := server.offer.(resources := server.offer.resources + server.resourceIds);
      if server.policy.Some? { serverManifest := Intersect(serverManifest, server.policy.value); }
      negotiatedManifest := Intersect(r.offer.value, serverManifest);
      return Replied;
    }

    method Initialized(r: Request) returns (a: Reply)
      requires Valid()
      modifies this`initializedSeen
      ensures Valid()
      ensures View() == HandleInitialized(old(View()), r).0
      ensures a == HandleInitialized(old(View()), r).1
    {
      if r.methodName != "notifications/initialized" || !IsNotification(r) { return Rejected; }
      if r.hasParams { return Rejected; }
      if !initializeSeen { return Rejected; }
      if initializedSeen { return Rejected; }
      initializedSeen := true;
      return Replied;
    }

    method ToolsCall(r: Request, registry: Registry) returns (a: Reply)
      requires Valid()
      modifies replayGuard
      ensures Valid()
      ensures View() == HandleToolsCall(server, registry, old(View()), r).0
      ensures a == HandleToolsCall(server, registry, old(View()), r).1
    {
      if r.methodName != "tools/call" || IsNotification(r) { return Rejected; }
      if RequiresInitialized(r.methodName) && !initializedSeen { return Rejected; }
      if r.call.None? || r.call.value.name !in server.toolIds { return Rejected; }
      var tool := server.toolIds[r.call.value.name];
      if tool !in negotiatedManifest.tools { return Rejected; }
      if tool !in registry { return Rejected; }
      var encoded := EncodeJsonArguments(registry[tool].schema, r.call.value.arguments);
      if encoded.Err? { return Rejected; }
      var key := ReplayKey(IdText(r.id).value);
      var isNew := replayGuard.CheckAndRecord(key);
      if !isNew { return ReplayRejected(key); }
      match Authorize(registry, negotiatedManifest.tools, tool, encoded.value)
      case Ok(_) => return Executed(key, tool);
      case Err(_) => return Recorded(key);
    }

    method Handle(r: Request, registry: Registry) returns (a: Reply)
      requires Valid()
      modifies this`initializeSeen, this`initializedSeen, this`negotiatedManifest, replayGuard
      ensures Valid()
      ensures View() == HandleRequest(server, registry, old(View()), r).0
      ensures a == HandleRequest(server, registry, old(View()), r).1
    {
      var isNotification := IsNotification(r);
      if RemoteShutdown(r.methodName) { return Rejected; }
      if isNotification && !NotificationOnly(r.methodName) { return Rejected; }
      if !isNotification && NotificationOnly(r.methodName) { return Rejected; }
      if !isNotification && RequiresInitialized(r.methodName) && !initializedSeen { return Rejected; }
      if r.methodName == "initialize" {
        a := Initialize(r);
      } else if r.methodName == "notifications/initialized" {
        a := Initialized(r);
      } else if r.methodName == "tools/call" {
        a := ToolsCall(r, registry);
      } else {
        return Replied;
      }
    }
  }
}
