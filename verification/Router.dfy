/** The tool router of src/dispatch/router.rs: registration, lookup, and the two guarded ways to a handler. */
module RouterSpec {
  import opened Bits
  import opened Errors
  import opened Schemas
  import opened NonceSpec
  import opened Capabilities

  datatype Tool = Tool(id: nat, name: string, schema: Schema)

  /** Registered tools by identifier. */
  type Registry = map<nat, Tool>

  /** Names and identifiers determine each other. */
  predicate Consistent(reg: Registry) {
    && (forall id :: id in reg ==> reg[id].id == id < MAX_TOOLS)
    && (forall a, b :: a in reg && b in reg && reg[a].name == reg[b].name ==> a == b)
  }

  predicate NameTaken(reg: Registry, name: string) {
    exists id :: id in reg && reg[id].name == name
  }

  predicate CanRegister(reg: Registry, tool: Tool) {
    tool.id < MAX_TOOLS && !NameTaken(reg, tool.name) && tool.id !in reg
  }

  /** A tool is refused exactly when it would replace another or leave names and identifiers undetermined. */
  lemma RegistersExactly(reg: Registry, tool: Tool)
    requires Consistent(reg)
    ensures CanRegister(reg, tool) <==> tool.id !in reg && Consistent(reg[tool.id := tool])
  {
    var reg' := reg[tool.id := tool];
    assert reg'[tool.id] == tool;
    if tool.id !in reg { assert forall id :: id in reg ==> reg'[id] == reg[id]; }
  }

  /** Whether a call with negotiated tools `caps` reaches the handler. */
  function Authorize(reg: Registry, caps: set<nat>, toolId: nat, args: Args): Result<Tool, SecurityError> {
    if toolId !in caps then Err(InsufficientCapabilities)
    else if toolId !in reg then Err(InsufficientCapabilities)
    else if Validate(reg[toolId].schema, args).Err? then Err(ArgumentsRefused)
    else Ok(reg[toolId])
  }

  /** A signed invocation, with the outcome of its two cryptographic checks. */
  datatype Signed = Signed(toolId: nat, nonce: nat, timestamp: nat, signatureOk: bool, argsHashOk: bool)

  function AuthorizeSigned(reg: Registry, caps: set<nat>, inv: Signed, args: Args, store: Store, now: nat, later: nat)
    : (Store, Result<Tool, SecurityError>)
  {
    if !inv.signatureOk then (store, Err(InvalidSignature))
    else if !inv.argsHashOk then (store, Err(ArgsHashMismatch))
    else if inv.toolId >= U16 then (store, Err(InsufficientCapabilities))
    else
      var (s, r) := Check(store, inv.nonce, inv.timestamp, now, later);
      match r
      case Err(e) => (s, Err(e))
      case Ok(_) => (s, Authorize(reg, caps, inv.toolId, args))
  }

  /** Exactly which signed calls reach which handler, and the first check that refuses the others. */
  lemma SignedReachesExactly(reg: Registry, caps: set<nat>, inv: Signed, args: Args, store: Store, now: nat, later: nat)
    ensures var r := AuthorizeSigned(reg, caps, inv, args, store, now, later).1;
      var genuine := inv.signatureOk && inv.argsHashOk && inv.toolId < 0x1_0000;
      var timely := InTime(store, inv.timestamp, now) && inv.nonce !in store.nonces
                    && |Unexpired(store, later)| < store.maxNonces;
      && (r.Ok? <==>
            && genuine && timely
            && inv.toolId in caps && inv.toolId in reg && Validate(reg[inv.toolId].schema, args).Ok?)
      && (r.Ok? ==> r.value == reg[inv.toolId])
      && (r == Err(InvalidSignature) <==> !inv.signatureOk)
      && (r == Err(ArgsHashMismatch) <==> inv.signatureOk && !inv.argsHashOk)
      && (r.Err? && r.error in {ExpiredTimestamp, ReplayAttack, CapacityExceeded} <==> genuine && !timely)
      && (r == Err(ArgumentsRefused) <==>
            && genuine && timely
            && inv.toolId in caps && inv.toolId in reg && Validate(reg[inv.toolId].schema, args).Err?)
  {
    CheckIsExact(store, inv.nonce, inv.timestamp, now, later);
    hide Check, Validate, InTime, Unexpired;
  }

  // ---- runs of signed calls ----

  datatype SignedCall = SignedCall(caps: set<nat>, inv: Signed, args: Args, now: nat, later: nat)

  /** The nonce trace and the (nonce, timestamp) pairs whose invocations reached a handler. */
  datatype SignedTrace = SignedTrace(nonces: NonceSpec.Trace, reached: seq<(nat, nat)>)

  predicate ClockRuns(t: SignedTrace, c: SignedCall) {
    CallsStore(c.inv) ==> t.nonces.cleanedAt <= c.now
  }

  function After(t: SignedTrace, reg: Registry, c: SignedCall): SignedTrace {
    var (store, r) := AuthorizeSigned(reg, c.caps, c.inv, c.args, t.nonces.store, c.now, c.later);
    var pair := (c.inv.nonce, c.inv.timestamp);
    var check := CheckNonce(pair.0, pair.1, c.now, c.later);
    SignedTrace(if CallsStore(c.inv) then NonceSpec.After(t.nonces, check) else t.nonces,
                if r.Ok? then t.reached + [pair] else t.reached)
  }

  predicate CallsStore(inv: Signed) {
    inv.signatureOk && inv.argsHashOk && inv.toolId < U16
  }

  predicate ValidRun(t: SignedTrace, reg: Registry, calls: seq<SignedCall>)
    decreases |calls|
  {
    calls == [] || (ClockRuns(t, calls[0]) && ValidRun(After(t, reg, calls[0]), reg, calls[1..]))
  }

  function Run(t: SignedTrace, reg: Registry, calls: seq<SignedCall>): SignedTrace
    decreases |calls|
  {
    if calls == [] then t else Run(After(t, reg, calls[0]), reg, calls[1..])
  }

  predicate Inv(t: SignedTrace) {
    && NonceSpec.Inv(t.nonces)
    && (forall i :: 0 <= i < |t.reached| ==> t.reached[i] in t.nonces.accepted)
    && (forall i, j :: 0 <= i < j < |t.reached| ==> t.reached[i] != t.reached[j])
  }

  /** The store of the trace is the store the call leaves behind, and a call that reaches a handler passed
      every check. */
  lemma SignedCallIsGuarded(t: SignedTrace, reg: Registry, c: SignedCall)
    ensures var (store, r) := AuthorizeSigned(reg, c.caps, c.inv, c.args, t.nonces.store, c.now, c.later);
      && After(t, reg, c).nonces.store == store
      && (r.Ok? ==>
        && c.inv.signatureOk && c.inv.argsHashOk
        && c.inv.toolId in c.caps && c.inv.toolId in reg && r.value == reg[c.inv.toolId]
        && Validate(r.value.schema, c.args).Ok?
        && !IsExpired(t.nonces.store, c.inv.timestamp, c.now)
        && c.inv.nonce !in t.nonces.store.nonces
        && After(t, reg, c).nonces.accepted == t.nonces.accepted + [(c.inv.nonce, c.inv.timestamp)])
  {
  }

  lemma CallKeepsInv(t: SignedTrace, reg: Registry, c: SignedCall)
    requires Inv(t) && ClockRuns(t, c)
    ensures Inv(After(t, reg, c))
  {
    SignedCallIsGuarded(t, reg, c);
    var t', pair := After(t, reg, c), (c.inv.nonce, c.inv.timestamp);
    if CallsStore(c.inv) {
      NonceSpec.CallKeepsInv(t.nonces, CheckNonce(pair.0, pair.1, c.now, c.later));
      var before, after := t.nonces.accepted, t'.nonces.accepted;
      assert forall p :: p in before ==> p in after;
      if t'.reached != t.reached {
        assert after == before + [pair] && after[|before|] == pair;
        forall i | 0 <= i < |before| ensures before[i] != pair {
          assert after[i] == before[i];
        }
      }
    }
  }

  lemma {:induction false} RunKeepsInv(t: SignedTrace, reg: Registry, calls: seq<SignedCall>)
    requires Inv(t) && ValidRun(t, reg, calls)
    ensures Inv(Run(t, reg, calls))
    decreases |calls|
  {
    if calls != [] {
      CallKeepsInv(t, reg, calls[0]);
      RunKeepsInv(After(t, reg, calls[0]), reg, calls[1..]);
    }
  }

  /** A signed invocation, which its nonce and timestamp identify, reaches a handler at most once in any run. */
  lemma {:induction false} SignedAtMostOnce(maxNonces: nat, expirationSecs: nat, reg: Registry, calls: seq<SignedCall>)
    requires ValidRun(SignedTrace(Start(maxNonces, expirationSecs), []), reg, calls)
    ensures var t := Run(SignedTrace(Start(maxNonces, expirationSecs), []), reg, calls);
      forall i, j :: 0 <= i < j < |t.reached| ==> t.reached[i] != t.reached[j]
  {
    RunKeepsInv(SignedTrace(Start(maxNonces, expirationSecs), []), reg, calls);
  }
}

module Router {
  import opened Bits
  import opened Errors
  import opened Schemas
  import opened NonceSpec
  import opened Nonces
  import opened Capabilities
  import opened RouterSpec

  /** The tools in the slots of the table. */
  function Installed(handlers: seq<Option<Tool>>): Registry {
    map id | 0 <= id < |handlers| && handlers[id].Some? :: handlers[id].value
  }

  lemma InstalledMore(before: seq<Option<Tool>>, after: seq<Option<Tool>>, tool: Tool)
    requires tool.id < |after| && after[tool.id] == Some(tool) && |before| <= |after|
    requires forall id :: 0 <= id < |after| && id != tool.id ==> after[id] == if id < |before| then before[id] else None
    ensures Installed(after) == Installed(before)[tool.id := tool]
  {
  }

  class BinaryTrieRouter {
    var handlers: seq<Option<Tool>>
    var nameToId: map<string, nat>
    var maxToolId: nat

    ghost function View(): Registry
      reads this
    {
      Installed(handlers)
    }

    ghost predicate Valid()
      reads this
    {
      && |handlers| <= MAX_TOOLS
      && (forall id :: 0 <= id < |handlers| && handlers[id].Some? ==>
            handlers[id].value.id == id <= maxToolId
            && handlers[id].value.name in nameToId && nameToId[handlers[id].value.name] == id)
      && (forall name :: name in nameToId ==>
            nameToId[name] < |handlers| && handlers[nameToId[name]].Some?
            && handlers[nameToId[name]].value.name == name)
    }

    /** Lookup by identifier and by name agree in every state the router can be in. */
    lemma ViewIsConsistent()
      requires Valid()
      ensures Consistent(View())
      ensures forall name :: NameTaken(View(), name) <==> name in nameToId
    {
      forall name | name in nameToId ensures NameTaken(View(), name) {
        assert nameToId[name] in View() && View()[nameToId[name]].name == name;
      }
    }

    constructor ()
      ensures Valid() && View() == map[]
    {
      handlers, nameToId, maxToolId := [], map[], 0;
    }

    method Register(tool: Tool) returns (r: Result<nat, DcpError>)
      requires Valid() && tool.id < U16
      modifies this
      ensures Valid()
      ensures r == if CanRegister(old(View()), tool) then Ok(tool.id) else Err(ValidationFailed)
      ensures View() == if r.Ok? then old(View())[tool.id := tool] else old(View())
    {
      if tool.id >= MAX_TOOLS { return Err(ValidationFailed); }
      if tool.name in nameToId {
        assert NameTaken(View(), tool.name) by { assert nameToId[tool.name] in View(); }
        return Err(ValidationFailed);
      }
      if tool.id < |handlers| && handlers[tool.id].Some? {
        assert tool.id in View();
        return Err(ValidationFailed);
      }
      Install(tool);
      return Ok(tool.id);
    }

    method Install(tool: Tool)
      requires Valid() && tool.id < MAX_TOOLS && tool.name !in nameToId
      requires tool.id < |handlers| ==> handlers[tool.id].None?
      modifies this
      ensures Valid() && View() == old(View())[tool.id := tool]
    {
      ghost var before, names := handlers, nameToId;
      assert forall name :: name in names ==> names[name] != tool.id;
      Grow(tool.id);
      handlers := handlers[tool.id := Some(tool)];
      assert forall id :: 0 <= id < |handlers| && id != tool.id ==>
          handlers[id] == if id < |before| then before[id] else None;
      InstalledMore(before, handlers, tool);
      nameToId := nameToId[tool.name := tool.id];
      if tool.id > maxToolId { maxToolId := tool.id; }
      forall id | 0 <= id < |handlers| && handlers[id].Some?
        ensures handlers[id].value.id == id <= maxToolId
        ensures handlers[id].value.name in nameToId && nameToId[handlers[id].value.name] == id
      {
        if id != tool.id { assert handlers[id].value.name in names; }
      }
      forall name | name in nameToId
        ensures nameToId[name] < |handlers| && handlers[nameToId[name]].Some?
        ensures handlers[nameToId[name]].value.name == name
      {
        if name != tool.name { assert nameToId[name] == names[name] < |before|; }
      }
    }

    method Grow(id: nat)
      requires |handlers| <= MAX_TOOLS && id < MAX_TOOLS
      modifies this`handlers
      ensures id < |handlers| <= MAX_TOOLS && |old(handlers)| <= |handlers|
      ensures forall k :: 0 <= k < |old(handlers)| ==> handlers[k] == old(handlers)[k]
      ensures forall k :: |old(handlers)| <= k < |handlers| ==> handlers[k].None?
    {
      while |handlers| <= id
        invariant |old(handlers)| <= |handlers| <= MAX_TOOLS
        invariant forall k :: 0 <= k < |old(handlers)| ==> handlers[k] == old(handlers)[k]
        invariant forall k :: |old(handlers)| <= k < |handlers| ==> handlers[k].None?
      {
        handlers := handlers + [None];
      }
    }

    function Dispatch(toolId: nat): (t: Option<Tool>)
      reads this
      requires Valid()
      ensures t == if toolId in View() then Some(View()[toolId]) else None
    {
      if toolId < |handlers| then handlers[toolId] else None
    }

    /** A name resolves to an identifier exactly when the tool registered there carries that name. */
    method ResolveName(name: string) returns (id: Option<nat>)
      requires Valid()
      ensures id.None? <==> !NameTaken(View(), name)
      ensures id.Some? ==> id.value in View() && View()[id.value].name == name
    {
      if name in nameToId {
        assert nameToId[name] in View();
        return Some(nameToId[name]);
      }
      return None;
    }

    /** Returns the tool whose handler runs, or why none does. */
    method ExecuteAuthorized(capabilities: CapabilityManifest, toolId: nat, args: Args)
      returns (r: Result<Tool, SecurityError>)
      requires Valid() && capabilities.Valid()
      ensures r == Authorize(View(), capabilities.View().tools, toolId, args)
    {
      var allowed := capabilities.tools.Has(toolId);
      if !allowed { return Err(InsufficientCapabilities); }
      var handler := Dispatch(toolId);
      if handler.None? { return Err(InsufficientCapabilities); }
      var valid := ValidateSharedArgs(handler.value.schema, args);
      if valid.Err? { return Err(ArgumentsRefused); }
      return Ok(handler.value);
    }

    method ExecuteSignedAuthorized(capabilities: CapabilityManifest, inv: Signed, store: NonceStore, args: Args,
                                   now: nat, later: nat)
      returns (r: Result<Tool, SecurityError>)
      requires Valid() && capabilities.Valid()
      modifies store
      ensures store.View()
           == AuthorizeSigned(View(), capabilities.View().tools, inv, args, old(store.View()), now, later).0
      ensures r == AuthorizeSigned(View(), capabilities.View().tools, inv, args, old(store.View()), now, later).1
    {
      if !inv.signatureOk { return Err(InvalidSignature); }
      if !inv.argsHashOk { return Err(ArgsHashMismatch); }
      if inv.toolId >= U16 { return Err(InsufficientCapabilities); }
      var checked := store.CheckNonce(inv.nonce, inv.timestamp, now, later);
      if checked.Err? { return Err(checked.error); }
      r := ExecuteAuthorized(capabilities, inv.toolId, args);
    }
  }
}
