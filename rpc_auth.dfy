/**
 * The authentication handler every RPC connection gets
 * (src/controllers/rpc/initialize-rpc-server-handler.ts): a per-connection
 * challenge, the signed-challenge check, the registry of authenticated
 * sessions keyed by address, the eviction of an address's previous
 * session, and the one-shot close handlers.
 *
 * Address validation, address normalisation, parsing of the auth chain and
 * signature validation are not visible; they are parameters of the
 * connection. Scheduling `port.close()` or the transport's close is
 * recorded as a flag; the close itself is the event `OnPortClose`.
 */
module RpcAuth {
  import opened Wrappers

  /** The reasons a disconnection future is resolved with; only `DR_KICKED`
   *  is produced here. */
  datatype DisconnectionReason = Kicked

  /** The RPC services a port serves. */
  datatype ServiceName = BffAuthenticationService | CommsService | TopicsService

  datatype Failure = MalformedAuthChain | AuthenticationFailed | NoPeerFound

  datatype ChallengeResponse = ChallengeResponse(alreadyConnected: bool, challengeToSign: string)
  datatype AuthResponse = AuthResponse(peerId: string, availableModules: seq<ServiceName>)

  class Port {
    var closeScheduled: bool
    var services: seq<ServiceName>

    constructor ()
      ensures !closeScheduled && services == []
    {
      closeScheduled := false;
      services := [];
    }
  }

  class Transport {
    var closeScheduled: bool

    constructor ()
      ensures !closeScheduled
    {
      closeScheduled := false;
    }
  }

  /** `RpcSession` as built at initialize-rpc-server-handler.ts:82-90;
   *  `disconnection` is the state of `disconnectionFuture`. */
  class Session {
    const address: string
    const port: Port
    const transport: Transport
    var disconnection: Option<DisconnectionReason>
    var subscriptionsIndex: nat
    var peerSubscriptions: map<nat, string>
    var systemSubscriptions: map<nat, string>

    constructor (address: string, port: Port, transport: Transport)
      ensures this.address == address && this.port == port && this.transport == transport
      ensures disconnection == None && subscriptionsIndex == 0
      ensures peerSubscriptions == map[] && systemSubscriptions == map[]
    {
      this.address := address;
      this.port := port;
      this.transport := transport;
      disconnection := None;
      subscriptionsIndex := 0;
      peerSubscriptions := map[];
      systemSubscriptions := map[];
    }

    /** Resolving a future settles it once; later resolutions are ignored. */
    method Resolve(reason: DisconnectionReason)
      modifies this
      ensures disconnection == if old(disconnection).None? then Some(reason) else old(disconnection)
      ensures subscriptionsIndex == old(subscriptionsIndex)
      ensures peerSubscriptions == old(peerSubscriptions) && systemSubscriptions == old(systemSubscriptions)
    {
      if disconnection.None? {
        disconnection := Some(reason);
      }
    }
  }

  /** `rpcSessions` and the `explorer_bff_connected_users` gauge. */
  class SessionRegistry {
    var sessions: map<string, Session>
    var connectedUsers: nat

    /** Every session is stored under its own address, and the gauge shows
     *  how many there are. */
    ghost predicate Valid()
      reads this, sessions.Values
    {
      (forall a :: a in sessions ==> sessions[a].address == a) && connectedUsers == |sessions|
    }

    constructor ()
      ensures Valid() && sessions == map[]
    {
      sessions := map[];
      connectedUsers := 0;
    }
  }

  /** A close handler registered by a successful `authenticate`: the
   *  address it was registered for and its `portClosed` flag. */
  datatype CloseHandler = CloseHandler(address: string, portClosed: bool)

  /** The addresses whose close handlers have not run yet. */
  function PendingAddresses(handlers: seq<CloseHandler>): set<string>
  {
    set i | 0 <= i < |handlers| && !handlers[i].portClosed :: handlers[i].address
  }

  /** The state `rpcHandler` keeps for one connection. */
  class Connection {
    const port: Port
    const transport: Transport
    const registry: SessionRegistry
    const challenge: string
    const isValidAddress: string -> bool
    const normalize: string -> string
    const parseAuthChain: string -> Option<seq<string>>
    const signatureValid: (string, seq<string>) -> bool
    /** `context.peer`. */
    var peer: Option<Session>
    var closeHandlers: seq<CloseHandler>

    /** `rpcHandler` (initialize-rpc-server-handler.ts:29-34): the challenge
     *  is drawn once, from `random`, and the authentication service is
     *  registered on the port. */
    constructor (port: Port, transport: Transport, registry: SessionRegistry, random: string,
                 isValidAddress: string -> bool, normalize: string -> string,
                 parseAuthChain: string -> Option<seq<string>>, signatureValid: (string, seq<string>) -> bool)
      modifies port
      ensures this.port == port && this.transport == transport && this.registry == registry
      ensures this.isValidAddress == isValidAddress && this.normalize == normalize
      ensures this.parseAuthChain == parseAuthChain && this.signatureValid == signatureValid
      ensures challenge == "dcl-" + random
      ensures peer == None && closeHandlers == []
      ensures port.services == old(port.services) + [BffAuthenticationService]
      ensures port.closeScheduled == old(port.closeScheduled)
    {
      this.port := port;
      this.transport := transport;
      this.registry := registry;
      this.challenge := "dcl-" + random;
      this.isValidAddress := isValidAddress;
      this.normalize := normalize;
      this.parseAuthChain := parseAuthChain;
      this.signatureValid := signatureValid;
      peer := None;
      closeHandlers := [];
      new;
      port.services := port.services + [BffAuthenticationService];
    }

    /** `getChallenge` (initialize-rpc-server-handler.ts:35-49): the raw
     *  address is validated; a bad one fails and schedules the port's
     *  close, otherwise the connection's own challenge is answered. */
    method GetChallenge(address: string) returns (r: Result<ChallengeResponse, Failure>)
      modifies port
      ensures !isValidAddress(address) ==> r == Err(AuthenticationFailed) && port.closeScheduled
      ensures isValidAddress(address) ==>
        r == Ok(ChallengeResponse(normalize(address) in registry.sessions, challenge))
        && port.closeScheduled == old(port.closeScheduled)
      ensures port.services == old(port.services)
    {
      if !isValidAddress(address) {
        port.closeScheduled := true;
        return Err(AuthenticationFailed);
      }
      var normalized := normalize(address);
      var alreadyConnected := normalized in registry.sessions;
      return Ok(ChallengeResponse(alreadyConnected, challenge));
    }

    /** `authenticate` (initialize-rpc-server-handler.ts:64-136). */
    method Authenticate(authChainJson: string) returns (r: Result<AuthResponse, Failure>)
      requires registry.Valid()
      modifies this, port, registry, registry.sessions.Values
      ensures registry.Valid()
      // an unparsable chain, or one without a first link, throws before anything happens
      ensures var chain := parseAuthChain(authChainJson);
        chain.None? || chain.value == [] ==>
          r == Err(MalformedAuthChain) && unchanged(this, port, registry) && unchanged(old(registry.sessions).Values)
      // a bad address or signature fails, schedules the close and leaves the registry alone
      ensures var chain := parseAuthChain(authChainJson);
        chain.Some? && chain.value != [] &&
        (!isValidAddress(normalize(chain.value[0])) || !signatureValid(challenge, chain.value)) ==>
          r == Err(AuthenticationFailed) && port.closeScheduled && port.services == old(port.services)
          && unchanged(this, registry) && unchanged(old(registry.sessions).Values)
      // otherwise a fresh session is stored under the address, kicking the previous one
      ensures var chain := parseAuthChain(authChainJson);
        chain.Some? && chain.value != [] &&
        isValidAddress(normalize(chain.value[0])) && signatureValid(challenge, chain.value) ==>
          var address := normalize(chain.value[0]);
          r == Ok(AuthResponse(address, [CommsService, TopicsService]))
          && peer.Some? && fresh(peer.value)
          && peer.value.address == address && peer.value.port == port && peer.value.transport == transport
          && peer.value.disconnection == None && peer.value.subscriptionsIndex == 0
          && peer.value.peerSubscriptions == map[] && peer.value.systemSubscriptions == map[]
          && registry.sessions == old(registry.sessions)[address := peer.value]
          && (address in old(registry.sessions) ==>
                var previous := old(registry.sessions)[address];
                previous.disconnection == (if old(previous.disconnection).None? then Some(Kicked) else old(previous.disconnection)))
          && (forall a :: a in old(registry.sessions) && a != address ==> unchanged(old(registry.sessions)[a]))
          && closeHandlers == old(closeHandlers) + [CloseHandler(address, false)]
          && port.services == old(port.services) + [CommsService, TopicsService]
          && port.closeScheduled == old(port.closeScheduled)
      ensures (r.Err? ==> r.error != NoPeerFound)
    {
      var chain := parseAuthChain(authChainJson);
      if chain.None? || chain.value == [] {
        return Err(MalformedAuthChain);
      }
      var address := normalize(chain.value[0]);
      if !isValidAddress(address) {
        port.closeScheduled := true;
        return Err(AuthenticationFailed);
      }
      if !signatureValid(challenge, chain.value) {
        port.closeScheduled := true;
        return Err(AuthenticationFailed);
      }
      r := Admit(address);
    }

    /** The successful branch of `authenticate`
     *  (initialize-rpc-server-handler.ts:79-130). */
    method Admit(address: string) returns (r: Result<AuthResponse, Failure>)
      requires registry.Valid()
      modifies this, port, registry, registry.sessions.Values
      ensures registry.Valid()
      ensures r == Ok(AuthResponse(address, [CommsService, TopicsService]))
      ensures peer.Some? && fresh(peer.value)
      ensures peer.value.address == address && peer.value.port == port && peer.value.transport == transport
      ensures peer.value.disconnection == None && peer.value.subscriptionsIndex == 0
      ensures peer.value.peerSubscriptions == map[] && peer.value.systemSubscriptions == map[]
      ensures registry.sessions == old(registry.sessions)[address := peer.value]
      ensures address in old(registry.sessions) ==>
        var previous := old(registry.sessions)[address];
        previous.disconnection == (if old(previous.disconnection).None? then Some(Kicked) else old(previous.disconnection))
      ensures forall a :: a in old(registry.sessions) && a != address ==> unchanged(old(registry.sessions)[a])
      ensures closeHandlers == old(closeHandlers) + [CloseHandler(address, false)]
      ensures port.services == old(port.services) + [CommsService, TopicsService]
      ensures port.closeScheduled == old(port.closeScheduled)
    {
      var session := new Session(address, port, transport);
      peer := Some(session);
      Register(address, session);
      closeHandlers := closeHandlers + [CloseHandler(address, false)];
      port.services := port.services + [CommsService, TopicsService];
      return Ok(AuthResponse(address, [CommsService, TopicsService]));
    }

    /** Stores `session` under `address`, kicking the session stored there
     *  before (initialize-rpc-server-handler.ts:95-106). */
    method Register(address: string, session: Session)
      requires registry.Valid() && session.address == address
      requires session !in registry.sessions.Values
      modifies registry, registry.sessions.Values
      ensures registry.Valid()
      ensures registry.sessions == old(registry.sessions)[address := session]
      ensures address in old(registry.sessions) ==>
        var previous := old(registry.sessions)[address];
        previous.disconnection == (if old(previous.disconnection).None? then Some(Kicked) else old(previous.disconnection))
      ensures forall a :: a in old(registry.sessions) && a != address ==> unchanged(old(registry.sessions)[a])
      ensures unchanged(session)
    {
      if address in registry.sessions {
        var previous := registry.sessions[address];
        previous.Resolve(Kicked);
      }
      registry.sessions := registry.sessions[address := session];
      registry.connectedUsers := |registry.sessions|;
    }

    /** The start of `getDisconnectionMessage`
     *  (initialize-rpc-server-handler.ts:50-55): without a peer the call
     *  fails; otherwise it awaits the future of the session that is
     *  `context.peer` now, whatever the connection authenticates as later.
     *  `AwaitDisconnection` is the rest of the call. */
    method GetDisconnectionMessage() returns (r: Result<Session, Failure>)
      ensures peer.None? ==> r == Err(NoPeerFound)
      ensures peer.Some? ==> r == Ok(peer.value)
    {
      if peer.None? {
        return Err(NoPeerFound);
      }
      return Ok(peer.value);
    }

    /** One close handler: a handler that already ran does nothing; one
     *  that has not marks itself as run and removes its address if the
     *  session stored there belongs to this port. */
    method RunCloseHandler(i: nat)
      requires i < |closeHandlers| && registry.Valid()
      modifies this, registry
      ensures registry.Valid()
      ensures closeHandlers == old(closeHandlers)[i := old(closeHandlers)[i].(portClosed := true)]
      ensures var h := old(closeHandlers)[i];
        Swept(registry.sessions, old(registry.sessions), if h.portClosed then {} else {h.address}, port)
      ensures peer == old(peer)
    {
      var handler := closeHandlers[i];
      if handler.portClosed {
        SweptNothing(registry.sessions, port);
        return;
      }
      closeHandlers := closeHandlers[i := handler.(portClosed := true)];
      SweptOne(registry.sessions, handler.address, port);
      if handler.address in registry.sessions && registry.sessions[handler.address].port == port {
        registry.sessions := registry.sessions - {handler.address};
      }
      registry.connectedUsers := |registry.sessions|;
    }

    /** The port's `close` event (initialize-rpc-server-handler.ts:111-121):
     *  every close handler that has not run yet runs once, and removes its
     *  address only when the session stored there belongs to this port. */
    method OnPortClose()
      requires registry.Valid()
      modifies this, registry
      ensures registry.Valid()
      ensures registry.sessions == map a | a in old(registry.sessions)
        && !(a in PendingAddresses(old(closeHandlers)) && old(registry.sessions)[a].port == port) :: old(registry.sessions)[a]
      ensures |closeHandlers| == |old(closeHandlers)|
      ensures forall i :: 0 <= i < |closeHandlers| ==> closeHandlers[i] == old(closeHandlers)[i].(portClosed := true)
      ensures peer == old(peer)
    {
      RunCloseHandlers();
      SweptIsMap(registry.sessions, old(registry.sessions), PendingAddresses(old(closeHandlers)), port);
    }

    /** The loop behind `OnPortClose`: the handlers run in the order they
     *  were registered. */
    method RunCloseHandlers()
      requires registry.Valid()
      modifies this, registry
      ensures registry.Valid()
      ensures Swept(registry.sessions, old(registry.sessions), PendingAddresses(old(closeHandlers)), port)
      ensures RanUpTo(closeHandlers, old(closeHandlers), |old(closeHandlers)|)
      ensures peer == old(peer)
    {
      ghost var handlers0 := closeHandlers;
      var i := 0;
      while i < |closeHandlers|
        invariant 0 <= i <= |handlers0| && RanUpTo(closeHandlers, handlers0, i)
        invariant registry.Valid()
        invariant Swept(registry.sessions, old(registry.sessions), PendingAddresses(handlers0[..i]), port)
        invariant peer == old(peer)
      {
        ghost var before := registry.sessions;
        ghost var handlersBefore := closeHandlers;
        PendingNext(handlers0, i);
        RunCloseHandler(i);
        RanStep(handlersBefore, handlers0, i);
        SweptTrans(registry.sessions, before, old(registry.sessions), PendingAddresses(handlers0[..i]),
                   if handlers0[i].portClosed then {} else {handlers0[i].address}, port);
        i := i + 1;
      }
      PendingAll(handlers0);
    }
  }

  /** `getDisconnectionMessage` after its `await`
   *  (initialize-rpc-server-handler.ts:55-62), on the session the call
   *  started with: while that session's future is pending the call is still
   *  waiting (`None`) and nothing changes; once it is settled the call
   *  answers its reason and schedules the close of that session's
   *  transport. */
  method AwaitDisconnection(awaited: Session) returns (r: Option<DisconnectionReason>)
    modifies awaited.transport
    ensures r == awaited.disconnection
    ensures awaited.disconnection.None? ==> unchanged(awaited.transport)
    ensures awaited.disconnection.Some? ==> awaited.transport.closeScheduled
  {
    if awaited.disconnection.None? {
      return None;
    }
    awaited.transport.closeScheduled := true;
    return awaited.disconnection;
  }

  /** A new connection on its own port and transport whose every check
   *  passes: it authenticates as `address` and then starts a
   *  `getDisconnectionMessage` call, which awaits the new session. */
  method ConnectAndWait(registry: SessionRegistry, address: string) returns (c: Connection, awaited: Session)
    requires registry.Valid()
    modifies registry, registry.sessions.Values
    ensures registry.Valid() && fresh(c) && fresh(c.port) && fresh(c.transport) && fresh(awaited)
    ensures c.registry == registry && c.peer == Some(awaited)
    ensures awaited.transport == c.transport && awaited.disconnection == None
    ensures registry.sessions == old(registry.sessions)[address := awaited]
    ensures address in old(registry.sessions) ==>
      var previous := old(registry.sessions)[address];
      previous.disconnection == (if old(previous.disconnection).None? then Some(Kicked) else old(previous.disconnection))
    ensures forall a :: a in old(registry.sessions) && a != address ==> unchanged(old(registry.sessions)[a])
  {
    var port := new Port();
    var transport := new Transport();
    c := new Connection(port, transport, registry, address, _ => true, a => a, _ => None, (_, _) => true);
    var _ := c.Admit(address);
    var call := c.GetDisconnectionMessage();
    awaited := call.value;
  }

  /** A call that started while a connection was authenticated as "a"
   *  keeps waiting on that session: after the connection re-authenticates
   *  as "b" and a second connection authenticates as "a", the call answers
   *  `Kicked` and schedules the close of the first connection's transport. */
  method KickedAfterReauthentication() returns (r: Option<DisconnectionReason>, closed: bool)
    ensures r == Some(Kicked) && closed
  {
    var registry := new SessionRegistry();
    var c1, awaited := ConnectAndWait(registry, "a");
    var _ := c1.Admit("b");
    assert "a" in registry.sessions && registry.sessions["a"] == awaited && awaited.disconnection == None;
    var _, _ := ConnectAndWait(registry, "a");
    assert awaited.disconnection == Some(Kicked) && awaited.transport == c1.transport;
    r := AwaitDisconnection(awaited);
    closed := c1.transport.closeScheduled;
  }

  /** Re-authenticating as the same address kicks the connection's own
   *  earlier session, so a call waiting on it answers `Kicked` and
   *  schedules the close of the connection just authenticated. */
  method KickedBySameAddress() returns (r: Option<DisconnectionReason>, closed: bool)
    ensures r == Some(Kicked) && closed
  {
    var registry := new SessionRegistry();
    var c, awaited := ConnectAndWait(registry, "a");
    var _ := c.Admit("a");
    r := AwaitDisconnection(awaited);
    closed := c.transport.closeScheduled;
  }

  /** The first `i` handlers of `hs0` have run, the others are as they were. */
  ghost predicate RanUpTo(hs: seq<CloseHandler>, hs0: seq<CloseHandler>, i: nat) {
    && |hs| == |hs0| && i <= |hs0|
    && (forall k :: 0 <= k < i ==> hs[k] == hs0[k].(portClosed := true))
    && (forall k :: i <= k < |hs| ==> hs[k] == hs0[k])
  }

  lemma RanStep(hs: seq<CloseHandler>, hs0: seq<CloseHandler>, i: nat)
    requires RanUpTo(hs, hs0, i) && i < |hs0|
    ensures RanUpTo(hs[i := hs[i].(portClosed := true)], hs0, i + 1)
  {
  }

  /** `now` is `before` without the addresses in `pending` whose session
   *  belongs to `port`. */
  ghost predicate Swept(now: map<string, Session>, before: map<string, Session>, pending: set<string>, port: Port) {
    (forall a :: a in now <==> a in before && !(a in pending && before[a].port == port))
    && (forall a :: a in now ==> now[a] == before[a])
  }

  lemma SweptNothing(m: map<string, Session>, port: Port)
    ensures Swept(m, m, {}, port)
  {
  }

  lemma SweptOne(m: map<string, Session>, address: string, port: Port)
    ensures Swept(if address in m && m[address].port == port then m - {address} else m, m, {address}, port)
  {
  }

  lemma SweptTrans(s2: map<string, Session>, s1: map<string, Session>, s0: map<string, Session>,
                   p1: set<string>, p2: set<string>, port: Port)
    requires Swept(s1, s0, p1, port) && Swept(s2, s1, p2, port)
    ensures Swept(s2, s0, p1 + p2, port)
  {
  }

  lemma SweptIsMap(now: map<string, Session>, before: map<string, Session>, pending: set<string>, port: Port)
    requires Swept(now, before, pending, port)
    ensures now == map a | a in before && !(a in pending && before[a].port == port) :: before[a]
  {
  }

  lemma PendingNext(hs: seq<CloseHandler>, i: nat)
    requires i < |hs|
    ensures PendingAddresses(hs[..i + 1]) == PendingAddresses(hs[..i]) + (if hs[i].portClosed then {} else {hs[i].address})
  {
    assert hs[..i + 1] == hs[..i] + [hs[i]];
    PendingSnoc(hs[..i], hs[i]);
  }

  lemma PendingAll(hs: seq<CloseHandler>)
    ensures PendingAddresses(hs[..|hs|]) == PendingAddresses(hs)
  {
    assert hs[..|hs|] == hs;
  }

  lemma PendingSnoc(handlers: seq<CloseHandler>, h: CloseHandler)
    ensures PendingAddresses(handlers + [h]) == PendingAddresses(handlers) + (if h.portClosed then {} else {h.address})
  {
    var hs := handlers + [h];
    forall a ensures a in PendingAddresses(hs) <==> a in PendingAddresses(handlers) || (!h.portClosed && a == h.address) {
      if a in PendingAddresses(hs) {
        var i :| 0 <= i < |hs| && hs[i].address == a && !hs[i].portClosed;
        if i < |handlers| {
          assert handlers[i] == hs[i];
        }
      }
      if a in PendingAddresses(handlers) {
        var i :| 0 <= i < |handlers| && handlers[i].address == a && !handlers[i].portClosed;
        assert hs[i] == handlers[i];
      }
      if !h.portClosed && a == h.address {
        assert hs[|handlers|] == h;
      }
    }
  }
}
