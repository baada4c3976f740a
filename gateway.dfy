/**
  The socket gateway: the connect handler (credential selection, verification, registration or a
  connection error), the private-message relay, the disconnect cleanup, and the fan-out entry
  point `emitSocketEvent` used by the controllers.

  Token verification and the user lookup are one collaborator, `verify`, and reading the
  `accessToken` cookie from a raw cookie header is another, `accessTokenCookie`; both are
  parameters of the handler.
*/
module SocketGateway {
  import opened Wrappers
  import opened SocketManager

  /** What the client sent when it opened the connection. */
  datatype Handshake = Handshake(authToken: Option<string>, cookieHeader: Option<string>)

  /** A value thrown inside the connect handler: an `Error` carries its message, anything else does not. */
  datatype Thrown = ErrorValue(message: string) | NonErrorValue

  /** What verifying a token and looking its user up yields. */
  datatype Verification = UserFound(userId: string) | UserNotFound | Threw(thrown: Thrown)

  /** How the connect handler ends: the socket is registered for a user, or it gets one error event. */
  datatype ConnectOutcome = Admitted(userId: string) | Refused(message: string)

  /** The body of a private-message event once parsed: the text and the target user id. */
  datatype PrivateMessageData = PrivateMessageData(message: string, id: string)

  const NO_TOKEN_MESSAGE: string := "No authentication token provided"
  const USER_NOT_FOUND_MESSAGE: string := "Unauthorized: User not found"
  const GENERIC_CONNECT_MESSAGE: string := "Something went wrong while connecting to the socket"

  /**
    The credential: the handshake's `auth.token` when truthy, otherwise the `accessToken`
    cookie when a (non-empty) cookie header was sent, otherwise nothing.
  */
  function SelectToken(h: Handshake, accessTokenCookie: string -> Option<string>): (token: Option<string>)
    ensures Truthy(h.authToken) ==> token == h.authToken
    ensures !Truthy(h.authToken) && Truthy(h.cookieHeader) ==> token == accessTokenCookie(h.cookieHeader.value)
    ensures !Truthy(h.authToken) && !Truthy(h.cookieHeader) ==> token == None
  {
    if Truthy(h.authToken) then h.authToken
    else if Truthy(h.cookieHeader) then accessTokenCookie(h.cookieHeader.value)
    else None
  }

  /** The message sent with the connection error for a thrown value. */
  function ErrorMessage(t: Thrown): string
  {
    match t
    case ErrorValue(msg) => msg
    case NonErrorValue => GENERIC_CONNECT_MESSAGE
  }

  /** The decision of the connect handler for a selected token. */
  function Authenticate(token: Option<string>, verify: string -> Verification): (r: ConnectOutcome)
    ensures !Truthy(token) ==> r == Refused(NO_TOKEN_MESSAGE)
    ensures r.Admitted? <==> Truthy(token) && verify(token.value).UserFound?
    ensures r.Admitted? ==> r.userId == verify(token.value).userId
    ensures Truthy(token) && verify(token.value).UserNotFound? ==> r == Refused(USER_NOT_FOUND_MESSAGE)
    ensures Truthy(token) && verify(token.value).Threw? ==> r == Refused(ErrorMessage(verify(token.value).thrown))
  {
    if !Truthy(token) then Refused(NO_TOKEN_MESSAGE)
    else
      match verify(token.value)
      case UserFound(u) => Admitted(u)
      case UserNotFound => Refused(USER_NOT_FOUND_MESSAGE)
      case Threw(t) => Refused(ErrorMessage(t))
  }

  /** A connection without any credential is refused with the fixed message, whatever the verifier would say. */
  lemma NoCredentialIsRefused(h: Handshake, accessTokenCookie: string -> Option<string>, verify: string -> Verification)
    requires !Truthy(h.authToken)
    requires !Truthy(h.cookieHeader) || !Truthy(accessTokenCookie(h.cookieHeader.value))
    ensures Authenticate(SelectToken(h, accessTokenCookie), verify) == Refused(NO_TOKEN_MESSAGE)
  {
  }

  /** A connected client socket; `user` is set once the connection is authenticated. */
  class ClientSocket {
    const id: string
    const handshake: Handshake
    var user: Option<string>

    constructor (id: string, handshake: Handshake)
      ensures this.id == id && this.handshake == handshake && user == None
    {
      this.id := id;
      this.handshake := handshake;
      user := None;
    }
  }

  /**
    The connect handler. A refused socket receives exactly one error event and nothing else
    changes; an admitted one is registered under the resolved user and nothing is emitted.
  */
  method OnConnection(io: SocketServer, registry: Registry, socket: ClientSocket,
                      accessTokenCookie: string -> Option<string>, verify: string -> Verification)
    returns (outcome: ConnectOutcome)
    requires registry.Valid()
    modifies io, registry, socket
    ensures registry.Valid()
    ensures outcome == Authenticate(SelectToken(socket.handshake, accessTokenCookie), verify)
    ensures outcome.Refused? ==>
      && io.emitted == old(io.emitted) + [Emission(socket.id, SocketErrorEvent, ErrorText(outcome.message))]
      && registry.userSocketMap == old(registry.userSocketMap)
      && socket.user == old(socket.user)
    ensures outcome.Admitted? ==>
      && io.emitted == old(io.emitted)
      && registry.userSocketMap == AddTo(old(registry.userSocketMap), outcome.userId, socket.id)
      && socket.user == Some(outcome.userId)
  {
    var token := SelectToken(socket.handshake, accessTokenCookie);
    outcome := Authenticate(token, verify);
    match outcome
    case Refused(message) =>
      io.Emit(socket.id, SocketErrorEvent, ErrorText(message));
    case Admitted(userId) =>
      socket.user := Some(userId);
      registry.AddSocket(userId, socket.id);
  }

  /** What relaying one private message emits: the payload to every socket of the target, then to every socket of the sender. */
  function RelayEmissions(m: SocketMap, fromUserId: string, data: PrivateMessageData): seq<Emission>
  {
    var payload := PrivateMessage(fromUserId, data.message);
    Fanout(Lookup(m, data.id), PrivateMessageEvent, payload) + Fanout(Lookup(m, fromUserId), PrivateMessageEvent, payload)
  }

  /**
    A relayed message reaches each socket of the target once and each socket of the sender once,
    no other socket, always as the private-message event with payload `{id: sender, message}`.
    A message a user sends to themself therefore reaches each of their sockets twice.
  */
  lemma RelayReachesTargetAndSenderOnly(m: SocketMap, fromUserId: string, data: PrivateMessageData, socketId: string)
    requires WellFormed(m)
    ensures multiset(Recipients(RelayEmissions(m, fromUserId, data)))[socketId] ==
      (if socketId in Lookup(m, data.id) then 1 else 0) + (if socketId in Lookup(m, fromUserId) then 1 else 0)
    ensures forall e :: e in RelayEmissions(m, fromUserId, data) ==>
      e.event == PrivateMessageEvent && e.payload == PrivateMessage(fromUserId, data.message)
  {
    var payload := PrivateMessage(fromUserId, data.message);
    var toTarget := Fanout(Lookup(m, data.id), PrivateMessageEvent, payload);
    var toSender := Fanout(Lookup(m, fromUserId), PrivateMessageEvent, payload);
    assert Recipients(toTarget + toSender) == Recipients(toTarget) + Recipients(toSender);
    FanoutReachesEachSocketOnce(Lookup(m, data.id), PrivateMessageEvent, payload, socketId);
    FanoutReachesEachSocketOnce(Lookup(m, fromUserId), PrivateMessageEvent, payload, socketId);
  }

  /** The private-message handler of an authenticated socket. */
  method OnPrivateMessage(io: SocketServer, registry: Registry, socket: ClientSocket, data: PrivateMessageData)
    requires registry.Valid()
    requires socket.user.Some?
    modifies io
    ensures io.emitted == old(io.emitted) + RelayEmissions(registry.userSocketMap, socket.user.value, data)
  {
    var fromUserId := socket.user.value;
    var toUserId := data.id;
    var messagePayload := PrivateMessage(fromUserId, data.message);
    registry.BroadcastToUser(io, toUserId, PrivateMessageEvent, messagePayload);
    registry.BroadcastToUser(io, fromUserId, PrivateMessageEvent, messagePayload);
  }

  /**
    The disconnect handler. Only an authenticated socket has one; it removes the socket from its
    user's entry, so no later lookup for that user lists it.
  */
  method OnDisconnect(registry: Registry, socket: ClientSocket)
    requires registry.Valid()
    modifies registry
    ensures registry.Valid()
    ensures socket.user.Some? ==>
      && registry.userSocketMap == RemoveFrom(old(registry.userSocketMap), socket.user.value, socket.id)
      && socket.id !in registry.GetUserSockets(socket.user.value)
    ensures socket.user.None? ==> registry.userSocketMap == old(registry.userSocketMap)
  {
    if socket.user.Some? {
      registry.RemoveSocket(socket.user.value, socket.id);
    }
  }

  /** `emitSocketEvent`: exactly the emissions of `broadcastToUser` for the same user, event and payload. */
  method EmitSocketEvent(io: SocketServer, registry: Registry, userId: string, event: ChatEvent, payload: Payload)
    requires registry.Valid()
    modifies io
    ensures io.emitted == old(io.emitted) + Fanout(registry.GetUserSockets(userId), event, payload)
  {
    registry.BroadcastToUser(io, userId, event, payload);
  }

  /** What notifying the participants of a new chat emits: a new-chat fan-out to each participant but the requester, in order. */
  function NewChatEmissions(m: SocketMap, participants: seq<string>, requesterId: string, payload: Payload): seq<Emission>
    decreases |participants|
  {
    if participants == [] then []
    else
      var last := participants[|participants| - 1];
      NewChatEmissions(m, participants[..|participants| - 1], requesterId, payload) +
        (if last == requesterId then [] else Fanout(Lookup(m, last), NewChatEvent, payload))
  }

  /**
    Every new-chat emission goes to a socket of a participant other than the requester, and
    carries the event and the chat payload unchanged.
  */
  lemma {:induction false} NewChatSkipsRequester(m: SocketMap, participants: seq<string>, requesterId: string, payload: Payload)
    ensures forall e :: e in NewChatEmissions(m, participants, requesterId, payload) ==>
      && e.event == NewChatEvent && e.payload == payload
      && exists k :: 0 <= k < |participants| && participants[k] != requesterId && e.socketId in Lookup(m, participants[k])
    decreases |participants|
  {
    if participants != [] {
      var n := |participants| - 1;
      var init, last := participants[..n], participants[n];
      NewChatSkipsRequester(m, init, requesterId, payload);
      forall e | e in NewChatEmissions(m, participants, requesterId, payload)
        ensures exists k :: 0 <= k < |participants| && participants[k] != requesterId && e.socketId in Lookup(m, participants[k])
      {
        if e in NewChatEmissions(m, init, requesterId, payload) {
          var k :| 0 <= k < |init| && init[k] != requesterId && e.socketId in Lookup(m, init[k]);
          assert participants[k] == init[k];
        } else {
          assert participants[n] == last;
        }
      }
    }
  }

  /** Every socket of every participant other than the requester receives the new-chat event. */
  lemma {:induction false} NewChatReachesOtherParticipants(m: SocketMap, participants: seq<string>, requesterId: string,
                                                           payload: Payload, k: nat, socketId: string)
    requires k < |participants| && participants[k] != requesterId
    requires socketId in Lookup(m, participants[k])
    ensures Emission(socketId, NewChatEvent, payload) in NewChatEmissions(m, participants, requesterId, payload)
    decreases |participants|
  {
    var n := |participants| - 1;
    if k < n {
      NewChatReachesOtherParticipants(m, participants[..n], requesterId, payload, k, socketId);
    } else {
      var ids := Lookup(m, participants[n]);
      var i :| 0 <= i < |ids| && ids[i] == socketId;
      assert Fanout(ids, NewChatEvent, payload)[i] == Emission(socketId, NewChatEvent, payload);
    }
  }

  /** The loop of the one-on-one chat controller that tells every other participant about a new chat. */
  method NotifyParticipants(io: SocketServer, registry: Registry, participants: seq<string>, requesterId: string, payload: Payload)
    requires registry.Valid()
    modifies io
    ensures io.emitted == old(io.emitted) + NewChatEmissions(registry.userSocketMap, participants, requesterId, payload)
  {
    var i := 0;
    while i < |participants|
      invariant 0 <= i <= |participants|
      invariant io.emitted == old(io.emitted) + NewChatEmissions(registry.userSocketMap, participants[..i], requesterId, payload)
    {
      assert participants[..i + 1][..i] == participants[..i];
      if participants[i] != requesterId {
        EmitSocketEvent(io, registry, participants[i], NewChatEvent, payload);
      }
      i := i + 1;
    }
    assert participants[..i] == participants;
  }

  /** Two sockets of "u1" and one of "u2": a message-received event for "u1" reaches exactly c1 and c2. */
  method DispatchScenario()
  {
    var io := new SocketServer();
    var registry := new Registry();
    registry.AddSocket("u1", "c1");
    registry.AddSocket("u1", "c2");
    registry.AddSocket("u2", "c3");
    EmitSocketEvent(io, registry, "u1", MessageReceivedEvent, Document("{\"id\":\"m1\"}"));
    assert registry.GetUserSockets("u1") == ["c1", "c2"];
    assert io.emitted == [Emission("c1", MessageReceivedEvent, Document("{\"id\":\"m1\"}")),
                          Emission("c2", MessageReceivedEvent, Document("{\"id\":\"m1\"}"))];
  }
}
