/**
  The connection registry of the realtime layer: which live socket ids belong to which user,
  and the fan-out of one event to every socket of a user.

  The source keeps a module-level `Record<string, Set<string>>`; here it is the field
  `userSocketMap` of a `Registry` object. A JavaScript `Set` iterates in insertion order and
  never holds a value twice, so each user's sockets are a sequence without duplicates.
  The socket.io server is a `SocketServer` object whose `emitted` log records every
  `io.to(id).emit(event, payload)` in order.
*/
module SocketManager {

  /** The event kinds of the chat event enumeration that the realtime layer sends. */
  datatype ChatEvent =
    | NewChatEvent
    | MessageReceivedEvent
    | MessageDeletedEvent
    | PrivateMessageEvent
    | SocketErrorEvent

  /** What an event carries to the client. `Document` stands for the JSON value a controller passes on. */
  datatype Payload =
    | ErrorText(message: string)
    | PrivateMessage(id: string, message: string)
    | Document(json: string)

  /** One event pushed over one socket. */
  datatype Emission = Emission(socketId: string, event: ChatEvent, payload: Payload)

  /** user id -> that user's live socket ids, in insertion order */
  type SocketMap = map<string, seq<string>>

  predicate NoDuplicates(xs: seq<string>)
  {
    forall i, j :: 0 <= i < j < |xs| ==> xs[i] != xs[j]
  }

  /** The registry invariant: no user maps to an empty collection, and no socket id is listed twice. */
  ghost predicate WellFormed(m: SocketMap)
  {
    forall u :: u in m ==> m[u] != [] && NoDuplicates(m[u])
  }

  /** The sockets of `userId`, or none when the user has no entry. */
  function Lookup(m: SocketMap, userId: string): (ids: seq<string>)
    ensures WellFormed(m) ==> NoDuplicates(ids) && (ids == [] <==> userId !in m)
  {
    if userId in m then m[userId] else []
  }

  /** `xs` with `x` deleted, the rest in their order (JavaScript's `Set.prototype.delete`). */
  function Without(xs: seq<string>, x: string): (r: seq<string>)
    ensures forall y :: y in r <==> y in xs && y != x
    ensures NoDuplicates(xs) ==> NoDuplicates(r)
    ensures |r| <= |xs|
  {
    if xs == [] then []
    else if xs[0] == x then Without(xs[1..], x)
    else
      var rest := Without(xs[1..], x);
      assert NoDuplicates(xs) ==> xs[0] !in xs[1..];
      [xs[0]] + rest
  }

  /** The map after `addSocket(userId, socketId)`. */
  function AddTo(m: SocketMap, userId: string, socketId: string): (r: SocketMap)
    ensures userId in r && socketId in r[userId]
    ensures forall s :: s in r[userId] <==> s in Lookup(m, userId) || s == socketId
    ensures r.Keys == m.Keys + {userId}
    ensures forall v :: v != userId && v in m ==> r[v] == m[v]
    ensures WellFormed(m) ==> WellFormed(r)
  {
    var ids := Lookup(m, userId);
    m[userId := if socketId in ids then ids else ids + [socketId]]
  }

  /** The map after `removeSocket(userId, socketId)`. */
  function RemoveFrom(m: SocketMap, userId: string, socketId: string): (r: SocketMap)
    ensures userId !in m ==> r == m
    ensures forall s :: s in Lookup(r, userId) <==> s in Lookup(m, userId) && s != socketId
    ensures r.Keys <= m.Keys && (forall v :: v != userId && v in m ==> v in r && r[v] == m[v])
    ensures userId in r ==> r[userId] != []
    ensures WellFormed(m) ==> WellFormed(r)
  {
    if userId in m then
      var rest := Without(m[userId], socketId);
      if rest == [] then m - {userId} else m[userId := rest]
    else
      m
  }

  /** Adding the same pair twice leaves the map as adding it once. */
  lemma AddIsIdempotent(m: SocketMap, userId: string, socketId: string)
    ensures AddTo(AddTo(m, userId, socketId), userId, socketId) == AddTo(m, userId, socketId)
  {
  }

  lemma {:induction false} WithoutAppended(xs: seq<string>, x: string)
    requires x !in xs
    ensures Without(xs + [x], x) == xs
  {
    if xs != [] {
      assert (xs + [x])[1..] == xs[1..] + [x];
      WithoutAppended(xs[1..], x);
    }
  }

  /** Removing a socket that was just added (and was not there before) restores the map. */
  lemma {:induction false} AddThenRemoveRestores(m: SocketMap, userId: string, socketId: string)
    requires WellFormed(m)
    requires socketId !in Lookup(m, userId)
    ensures RemoveFrom(AddTo(m, userId, socketId), userId, socketId) == m
  {
    var ids := Lookup(m, userId);
    WithoutAppended(ids, socketId);
    if userId !in m {
      assert Without([] + [socketId], socketId) == [];
    }
  }

  /** A call on the registry, for reasoning about a whole history of calls. */
  datatype RegistryOp = Add(userId: string, socketId: string) | Remove(userId: string, socketId: string)

  function Apply(m: SocketMap, op: RegistryOp): SocketMap
  {
    match op
    case Add(u, s) => AddTo(m, u, s)
    case Remove(u, s) => RemoveFrom(m, u, s)
  }

  /** The map after running `ops` in order from an empty registry. */
  function Replay(ops: seq<RegistryOp>): (m: SocketMap)
    ensures WellFormed(m)
    decreases |ops|
  {
    if ops == [] then map[] else Apply(Replay(ops[..|ops| - 1]), ops[|ops| - 1])
  }

  /** `socketId` was added for `userId` at some point of `ops` and not removed for that user since. */
  ghost predicate IsLive(ops: seq<RegistryOp>, userId: string, socketId: string)
  {
    exists i :: 0 <= i < |ops| && ops[i] == Add(userId, socketId) &&
      forall j :: i < j < |ops| ==> ops[j] != Remove(userId, socketId)
  }

  /** How one more call changes whether a socket is live. */
  lemma LiveAfterStep(prefix: seq<RegistryOp>, op: RegistryOp, userId: string, socketId: string)
    ensures IsLive(prefix + [op], userId, socketId) <==>
      if op == Add(userId, socketId) then true
      else if op == Remove(userId, socketId) then false
      else IsLive(prefix, userId, socketId)
  {
    var ops := prefix + [op];
    var n := |prefix|;
    if op == Add(userId, socketId) {
      assert ops[n] == Add(userId, socketId);
    } else if op == Remove(userId, socketId) {
      forall i | 0 <= i < |ops| && ops[i] == Add(userId, socketId)
        ensures exists j :: i < j < |ops| && ops[j] == Remove(userId, socketId)
      {
        assert ops[n] == Remove(userId, socketId);
      }
    } else {
      if IsLive(prefix, userId, socketId) {
        var i :| 0 <= i < |prefix| && prefix[i] == Add(userId, socketId) &&
          forall j :: i < j < |prefix| ==> prefix[j] != Remove(userId, socketId);
        assert ops[i] == Add(userId, socketId);
      }
      if IsLive(ops, userId, socketId) {
        var i :| 0 <= i < |ops| && ops[i] == Add(userId, socketId) &&
          forall j :: i < j < |ops| ==> ops[j] != Remove(userId, socketId);
        assert i < n;
        assert prefix[i] == Add(userId, socketId);
        assert forall j :: i < j < |prefix| ==> prefix[j] == ops[j];
      }
    }
  }

  /** How one more call changes whether a socket is listed for a user. */
  lemma ListedAfterStep(m: SocketMap, op: RegistryOp, userId: string, socketId: string)
    ensures socketId in Lookup(Apply(m, op), userId) <==>
      if op == Add(userId, socketId) then true
      else if op == Remove(userId, socketId) then false
      else socketId in Lookup(m, userId)
  {
  }

  /** After any history of calls, a user's sockets are exactly those added and not removed since. */
  lemma {:induction false} ReplayHoldsLiveSockets(ops: seq<RegistryOp>, userId: string, socketId: string)
    ensures socketId in Lookup(Replay(ops), userId) <==> IsLive(ops, userId, socketId)
    decreases |ops|
  {
    if ops != [] {
      var n := |ops| - 1;
      var prefix, op := ops[..n], ops[n];
      assert ops == prefix + [op];
      ReplayHoldsLiveSockets(prefix, userId, socketId);
      LiveAfterStep(prefix, op, userId, socketId);
      ListedAfterStep(Replay(prefix), op, userId, socketId);
    }
  }

  /** After any history of calls, a user has an entry exactly when some socket of theirs is live. */
  lemma ReplayKeysAreLiveUsers(ops: seq<RegistryOp>, userId: string)
    ensures userId in Replay(ops) <==> exists s :: IsLive(ops, userId, s)
  {
    var m := Replay(ops);
    if userId in m {
      ReplayHoldsLiveSockets(ops, userId, m[userId][0]);
    }
    forall s | IsLive(ops, userId, s) ensures userId in m {
      ReplayHoldsLiveSockets(ops, userId, s);
    }
  }

  /** One emission of `event` with `payload` per socket id, in order. */
  function Fanout(socketIds: seq<string>, event: ChatEvent, payload: Payload): seq<Emission>
  {
    seq(|socketIds|, i requires 0 <= i < |socketIds| => Emission(socketIds[i], event, payload))
  }

  /** The socket ids the emissions went to, in order. */
  function Recipients(es: seq<Emission>): seq<string>
  {
    seq(|es|, i requires 0 <= i < |es| => es[i].socketId)
  }

  lemma {:induction false} NoDuplicatesCountsOnce(xs: seq<string>, x: string)
    requires NoDuplicates(xs)
    ensures multiset(xs)[x] == if x in xs then 1 else 0
  {
    if xs != [] {
      assert xs == [xs[0]] + xs[1..];
      assert NoDuplicates(xs[1..]);
      NoDuplicatesCountsOnce(xs[1..], x);
      assert xs[0] !in xs[1..];
    }
  }

  /** A fan-out over distinct sockets reaches each of them exactly once, nobody else, and forwards event and payload unchanged. */
  lemma FanoutReachesEachSocketOnce(socketIds: seq<string>, event: ChatEvent, payload: Payload, socketId: string)
    requires NoDuplicates(socketIds)
    ensures multiset(Recipients(Fanout(socketIds, event, payload)))[socketId] == if socketId in socketIds then 1 else 0
    ensures forall e :: e in Fanout(socketIds, event, payload) ==> e.event == event && e.payload == payload
  {
    assert Recipients(Fanout(socketIds, event, payload)) == socketIds;
    NoDuplicatesCountsOnce(socketIds, socketId);
  }

  /** The socket.io server: every emission it performs is appended to `emitted`. */
  class SocketServer {
    var emitted: seq<Emission>

    constructor ()
      ensures emitted == []
    {
      emitted := [];
    }

    /** `io.to(socketId).emit(event, payload)`, also `socket.emit` on that socket */
    method Emit(socketId: string, event: ChatEvent, payload: Payload)
      modifies this
      ensures emitted == old(emitted) + [Emission(socketId, event, payload)]
    {
      emitted := emitted + [Emission(socketId, event, payload)];
    }
  }

  /** The process-wide map from user id to live socket ids. */
  class Registry {
    var userSocketMap: SocketMap

    ghost predicate Valid()
      reads this
    {
      WellFormed(userSocketMap)
    }

    constructor ()
      ensures Valid() && userSocketMap == map[]
    {
      userSocketMap := map[];
    }

    /** Creates the user's entry when absent, then adds the socket to it. */
    method AddSocket(userId: string, socketId: string)
      requires Valid()
      modifies this
      ensures Valid()
      ensures userSocketMap == AddTo(old(userSocketMap), userId, socketId)
    {
      if userId !in userSocketMap {
        userSocketMap := userSocketMap[userId := []];
      }
      var sockets := userSocketMap[userId];
      if socketId !in sockets {
        userSocketMap := userSocketMap[userId := sockets + [socketId]];
      }
    }

    /** Deletes the socket from the user's entry and drops the entry once it is empty; no effect for an unknown user. */
    method RemoveSocket(userId: string, socketId: string)
      requires Valid()
      modifies this
      ensures Valid()
      ensures userSocketMap == RemoveFrom(old(userSocketMap), userId, socketId)
    {
      if userId in userSocketMap {
        userSocketMap := userSocketMap[userId := Without(userSocketMap[userId], socketId)];
        if userSocketMap[userId] == [] {
          userSocketMap := userSocketMap - {userId};
        }
      }
    }

    /** The user's socket ids as an array: empty when the user has no entry, otherwise each id of the entry once. */
    function GetUserSockets(userId: string): (ids: seq<string>)
      reads this
      requires Valid()
      ensures NoDuplicates(ids)
      ensures ids == [] <==> userId !in userSocketMap
      ensures forall s :: s in ids <==> userId in userSocketMap && s in userSocketMap[userId]
    {
      Lookup(userSocketMap, userId)
    }

    /** Emits `event` with `payload` once on every socket of the user, in the entry's order; the registry is only read. */
    method BroadcastToUser(io: SocketServer, userId: string, event: ChatEvent, payload: Payload)
      requires Valid()
      modifies io
      ensures io.emitted == old(io.emitted) + Fanout(GetUserSockets(userId), event, payload)
    {
      var userSockets := GetUserSockets(userId);
      var i := 0;
      while i < |userSockets|
        invariant 0 <= i <= |userSockets|
        invariant io.emitted == old(io.emitted) + Fanout(userSockets[..i], event, payload)
      {
        io.Emit(userSockets[i], event, payload);
        i := i + 1;
      }
      assert userSockets[..i] == userSockets;
    }
  }
}
