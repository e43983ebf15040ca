/** The client's socket wrapper: one socket, the game it has joined, the
    keyed listener map, and the events it emits. The socket is modelled by
    its identity and connection flag, the handlers registered on it
    (`socket.on` / `socket.off`) and the log of events it has emitted. */
module SocketManagerModel {
  import opened JsText

  /** The identity of a JavaScript callback. */
  type Callback = nat

  /** A handler registered on the socket for one event name. */
  datatype Handler = Handler(event: string, callback: Callback)

  /** The socket.io client socket: `id` is undefined until it connects. */
  datatype Sock = Sock(id: Option<string>, connected: bool)

  /** The events the wrapper emits, with their payloads. */
  datatype Outgoing =
    | JoinGameMsg(gameId: string, playerId: Option<string>, role: string)
    | LeaveGameMsg(gameId: string)
    | MoveMadeMsg(gameId: string, move: string, fen: string, isCheckmate: bool,
                  winner: Option<string>, currentTurn: Option<string>)
    | TimeUpMsg(gameId: string, loser: string)
    | ChatMessageMsg(gameId: string, user: string, text: string)
    | RequestUndoMoveMsg(gameId: string, requestingPlayer: string)
    | RespondToUndoMoveMsg(gameId: string, accepted: bool, gameState: Option<string>)
    | DrawGameMsg(gameId: string)
    | SurrenderGameMsg(gameId: string, loser: string)

  /** socket.off(event, fn): removes the first registration of `fn` for
      `event`, if there is one. */
  function Off(hs: seq<Handler>, h: Handler): (r: seq<Handler>)
    ensures h !in hs ==> r == hs
    ensures h in hs ==> |r| == |hs| - 1
    ensures forall x :: x in r ==> x in hs
  {
    if hs == [] then []
    else if hs[0] == h then hs[1..]
    else [hs[0]] + Off(hs[1..], h)
  }

  /** Off removes one registration of `h` when there is one, and nothing else. */
  lemma {:induction false} OffRemovesOne(hs: seq<Handler>, h: Handler)
    ensures multiset(Off(hs, h)) == multiset(hs) - multiset{h}
  {
    if hs != [] {
      assert hs == [hs[0]] + hs[1..];
      if hs[0] != h {
        OffRemovesOne(hs[1..], h);
        var rest := multiset(hs[1..]);
        assert multiset(Off(hs, h)) == multiset{hs[0]} + (rest - multiset{h});
        assert multiset(hs) == multiset{hs[0]} + rest;
      }
    }
  }

  /** The forEach of removeAllListeners over the keys in insertion order:
      for each key it calls socket.off with the KEY as the event name. It
      only takes registrations away, at most one per key. */
  function OffAll(hs: seq<Handler>, keys: seq<string>, listeners: map<string, Callback>): (r: seq<Handler>)
    requires forall k :: k in keys ==> k in listeners
    ensures |hs| - |keys| <= |r| <= |hs|
    ensures forall x :: x in r ==> x in hs
    decreases keys
  {
    if keys == [] then hs
    else OffAll(Off(hs, Handler(keys[0], listeners[keys[0]])), keys[1..], listeners)
  }

  /** The handlers removeAllListeners tries to remove: one per key, under the key's name. */
  function KeyedHandlers(keys: seq<string>, listeners: map<string, Callback>): (r: seq<Handler>)
    requires forall k :: k in keys ==> k in listeners
    ensures |r| == |keys|
    ensures forall i :: 0 <= i < |keys| ==> r[i] == Handler(keys[i], listeners[keys[i]])
  {
    if keys == [] then [] else [Handler(keys[0], listeners[keys[0]])] + KeyedHandlers(keys[1..], listeners)
  }

  /** removeAllListeners takes away exactly one registration of
      (key, callback) per key, and nothing else. */
  lemma {:induction false} OffAllRemovesKeyedHandlers(hs: seq<Handler>, keys: seq<string>, listeners: map<string, Callback>)
    requires forall k :: k in keys ==> k in listeners
    ensures multiset(OffAll(hs, keys, listeners)) == multiset(hs) - multiset(KeyedHandlers(keys, listeners))
    decreases keys
  {
    if keys != [] {
      var h := Handler(keys[0], listeners[keys[0]]);
      OffRemovesOne(hs, h);
      OffAllRemovesKeyedHandlers(Off(hs, h), keys[1..], listeners);
      var rest := KeyedHandlers(keys[1..], listeners);
      assert KeyedHandlers(keys, listeners) == [h] + rest;
      assert multiset(KeyedHandlers(keys, listeners)) == multiset{h} + multiset(rest);
      DifferenceOfSum(multiset(hs), multiset{h}, multiset(rest));
    }
  }

  /** Taking away B and then C is taking away B + C. */
  lemma DifferenceOfSum(a: multiset<Handler>, b: multiset<Handler>, c: multiset<Handler>)
    ensures (a - b) - c == a - (b + c)
  {
    assert forall e :: ((a - b) - c)[e] == (a - (b + c))[e];
  }

  /** A handler registered for an event whose name is not one of the keys
      survives removeAllListeners, even when it was registered through `on`
      under one of those keys. */
  lemma StrayHandlerSurvives(hs: seq<Handler>, keys: seq<string>, listeners: map<string, Callback>, h: Handler)
    requires forall k :: k in keys ==> k in listeners
    requires h in hs && h.event !in keys
    ensures h in OffAll(hs, keys, listeners)
  {
    OffAllRemovesKeyedHandlers(hs, keys, listeners);
    var ks := KeyedHandlers(keys, listeners);
    assert h !in ks;
    assert multiset(ks)[h] == 0;
    assert multiset(hs)[h] > 0;
    assert multiset(OffAll(hs, keys, listeners))[h] > 0;
  }

  /** The game page's case: a timer handler registered under the key
      "gamePageTimerUpdate" is still on the socket after removeAllListeners. */
  lemma GamePageTimerHandlerSurvives(cb: Callback)
    ensures OffAll([Handler("timerUpdate", cb)], ["gamePageTimerUpdate"], map["gamePageTimerUpdate" := cb])
            == [Handler("timerUpdate", cb)]
  {
    var hs := [Handler("timerUpdate", cb)];
    var ls := map["gamePageTimerUpdate" := cb];
    StrayHandlerSurvives(hs, ["gamePageTimerUpdate"], ls, Handler("timerUpdate", cb));
    assert Off(hs, Handler("gamePageTimerUpdate", cb)) == hs;
  }

  /** When every key names the event its callback was registered for (the
      onTimerUpdate / onGameEnded defaults), removeAllListeners removes
      them all. */
  lemma MatchingKeysAreRemoved(keys: seq<string>, listeners: map<string, Callback>)
    requires forall k :: k in keys ==> k in listeners
    ensures OffAll(KeyedHandlers(keys, listeners), keys, listeners) == []
  {
    OffAllRemovesKeyedHandlers(KeyedHandlers(keys, listeners), keys, listeners);
    var r := OffAll(KeyedHandlers(keys, listeners), keys, listeners);
    assert multiset(r) == multiset{};
  }

  predicate Distinct(xs: seq<string>) {
    forall i, j :: 0 <= i < j < |xs| ==> xs[i] != xs[j]
  }

  class SocketManager {
    var socket: Option<Sock>
    var isConnected: bool
    var currentGameId: Option<string>
    var currentRole: Option<string>
    /** The keyed listener map and its insertion order. */
    var listeners: map<string, Callback>
    var keyOrder: seq<string>
    /** The handlers registered on the current socket. */
    var handlers: seq<Handler>
    /** Every event emitted, in order. */
    var sent: seq<Outgoing>

    ghost predicate Valid()
      reads this
    {
      && Distinct(keyOrder)
      && (forall k :: k in keyOrder <==> k in listeners)
      && (socket.None? ==> currentGameId.None? && listeners == map[] && handlers == [] && !isConnected)
    }

    constructor()
      ensures Valid()
      ensures socket.None? && !isConnected && currentGameId.None? && currentRole.None?
      ensures listeners == map[] && keyOrder == [] && handlers == [] && sent == []
    {
      socket := None;
      isConnected := false;
      currentGameId := None;
      currentRole := None;
      listeners := map[];
      keyOrder := [];
      handlers := [];
      sent := [];
    }

    /** connect(): keeps a connected or connecting socket; otherwise opens a
        new, not yet connected socket with no handlers. */
    method Connect()
      requires Valid()
      modifies this
      ensures Valid()
      ensures old(socket).Some? && (old(isConnected) || !old(socket).value.connected) ==>
        socket == old(socket) && handlers == old(handlers)
      ensures !(old(socket).Some? && (old(isConnected) || !old(socket).value.connected)) ==>
        socket == Some(Sock(None, false)) && handlers == []
      ensures isConnected == old(isConnected) && currentGameId == old(currentGameId)
      ensures currentRole == old(currentRole) && listeners == old(listeners) && keyOrder == old(keyOrder)
      ensures sent == old(sent)
    {
      if socket.Some? && (isConnected || !socket.value.connected) {
        return;
      }
      socket := Some(Sock(None, false));
      handlers := [];
    }

    /** The "connect" handler that connect() installs. */
    method ConnectEvent(id: string)
      requires Valid() && socket.Some?
      modifies this
      ensures Valid()
      ensures socket == Some(Sock(Some(id), true)) && isConnected
      ensures currentGameId == old(currentGameId) && currentRole == old(currentRole)
      ensures listeners == old(listeners) && keyOrder == old(keyOrder) && handlers == old(handlers) && sent == old(sent)
    {
      socket := Some(Sock(Some(id), true));
      isConnected := true;
    }

    /** The "disconnect" handler that connect() installs. */
    method DisconnectEvent()
      requires Valid() && socket.Some?
      modifies this
      ensures Valid()
      ensures socket == Some(Sock(None, false)) && !isConnected
      ensures currentGameId == old(currentGameId) && currentRole == old(currentRole)
      ensures listeners == old(listeners) && keyOrder == old(keyOrder) && handlers == old(handlers) && sent == old(sent)
    {
      socket := Some(Sock(None, false));
      isConnected := false;
    }

    /** disconnect(): with a socket, drops it and resets the connection
        flag, the current game and the listener map; without one, nothing. */
    method Disconnect()
      requires Valid()
      modifies this
      ensures Valid()
      ensures old(socket).Some? ==>
        socket.None? && !isConnected && currentGameId.None? && listeners == map[] && keyOrder == [] && handlers == []
      ensures old(socket).None? ==>
        socket == old(socket) && isConnected == old(isConnected) && currentGameId == old(currentGameId)
        && listeners == old(listeners) && keyOrder == old(keyOrder) && handlers == old(handlers)
      ensures currentRole == old(currentRole) && sent == old(sent)
    {
      if socket.Some? {
        socket := None;
        isConnected := false;
        currentGameId := None;
        listeners := map[];
        keyOrder := [];
        handlers := [];
      }
    }

    /** emit(event, data): sent only when there is a socket. */
    method Emit(m: Outgoing)
      requires Valid()
      modifies this
      ensures Valid()
      ensures sent == old(sent) + (if socket.Some? then [m] else [])
      ensures socket == old(socket) && isConnected == old(isConnected) && currentGameId == old(currentGameId)
      ensures currentRole == old(currentRole) && listeners == old(listeners) && keyOrder == old(keyOrder)
      ensures handlers == old(handlers)
    {
      if socket.Some? {
        sent := sent + [m];
      }
    }

    /** removeAllListeners(): with a socket, the forEach over the keys, then
        the map is cleared. */
    method RemoveAllListeners()
      requires Valid()
      modifies this
      ensures Valid()
      ensures old(socket).Some? ==>
        handlers == OffAll(old(handlers), old(keyOrder), old(listeners)) && listeners == map[] && keyOrder == []
      ensures old(socket).None? ==>
        handlers == old(handlers) && listeners == old(listeners) && keyOrder == old(keyOrder)
      ensures socket == old(socket) && isConnected == old(isConnected) && currentGameId == old(currentGameId)
      ensures currentRole == old(currentRole) && sent == old(sent)
    {
      if socket.Some? {
        var keys, ls, hs := keyOrder, listeners, handlers;
        var i := 0;
        while i < |keys|
          invariant 0 <= i <= |keys|
          invariant OffAll(hs, keys[i..], ls) == OffAll(handlers, keys, ls)
        {
          assert keys[i..][1..] == keys[i + 1..];
          hs := Off(hs, Handler(keys[i], ls[keys[i]]));
          i := i + 1;
        }
        handlers := hs;
        listeners := map[];
        keyOrder := [];
      }
    }

    /** leaveGame(): with a socket and a current game, emits leaveGame for
        it, forgets it and removes all listeners; otherwise nothing. */
    method LeaveGame()
      requires Valid()
      modifies this
      ensures Valid()
      ensures old(socket).Some? && Truthy(old(currentGameId)) ==>
        && sent == old(sent) + [LeaveGameMsg(old(currentGameId).value)]
        && currentGameId.None?
        && handlers == OffAll(old(handlers), old(keyOrder), old(listeners)) && listeners == map[] && keyOrder == []
      ensures !(old(socket).Some? && Truthy(old(currentGameId))) ==>
        sent == old(sent) && currentGameId == old(currentGameId)
        && handlers == old(handlers) && listeners == old(listeners) && keyOrder == old(keyOrder)
      ensures socket == old(socket) && isConnected == old(isConnected) && currentRole == old(currentRole)
    {
      if socket.Some? && Truthy(currentGameId) {
        sent := sent + [LeaveGameMsg(currentGameId.value)];
        currentGameId := None;
        RemoveAllListeners();
      }
    }

    /** joinGame(gameId, playerId, role): connects if needed; a repeated
        join with the same game and role does nothing more; joining another
        game first leaves the current one; then it records the game and
        role and emits joinGame, whose player id defaults to the socket's. */
    method JoinGame(gameId: string, playerId: Option<string>, role: string)
      requires Valid()
      modifies this
      ensures Valid()
      ensures socket.Some? && isConnected == old(isConnected) && socket.value.id == (if old(socket).Some? then old(socket).value.id else None)
      ensures old(socket).Some? && old(currentGameId) == Some(gameId) && old(currentRole) == Some(role) ==>
        && socket == old(socket) && currentGameId == old(currentGameId) && currentRole == old(currentRole)
        && listeners == old(listeners) && keyOrder == old(keyOrder) && handlers == old(handlers) && sent == old(sent)
      ensures !(old(socket).Some? && old(currentGameId) == Some(gameId) && old(currentRole) == Some(role)) ==>
        var leaves := Truthy(old(currentGameId)) && old(currentGameId) != Some(gameId);
        var id := if Truthy(playerId) then playerId else socket.value.id;
        && currentGameId == Some(gameId) && currentRole == Some(role)
        && sent == old(sent) + (if leaves then [LeaveGameMsg(old(currentGameId).value)] else []) + [JoinGameMsg(gameId, id, role)]
        && (leaves ==> handlers == OffAll(old(handlers), old(keyOrder), old(listeners)) && listeners == map[] && keyOrder == [])
        && (!leaves ==> listeners == old(listeners) && keyOrder == old(keyOrder)
                        && handlers == (if old(socket).Some? then old(handlers) else []))
      ensures old(socket).Some? ==> socket == old(socket)
    {
      if socket.None? {
        Connect();
      }
      if currentGameId == Some(gameId) && currentRole == Some(role) {
        return;
      }
      if Truthy(currentGameId) && currentGameId != Some(gameId) {
        LeaveGame();
      }
      currentGameId := Some(gameId);
      currentRole := Some(role);
      var id := if Truthy(playerId) then playerId else socket.value.id;
      sent := sent + [JoinGameMsg(gameId, id, role)];
    }

    /** on(event, callback, key): connects if needed; with a key already in
        the map, first takes that key's callback off `event`; registers the
        callback; with a key, records it under the key. */
    method On(event: string, cb: Callback, key: Option<string>)
      requires Valid()
      modifies this
      ensures Valid()
      ensures socket.Some? && isConnected == old(isConnected)
      ensures var before := if old(socket).Some? then old(handlers) else [];
        handlers == (if Truthy(key) && key.value in old(listeners)
                     then Off(before, Handler(event, old(listeners)[key.value])) else before) + [Handler(event, cb)]
      ensures listeners == if Truthy(key) then old(listeners)[key.value := cb] else old(listeners)
      ensures keyOrder == old(keyOrder) + (if Truthy(key) && key.value !in old(listeners) then [key.value] else [])
      ensures old(socket).Some? ==> socket == old(socket)
      ensures currentGameId == old(currentGameId) && currentRole == old(currentRole) && sent == old(sent)
    {
      if socket.None? {
        Connect();
      }
      if Truthy(key) && key.value in listeners {
        handlers := Off(handlers, Handler(event, listeners[key.value]));
      }
      handlers := handlers + [Handler(event, cb)];
      if Truthy(key) {
        if key.value !in listeners {
          keyOrder := keyOrder + [key.value];
        }
        listeners := listeners[key.value := cb];
      }
    }

    /** onTimerUpdate(callback, key = "timerUpdate"). */
    method OnTimerUpdate(cb: Callback, key: Option<string>)
      requires Valid()
      modifies this
      ensures Valid()
      ensures socket.Some? && isConnected == old(isConnected)
      ensures var k := if key.None? then Some("timerUpdate") else key;
        var before := if old(socket).Some? then old(handlers) else [];
        && handlers == (if Truthy(k) && k.value in old(listeners)
                        then Off(before, Handler("timerUpdate", old(listeners)[k.value])) else before) + [Handler("timerUpdate", cb)]
        && listeners == (if Truthy(k) then old(listeners)[k.value := cb] else old(listeners))
        && keyOrder == old(keyOrder) + (if Truthy(k) && k.value !in old(listeners) then [k.value] else [])
      ensures old(socket).Some? ==> socket == old(socket)
      ensures currentGameId == old(currentGameId) && currentRole == old(currentRole) && sent == old(sent)
    {
      On("timerUpdate", cb, if key.None? then Some("timerUpdate") else key);
    }

    /** onGameEnded(callback, key = "gameEnded"). */
    method OnGameEnded(cb: Callback, key: Option<string>)
      requires Valid()
      modifies this
      ensures Valid()
      ensures socket.Some? && isConnected == old(isConnected)
      ensures var k := if key.None? then Some("gameEnded") else key;
        var before := if old(socket).Some? then old(handlers) else [];
        && handlers == (if Truthy(k) && k.value in old(listeners)
                        then Off(before, Handler("gameEnded", old(listeners)[k.value])) else before) + [Handler("gameEnded", cb)]
        && listeners == (if Truthy(k) then old(listeners)[k.value := cb] else old(listeners))
        && keyOrder == old(keyOrder) + (if Truthy(k) && k.value !in old(listeners) then [k.value] else [])
      ensures old(socket).Some? ==> socket == old(socket)
      ensures currentGameId == old(currentGameId) && currentRole == old(currentRole) && sent == old(sent)
    {
      On("gameEnded", cb, if key.None? then Some("gameEnded") else key);
    }

    /** off(event, callback): with a socket, takes that callback off the
        event; an undefined callback matches no registration. */
    method OffEvent(event: string, cb: Option<Callback>)
      requires Valid()
      modifies this
      ensures Valid()
      ensures handlers == if socket.Some? && cb.Some? then Off(old(handlers), Handler(event, cb.value)) else old(handlers)
      ensures socket == old(socket) && listeners == old(listeners) && keyOrder == old(keyOrder)
      ensures currentGameId == old(currentGameId) && sent == old(sent)
      ensures isConnected == old(isConnected) && currentRole == old(currentRole)
    {
      if socket.Some? && cb.Some? {
        handlers := Off(handlers, Handler(event, cb.value));
      }
    }

    /** makeMove: isCheckmate is sent as isGameEnd && winner !== "draw";
        the other fields pass through. */
    method MakeMove(gameId: string, move: string, fen: string, isGameEnd: bool,
                    winner: Option<string>, currentTurn: Option<string>)
      requires Valid()
      modifies this
      ensures Valid()
      ensures sent == old(sent) +
        (if socket.Some? then [MoveMadeMsg(gameId, move, fen, isGameEnd && winner != Some("draw"), winner, currentTurn)] else [])
      ensures socket == old(socket) && handlers == old(handlers) && listeners == old(listeners) && currentGameId == old(currentGameId)
      ensures isConnected == old(isConnected) && currentRole == old(currentRole) && keyOrder == old(keyOrder)
    {
      Emit(MoveMadeMsg(gameId, move, fen, isGameEnd && winner != Some("draw"), winner, currentTurn));
    }

    method TimeUp(gameId: string, loser: string)
      requires Valid()
      modifies this
      ensures Valid()
      ensures sent == old(sent) + (if socket.Some? then [TimeUpMsg(gameId, loser)] else [])
      ensures socket == old(socket) && handlers == old(handlers) && listeners == old(listeners) && currentGameId == old(currentGameId)
      ensures isConnected == old(isConnected) && currentRole == old(currentRole) && keyOrder == old(keyOrder)
    {
      Emit(TimeUpMsg(gameId, loser));
    }

    method SendChatMessage(gameId: string, user: string, text: string)
      requires Valid()
      modifies this
      ensures Valid()
      ensures sent == old(sent) + (if socket.Some? then [ChatMessageMsg(gameId, user, text)] else [])
      ensures socket == old(socket) && handlers == old(handlers) && listeners == old(listeners) && currentGameId == old(currentGameId)
      ensures isConnected == old(isConnected) && currentRole == old(currentRole) && keyOrder == old(keyOrder)
    {
      Emit(ChatMessageMsg(gameId, user, text));
    }

    method RequestUndoMove(gameId: string, requestingPlayer: string)
      requires Valid()
      modifies this
      ensures Valid()
      ensures sent == old(sent) + (if socket.Some? then [RequestUndoMoveMsg(gameId, requestingPlayer)] else [])
      ensures socket == old(socket) && handlers == old(handlers) && listeners == old(listeners) && currentGameId == old(currentGameId)
      ensures isConnected == old(isConnected) && currentRole == old(currentRole) && keyOrder == old(keyOrder)
    {
      Emit(RequestUndoMoveMsg(gameId, requestingPlayer));
    }

    method RespondToUndoMove(gameId: string, accepted: bool, gameState: Option<string>)
      requires Valid()
      modifies this
      ensures Valid()
      ensures sent == old(sent) + (if socket.Some? then [RespondToUndoMoveMsg(gameId, accepted, gameState)] else [])
      ensures socket == old(socket) && handlers == old(handlers) && listeners == old(listeners) && currentGameId == old(currentGameId)
      ensures isConnected == old(isConnected) && currentRole == old(currentRole) && keyOrder == old(keyOrder)
    {
      Emit(RespondToUndoMoveMsg(gameId, accepted, gameState));
    }

    method DrawGame(gameId: string)
      requires Valid()
      modifies this
      ensures Valid()
      ensures sent == old(sent) + (if socket.Some? then [DrawGameMsg(gameId)] else [])
      ensures socket == old(socket) && handlers == old(handlers) && listeners == old(listeners) && currentGameId == old(currentGameId)
      ensures isConnected == old(isConnected) && currentRole == old(currentRole) && keyOrder == old(keyOrder)
    {
      Emit(DrawGameMsg(gameId));
    }

    method SurrenderGame(gameId: string, loser: string)
      requires Valid()
      modifies this
      ensures Valid()
      ensures sent == old(sent) + (if socket.Some? then [SurrenderGameMsg(gameId, loser)] else [])
      ensures socket == old(socket) && handlers == old(handlers) && listeners == old(listeners) && currentGameId == old(currentGameId)
      ensures isConnected == old(isConnected) && currentRole == old(currentRole) && keyOrder == old(keyOrder)
    {
      Emit(SurrenderGameMsg(gameId, loser));
    }
  }

  /** The static `SocketManager.instance` slot. */
  class Singleton {
    var instance: SocketManager?

    constructor()
      ensures instance == null
    {
      instance := null;
    }

    /** getInstance(): creates the manager on the first call and returns
        that same object on every call. */
    method GetInstance() returns (m: SocketManager)
      modifies this
      ensures old(instance) != null ==> m == old(instance)
      ensures old(instance) == null ==> fresh(m) && m.Valid() && m.socket.None? && m.sent == []
      ensures instance == m
    {
      if instance == null {
        instance := new SocketManager();
      }
      m := instance;
    }
  }
}
