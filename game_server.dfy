/** The game server's in-memory session coordinator: the registry of live
    game rooms (who is seated as white or black, who is watching), the
    per-room countdown clock, the move relay, and the draw/undo/surrender/
    timeout handlers. Persistence is the map `records` (one games row per id),
    outbound socket emits are appended to `log`, and the one-second interval
    is the explicit method Tick. Every handler runs atomically. */
module GameServer {
  import opened JsText

  type SocketId = string
  type GameId = string

  datatype Side = White | Black {
    function Opposite(): Side {
      if White? then Black else White
    }
    function Name(): string {
      if White? then "white" else "black"
    }
  }

  /** The winner the surrender and timeUp handlers declare: they compare the
      loser with "white" only, so any other string makes white the winner. */
  function WinnerAgainst(loser: string): (w: Side)
    ensures loser == "white" <==> w == Black
  {
    if loser == "white" then Black else White
  }

  /** Remaining seconds per side. */
  datatype Timers = Timers(white: int, black: int) {
    function Of(s: Side): int {
      if s == White then white else black
    }
    function Set(s: Side, v: int): (t: Timers)
      ensures t.Of(s) == v && t.Of(s.Opposite()) == Of(s.Opposite())
    {
      if s == White then this.(white := v) else this.(black := v)
    }
  }

  /** One entry of the registry. `timerInterval` says the interval handle is
      set; `ticking` says the interval really fires (the timeout path clears
      the interval but leaves the handle set). `currentTurn` starts as white
      and is only read once `timers` is set. */
  datatype Room = Room(
    players: set<SocketId>,
    playerColors: map<SocketId, Side>,
    spectators: set<SocketId>,
    timers: Option<Timers>,
    currentTurn: Side,
    timerStarted: bool,
    gameStarted: bool,
    timerInterval: bool,
    ticking: bool)

  const EmptyRoom := Room({}, map[], {}, None, White, false, false, false, false)

  /** What stays true of every room in the registry. */
  ghost predicate RoomInv(r: Room) {
    && |r.players| <= 2
    && r.playerColors.Keys <= r.players
    && (forall p, q :: p in r.playerColors && q in r.playerColors && p != q ==> r.playerColors[p] != r.playerColors[q])
    && (r.timerStarted ==> r.timers.Some?)
    && (r.ticking ==> r.timerInterval)
    && !r.gameStarted
  }

  /** One element of the persisted move_history column. */
  datatype MoveEntry = MoveEntry(move: string, fen: string)

  /** The columns of a games row the coordinator reads or writes. */
  datatype Record = Record(
    timeLimit: Option<int>,
    moveHistory: seq<MoveEntry>,
    winner: Option<string>,
    whiteTime: Option<int>,
    blackTime: Option<int>,
    currentTurn: Option<Side>,
    timerStarted: Option<bool>)

  /** A game has a clock when its time_limit is truthy (present and not 0). */
  predicate Timed(rec: Record) {
    rec.timeLimit.Some? && rec.timeLimit.value != 0
  }

  datatype Target = ToSocket(socket: SocketId) | ToRoom(game: GameId) | ToRoomExcept(room: GameId, except: SocketId)

  datatype EndReason = Timeout | Checkmate

  /** The position a client supplies when it accepts an undo. */
  datatype GameState = GameState(fen: string, turn: string, lastMove: string)

  datatype Message =
    | AssignRole(role: string)
    | AssignColor(color: Side)
    | RoomFull
    | TimerUpdate(whiteTime: int, blackTime: int, turn: Side)
    | LoadMoves(history: seq<MoveEntry>, result: Option<string>)
    | LoadChat(chatGame: GameId)
    | PlayerStatus(online: set<SocketId>, watching: set<SocketId>)
    | GameEnded(winner: string, reason: Option<EndReason>)
    | MoveUndone(newFen: string, newTurn: string, removedMove: string)
    | UndoMoveRejected
    | DrawOffer(offeringPlayer: string)
    | DrawRejected
    | OpponentMove(played: string, position: string)

  datatype Emit = Emit(to: Target, msg: Message)

  /** Whether some socket holds colour `c`. */
  predicate Holds(colors: map<SocketId, Side>, c: Side) {
    c in colors.Values
  }

  /** The colour a player gets on joining: the first of white, black that
      no socket holds; None when both are held (the player is told roomFull). */
  function ChooseColor(colors: map<SocketId, Side>): (c: Option<Side>)
    ensures c.Some? ==> !Holds(colors, c.value)
    ensures c == Some(Black) ==> Holds(colors, White)
    ensures c.None? ==> Holds(colors, White) && Holds(colors, Black)
  {
    if !Holds(colors, White) then Some(White)
    else if !Holds(colors, Black) then Some(Black)
    else None
  }

  /** Seating a player who passed the capacity check, and giving it the
      colour ChooseColor picks, keeps every room invariant: at most two
      players, every coloured socket a player, no colour held twice. */
  lemma SeatKeepsRoomInv(r: Room, s: SocketId)
    requires RoomInv(r)
    requires |r.players| < 2 || s in r.players
    requires ChooseColor(r.playerColors).Some?
    ensures var c := ChooseColor(r.playerColors).value;
            RoomInv(r.(players := r.players + {s}, playerColors := r.playerColors[s := c]))
  {
    var c := ChooseColor(r.playerColors).value;
    var cs := r.playerColors[s := c];
    forall p, q | p in cs && q in cs && p != q
      ensures cs[p] != cs[q]
    {
      if p == s {
        assert cs[q] == r.playerColors[q] && Holds(r.playerColors, r.playerColors[q]);
      } else if q == s {
        assert cs[p] == r.playerColors[p] && Holds(r.playerColors, r.playerColors[p]);
      }
    }
    if s !in r.players {
      assert |r.players + {s}| == |r.players| + 1;
    } else {
      assert r.players + {s} == r.players;
    }
  }

  /** Colours are not sticky: a seated white player whose room has no
      black player and who joins again is seated as black, and white
      becomes free. */
  lemma RejoinRecolours(r: Room, s: SocketId)
    requires RoomInv(r) && s in r.players && r.playerColors == map[s := White]
    ensures ChooseColor(r.playerColors) == Some(Black)
    ensures Seated(r, s, Black).playerColors == map[s := Black]
    ensures !Holds(Seated(r, s, Black).playerColors, White)
  {
    assert Holds(r.playerColors, White) by {
      assert r.playerColors[s] == White;
    }
    assert map[s := White][s := Black] == map[s := Black];
  }

  /** When both colours are held, two distinct sockets hold them, so the
      room has its two players. */
  lemma BothColoursHeld(r: Room)
    requires RoomInv(r)
    requires Holds(r.playerColors, White) && Holds(r.playerColors, Black)
    ensures |r.players| == 2
  {
    var p :| p in r.playerColors && r.playerColors[p] == White;
    var q :| q in r.playerColors && r.playerColors[q] == Black;
    assert {p, q} <= r.players;
    SubsetCard({p, q}, r.players);
  }

  lemma {:induction false} SubsetCard<T>(a: set<T>, b: set<T>)
    requires a <= b
    ensures |a| <= |b|
    decreases |b|
  {
    if a != {} {
      var x :| x in a;
      SubsetCard(a - {x}, b - {x});
    }
  }

  /** The clock loaded from the games row when the second player is seated:
      each side gets its persisted seconds when present, else time_limit*60;
      the turn defaults to white and the started flag to false. An untimed
      game gets no clock. Seats and the interval are left alone. */
  function LoadClock(r: Room, rec: Record): (r': Room)
    ensures !Timed(rec) ==> r' == r
    ensures Timed(rec) ==> (
      && r'.timers.Some?
      && r'.timers.value.white == (if rec.whiteTime.Some? then rec.whiteTime.value else rec.timeLimit.value * 60)
      && r'.timers.value.black == (if rec.blackTime.Some? then rec.blackTime.value else rec.timeLimit.value * 60)
      && r'.currentTurn == (if rec.currentTurn.Some? then rec.currentTurn.value else White)
      && r'.timerStarted == (rec.timerStarted == Some(true))
      && !r'.gameStarted)
    ensures r'.players == r.players && r'.playerColors == r.playerColors && r'.spectators == r.spectators
    ensures r'.timerInterval == r.timerInterval && r'.ticking == r.ticking
  {
    if Timed(rec) then
      var secs := rec.timeLimit.value * 60;
      r.(timers := Some(Timers(rec.whiteTime.GetOr(secs), rec.blackTime.GetOr(secs))),
         currentTurn := rec.currentTurn.GetOr(White),
         timerStarted := rec.timerStarted.GetOr(false),
         gameStarted := false)
    else r
  }

  /** startGameTimer: installs an interval only when none is installed and
      the clock has been started. */
  function StartTimer(r: Room): (r': Room)
    ensures r'.ticking <==> r.ticking || (r.timerStarted && !r.timerInterval)
    ensures r'.timerInterval <==> r.timerInterval || r.timerStarted
    ensures r' == r.(timerInterval := r'.timerInterval, ticking := r'.ticking)
  {
    if r.timerInterval || !r.timerStarted then r
    else r.(timerInterval := true, ticking := true)
  }

  /** stopGameTimer: the interval is cleared and the handle unset. The
      source tests the handle first; since an interval never runs without
      its handle, clearing both unconditionally is the same state change. */
  function StopTimer(r: Room): (r': Room)
    ensures !r'.timerInterval && !r'.ticking
    ensures r' == r.(timerInterval := false, ticking := false)
  {
    r.(timerInterval := false, ticking := false)
  }

  /** Stopping an already stopped clock changes nothing. */
  lemma StopTimerIdempotent(r: Room)
    ensures StopTimer(StopTimer(r)) == StopTimer(r)
  {
  }

  /** switchTurn: hands the move to the other side of a timed room; an
      untimed room is left as it is. */
  function SwitchTurn(r: Room): (r': Room)
    ensures r.timers.Some? ==> r' == r.(currentTurn := r.currentTurn.Opposite())
    ensures r.timers.None? ==> r' == r
  {
    if r.timers.Some? then r.(currentTurn := if r.currentTurn == White then Black else White) else r
  }

  /** Whether a firing of the interval decrements the clock: the clock is
      loaded and started and the side to move has time left. */
  predicate Ticks(r: Room) {
    r.timers.Some? && r.timerStarted && r.timers.value.Of(r.currentTurn) > 0
  }

  /** One firing of the interval: the side to move loses exactly one second,
      the other side keeps its time, and reaching 0 clears the interval
      (the handle stays set). */
  function TickRoom(r: Room): (r': Room)
    requires Ticks(r)
    ensures r'.timers.Some?
    ensures r'.timers.value.Of(r.currentTurn) == r.timers.value.Of(r.currentTurn) - 1 >= 0
    ensures r'.timers.value.Of(r.currentTurn.Opposite()) == r.timers.value.Of(r.currentTurn.Opposite())
    ensures r'.ticking <==> r.ticking && r'.timers.value.Of(r.currentTurn) > 0
    ensures r' == r.(timers := r'.timers, ticking := r'.ticking)
  {
    var left := r.timers.value.Of(r.currentTurn) - 1;
    var t := r.timers.value.Set(r.currentTurn, left);
    if left <= 0 then r.(timers := Some(t), ticking := false) else r.(timers := Some(t))
  }

  /** The first step of disconnect in one room: a player leaves the
      players and the colour map; anyone else leaves the room as it is. */
  function Depart(r: Room, s: SocketId): (r': Room)
    ensures r'.players == r.players - {s}
    ensures r'.playerColors == (if s in r.players then r.playerColors - {s} else r.playerColors)
    ensures r' == r.(players := r'.players, playerColors := r'.playerColors)
  {
    if s in r.players then r.(players := r.players - {s}, playerColors := r.playerColors - {s}) else r
  }

  /** A socket's departure from one room on disconnect: it leaves the
      players, the colour map and the spectators, and the interval of the
      room is stopped whether or not the socket was in it. */
  function DisconnectRoom(r: Room, s: SocketId): (r': Room)
    ensures r'.players == r.players - {s} && r'.spectators == r.spectators - {s}
    ensures r'.playerColors == (if s in r.players then r.playerColors - {s} else r.playerColors)
    ensures r' == StopTimer(r).(players := r'.players, playerColors := r'.playerColors, spectators := r'.spectators)
  {
    StopTimer(Depart(r, s)).(spectators := r.spectators - {s})
  }

  /** The join handler's clean-up of one earlier room: a socket seated
      there as a player leaves its players, colours and spectators. */
  function Evict(r: Room, s: SocketId): (r': Room)
    ensures s !in r'.players && s !in r'.playerColors && s !in r'.spectators
    ensures forall t :: t != s ==> (t in r'.players <==> t in r.players) && (t in r'.spectators <==> t in r.spectators)
    ensures forall t :: t in r'.playerColors ==> t in r.playerColors && r'.playerColors[t] == r.playerColors[t]
    ensures forall t :: t in r.playerColors && t != s ==> t in r'.playerColors
    ensures r'.timers == r.timers && r'.currentTurn == r.currentTurn && r'.timerStarted == r.timerStarted
    ensures r'.timerInterval == r.timerInterval && r'.ticking == r.ticking && r'.gameStarted == r.gameStarted
  {
    r.(players := r.players - {s}, playerColors := r.playerColors - {s}, spectators := r.spectators - {s})
  }

  /** Taking a socket out of a room never breaks a room invariant. */
  lemma RemoveKeepsRoomInv(r: Room, s: SocketId)
    requires RoomInv(r)
    ensures RoomInv(Evict(r, s)) && RoomInv(DisconnectRoom(r, s))
  {
    assert |r.players - {s}| <= |r.players| by {
      if s in r.players {
        assert r.players == (r.players - {s}) + {s};
      } else {
        assert r.players - {s} == r.players;
      }
    }
  }

  /** The registry after the join handler's clean-up loop: every room other
      than `g` where `s` is a player loses `s`. */
  ghost function EvictElsewhere(rs: map<GameId, Room>, s: SocketId, g: GameId): map<GameId, Room> {
    map id | id in rs :: EvictIn(rs[id], s, id, g)
  }

  /** The clean-up applied to the room with id `id` when `s` joins `g`. */
  function EvictIn(r: Room, s: SocketId, id: GameId, g: GameId): Room {
    if id != g && s in r.players then Evict(r, s) else r
  }

  /** The room `g` as the join handler finds it after clean-up and lazy creation. */
  ghost function Prepared(rs: map<GameId, Room>, s: SocketId, g: GameId): Room {
    if g in rs then EvictElsewhere(rs, s, g)[g] else EmptyRoom
  }

  /** Whether the disconnect handler persists a room's clock: it is loaded
      and a player is still seated. */
  predicate NeedsSnapshot(r: Room) {
    r.timers.Some? && r.players != {}
  }

  /** The clock columns a room writes back to its games row. */
  function Snapshot(rec: Record, r: Room): (rec': Record)
    requires r.timers.Some?
    ensures rec'.whiteTime == Some(r.timers.value.white) && rec'.blackTime == Some(r.timers.value.black)
    ensures rec'.currentTurn == Some(r.currentTurn) && rec'.timerStarted == Some(r.timerStarted)
    ensures rec'.moveHistory == rec.moveHistory && rec'.winner == rec.winner && rec'.timeLimit == rec.timeLimit
  {
    rec.(whiteTime := Some(r.timers.value.white), blackTime := Some(r.timers.value.black),
         currentTurn := Some(r.currentTurn), timerStarted := Some(r.timerStarted))
  }

  /** The rooms after the disconnect loop has visited the ids in `done`:
      a visited room is kept, without the socket, only if a player remains. */
  ghost function DisconnectRooms(rs: map<GameId, Room>, s: SocketId, done: seq<GameId>): map<GameId, Room> {
    map id | id in rs && (id in done ==> DisconnectRoom(rs[id], s).players != {})
      :: if id in done then DisconnectRoom(rs[id], s) else rs[id]
  }

  /** The games rows after the disconnect loop has visited the ids in `done`. */
  ghost function DisconnectRecords(recs: map<GameId, Record>, rs: map<GameId, Room>, s: SocketId, done: seq<GameId>): map<GameId, Record> {
    map id | id in recs
      :: if id in done && id in rs && NeedsSnapshot(Depart(rs[id], s))
         then Snapshot(recs[id], Depart(rs[id], s)) else recs[id]
  }

  /** The playerStatus broadcast a room sends. */
  function StatusEmit(g: GameId, r: Room): Emit {
    Emit(ToRoom(g), PlayerStatus(r.players, r.spectators))
  }

  /** The broadcasts of the disconnect loop, one per visited room, in visiting order. */
  ghost function StatusEmits(ids: seq<GameId>, rs: map<GameId, Room>, s: SocketId): seq<Emit>
    requires forall id :: id in ids ==> id in rs
  {
    if ids == [] then []
    else StatusEmits(ids[..|ids| - 1], rs, s) + [StatusEmit(ids[|ids| - 1], DisconnectRoom(rs[ids[|ids| - 1]], s))]
  }

  /** After the disconnect loop has visited every live room, the socket is
      in no room at all, and exactly the rooms that still have another
      player survive; rooms held only by spectators are gone. */
  lemma DisconnectLeavesNoTrace(rs: map<GameId, Room>, s: SocketId, ids: seq<GameId>)
    requires forall id :: id in rs ==> id in ids && rs[id].playerColors.Keys <= rs[id].players
    ensures forall id :: id in DisconnectRooms(rs, s, ids) ==>
      var r := DisconnectRooms(rs, s, ids)[id];
      s !in r.players && s !in r.playerColors && s !in r.spectators && !r.ticking && !r.timerInterval
    ensures forall id :: id in rs ==> (id in DisconnectRooms(rs, s, ids) <==> rs[id].players - {s} != {})
  {
  }

  /** The disconnect loop broadcasts once per visited room. */
  lemma {:induction false} StatusEmitsLength(ids: seq<GameId>, rs: map<GameId, Room>, s: SocketId)
    requires forall id :: id in ids ==> id in rs
    ensures |StatusEmits(ids, rs, s)| == |ids|
    ensures forall k :: 0 <= k < |ids| ==> StatusEmits(ids, rs, s)[k].to == ToRoom(ids[k])
  {
    if ids != [] {
      var init := ids[..|ids| - 1];
      assert forall id :: id in init ==> id in ids;
      StatusEmitsLength(init, rs, s);
      forall k | 0 <= k < |ids|
        ensures StatusEmits(ids, rs, s)[k].to == ToRoom(ids[k])
      {
        if k < |ids| - 1 {
          assert ids[k] == init[k];
        }
      }
    }
  }

  /** Visiting the room at position i appends that room's broadcast. */
  lemma StatusEmitsStep(ids: seq<GameId>, i: nat, rs: map<GameId, Room>, s: SocketId)
    requires i < |ids| && forall id :: id in ids ==> id in rs
    ensures forall id :: id in ids[..i] ==> id in rs
    ensures StatusEmits(ids[..i + 1], rs, s)
      == StatusEmits(ids[..i], rs, s) + [StatusEmit(ids[i], DisconnectRoom(rs[ids[i]], s))]
  {
    assert ids[..i + 1][..i] == ids[..i];
    assert forall id :: id in ids[..i + 1] ==> id in ids;
  }

  /** In a list without repeats, the id at position i is not among the ids before it. */
  lemma NotInPrefix(ids: seq<GameId>, i: nat)
    requires Distinct(ids) && i < |ids|
    ensures ids[i] !in ids[..i] && ids[i] in ids
    ensures ids[..i + 1] == ids[..i] + [ids[i]]
  {
    forall k | 0 <= k < i
      ensures ids[..i][k] != ids[i]
    {
      assert ids[..i][k] == ids[k];
    }
  }

  /** The ids of `ids` that are in `keep`, in their original order. */
  function KeepIn(ids: seq<GameId>, keep: set<GameId>): (r: seq<GameId>)
    ensures forall id :: id in r <==> id in ids && id in keep
    ensures |r| <= |ids|
  {
    if ids == [] then []
    else if ids[0] in keep then [ids[0]] + KeepIn(ids[1..], keep)
    else KeepIn(ids[1..], keep)
  }

  predicate Distinct(ids: seq<GameId>) {
    forall i, j :: 0 <= i < j < |ids| ==> ids[i] != ids[j]
  }

  /** Dropping ids keeps the rest pairwise distinct. */
  lemma {:induction false} KeepInDistinct(ids: seq<GameId>, keep: set<GameId>)
    requires Distinct(ids)
    ensures Distinct(KeepIn(ids, keep))
  {
    if ids != [] {
      assert Distinct(ids[1..]) by {
        forall i, j | 0 <= i < j < |ids[1..]| ensures ids[1..][i] != ids[1..][j] {
          assert ids[1..][i] == ids[i + 1] && ids[1..][j] == ids[j + 1];
        }
      }
      KeepInDistinct(ids[1..], keep);
      if ids[0] in keep {
        var rest := KeepIn(ids[1..], keep);
        forall k | 0 <= k < |ids[1..]|
          ensures ids[1..][k] != ids[0]
        {
          assert ids[1..][k] == ids[k + 1];
        }
        assert ids[0] !in rest;
        var r := [ids[0]] + rest;
        forall i, j | 0 <= i < j < |r| ensures r[i] != r[j] {
          if i == 0 {
            assert r[j] == rest[j - 1];
          } else {
            assert r[i] == rest[i - 1] && r[j] == rest[j - 1];
          }
        }
      }
    }
  }

  /** The availability fields /public-games adds to a listed game. */
  datatype Slots = Slots(playerCount: nat, availableSlots: nat, canJoin: bool, hasWhite: bool, hasBlack: bool)

  /** Player count, free seats and colour occupancy of a game, from its live
      room if there is one. The free seats never go below 0 and fill the
      count up to two; a game can be joined exactly when a seat is free. */
  function SlotsOf(room: Option<Room>): (r: Slots)
    ensures r.playerCount <= 2 ==> r.playerCount + r.availableSlots == 2
    ensures r.playerCount >= 2 ==> r.availableSlots == 0
    ensures r.canJoin <==> r.availableSlots > 0
    ensures r.hasWhite <==> room.Some? && Holds(room.value.playerColors, White)
    ensures r.hasBlack <==> room.Some? && Holds(room.value.playerColors, Black)
    ensures r.playerCount == (if room.Some? then |room.value.players| else 0)
    ensures r.canJoin <==> r.playerCount < 2
  {
    var count := if room.Some? then |room.value.players| else 0;
    var available := if 2 - count > 0 then 2 - count else 0;
    Slots(count, available, count < 2,
          room.Some? && Holds(room.value.playerColors, White),
          room.Some? && Holds(room.value.playerColors, Black))
  }


  /** A player who passed the capacity check, seated with colour `c`. */
  function Seated(p: Room, s: SocketId, c: Side): Room {
    p.(players := p.players + {s}, playerColors := p.playerColors[s := c])
  }

  /** Whether seating loads the clock: the pair is complete, the game is
      not marked started, and the games row exists with a time limit. */
  predicate LoadsClock(r: Room, recs: map<GameId, Record>, g: GameId) {
    |r.players| == 2 && !r.gameStarted && g in recs && Timed(recs[g])
  }

  /** The room once the clock has been loaded (when seating loads it) and
      resumed (when the row says it had started). */
  function WithClock(r: Room, recs: map<GameId, Record>, g: GameId): Room {
    if LoadsClock(r, recs, g) then StartTimer(LoadClock(r, recs[g])) else r
  }

  /** The timerUpdate broadcast that loading the clock sends. */
  function ClockEmits(r: Room, recs: map<GameId, Record>, g: GameId): (es: seq<Emit>)
    ensures es != [] <==> LoadsClock(r, recs, g)
    ensures es != [] ==>
      var c := WithClock(r, recs, g);
      c.timers.Some? && es == [Emit(ToRoom(g), TimerUpdate(c.timers.value.white, c.timers.value.black, c.currentTurn))]
  {
    if LoadsClock(r, recs, g) then
      var l := LoadClock(r, recs[g]);
      [Emit(ToRoom(g), TimerUpdate(l.timers.value.white, l.timers.value.black, l.currentTurn))]
    else []
  }

  /** Loading and resuming the clock keeps the room invariant, and neither
      seats nor the already-running interval are touched. */
  lemma WithClockKeepsRoomInv(r: Room, recs: map<GameId, Record>, g: GameId)
    requires RoomInv(r)
    ensures RoomInv(WithClock(r, recs, g))
    ensures WithClock(r, recs, g).players == r.players && WithClock(r, recs, g).playerColors == r.playerColors
    ensures WithClock(r, recs, g).spectators == r.spectators
    ensures r.timerInterval ==> WithClock(r, recs, g).ticking == r.ticking
  {
  }

  /** What an accepted join sends after seating: the moves and result (when
      the games row exists) and the chat to the joining socket, then the
      occupancy of the room to everyone in it. */
  function JoinState(recs: map<GameId, Record>, s: SocketId, g: GameId, r: Room): (es: seq<Emit>)
    ensures |es| == (if g in recs then 3 else 2)
    ensures forall k :: 0 <= k < |es| - 1 ==> es[k].to == ToSocket(s)
    ensures es[|es| - 2].msg == LoadChat(g) && es[|es| - 1] == StatusEmit(g, r)
    ensures g in recs ==> es[0].msg == LoadMoves(recs[g].moveHistory, recs[g].winner)
  {
    (if g in recs then [Emit(ToSocket(s), LoadMoves(recs[g].moveHistory, recs[g].winner))] else [])
    + [Emit(ToSocket(s), LoadChat(g)), StatusEmit(g, r)]
  }

  /** The first move of a timed game marks the clock started and installs
      the interval unless one is installed; any other move leaves it. */
  function FirstMoveStart(r: Room): (r': Room)
    ensures r.timers.None? || r.timerStarted ==> r' == r
    ensures r.timers.Some? ==> r'.timerStarted
    ensures r'.timerInterval <==> r.timerInterval || (r.timers.Some? && !r.timerStarted)
    ensures r'.ticking <==> r.ticking || (r.timers.Some? && !r.timerStarted && !r.timerInterval)
    ensures r' == r.(timerStarted := r'.timerStarted, timerInterval := r'.timerInterval, ticking := r'.ticking)
  {
    if r.timers.Some? && !r.timerStarted then StartTimer(r.(timerStarted := true)) else r
  }

  /** The clock of a room after a move: the first move of a timed game
      marks the clock started and installs the interval unless one is
      already installed; then the turn passes to the other side. The times
      themselves do not change, and an untimed room is left alone. */
  function MoveClock(r: Room): (r': Room)
    ensures r.timers.Some? ==> (
      && r'.currentTurn == r.currentTurn.Opposite()
      && r'.timers == r.timers && r'.timerStarted
      && (r'.timerInterval <==> r.timerInterval || !r.timerStarted)
      && (r'.ticking <==> r.ticking || (!r.timerStarted && !r.timerInterval)))
    ensures r.timers.None? ==> r' == r
    ensures r'.players == r.players && r'.playerColors == r.playerColors && r'.spectators == r.spectators
    ensures r'.gameStarted == r.gameStarted
  {
    SwitchTurn(FirstMoveStart(r))
  }

  /** The games row after a move: the clock as it stood before the turn
      passed is saved (when the room has one), {move, fen} is appended to
      the history, and a claimed checkmate with a winner records it. */
  function MoveRecord(rec: Record, room: Option<Room>, entry: MoveEntry, result: Option<string>): (rec': Record)
    ensures rec'.moveHistory == rec.moveHistory + [entry]
    ensures rec'.winner == (if result.Some? then result else rec.winner)
    ensures rec'.timeLimit == rec.timeLimit
    ensures room.Some? && room.value.timers.Some? ==> (
      && rec'.whiteTime == Some(room.value.timers.value.white)
      && rec'.blackTime == Some(room.value.timers.value.black)
      && rec'.currentTurn == Some(room.value.currentTurn)
      && rec'.timerStarted == Some(true))
    ensures !(room.Some? && room.value.timers.Some?) ==> (
      && rec'.whiteTime == rec.whiteTime && rec'.blackTime == rec.blackTime
      && rec'.currentTurn == rec.currentTurn && rec'.timerStarted == rec.timerStarted)
  {
    var saved :=
      if room.Some? && room.value.timers.Some? then Snapshot(rec, FirstMoveStart(room.value)) else rec;
    var moved := saved.(moveHistory := saved.moveHistory + [entry]);
    if result.Some? then moved.(winner := result) else moved
  }

  /** The live room with id `g`, if any. */
  function RoomOf(rs: map<GameId, Room>, g: GameId): Option<Room> {
    if g in rs then Some(rs[g]) else None
  }

  /** The clock broadcast of a move in a timed room, after the turn passes. */
  function MoveClockEmits(room: Option<Room>, g: GameId): (es: seq<Emit>)
    ensures es != [] <==> room.Some? && room.value.timers.Some?
    ensures es != [] ==>
      var t := room.value.timers.value;
      es == [Emit(ToRoom(g), TimerUpdate(t.white, t.black, room.value.currentTurn.Opposite()))]
  {
    if room.Some? && room.value.timers.Some? then
      var c := MoveClock(room.value);
      [Emit(ToRoom(g), TimerUpdate(c.timers.value.white, c.timers.value.black, c.currentTurn))]
    else []
  }

  /** What a move sends: the clock after the turn passes (timed rooms),
      then either the end of the game or the move to the other sockets. */
  function MoveEmits(room: Option<Room>, s: SocketId, g: GameId, move: string, fen: string, result: Option<string>): (es: seq<Emit>)
    ensures |es| == (if room.Some? && room.value.timers.Some? then 2 else 1)
    ensures es[..|es| - 1] == MoveClockEmits(room, g)
    ensures result.Some? ==> es[|es| - 1] == Emit(ToRoom(g), GameEnded(result.value, Some(Checkmate)))
    ensures result.None? ==> es[|es| - 1] == Emit(ToRoomExcept(g, s), OpponentMove(move, fen))
  {
    MoveClockEmits(room, g)
    + (if result.Some? then [Emit(ToRoom(g), GameEnded(result.value, Some(Checkmate)))]
       else [Emit(ToRoomExcept(g, s), OpponentMove(move, fen))])
  }

  /** A move's emits are the clock broadcast followed by one result or relay. */
  lemma MoveEmitsSplit(room: Option<Room>, s: SocketId, g: GameId, move: string, fen: string, result: Option<string>)
    ensures MoveEmits(room, s, g, move, fen, result) == MoveClockEmits(room, g)
      + [if result.Some? then Emit(ToRoom(g), GameEnded(result.value, Some(Checkmate))) else Emit(ToRoomExcept(g, s), OpponentMove(move, fen))]
  {
  }

  /** A claimed winner is the only difference a checkmate makes to the row. */
  lemma MoveRecordWithWinner(recs: map<GameId, Record>, room: Option<Room>, g: GameId, entry: MoveEntry, w: string)
    ensures g in recs ==> MoveRecord(recs[g], room, entry, Some(w)) == MoveRecord(recs[g], room, entry, None).(winner := Some(w))
  {
  }

  /** The games row after one firing of a room's interval: both clocks are
      saved when the side to move reaches a multiple of 10 seconds, and at
      0 the other side is recorded as the winner. The history is untouched. */
  function TickRecord(rec: Record, r: Room): (rec': Record)
    requires Ticks(r)
    ensures var left := TickRoom(r).timers.value;
      && (left.Of(r.currentTurn) % 10 == 0 ==> rec'.whiteTime == Some(left.white) && rec'.blackTime == Some(left.black))
      && (left.Of(r.currentTurn) % 10 != 0 ==> rec'.whiteTime == rec.whiteTime && rec'.blackTime == rec.blackTime)
      && (left.Of(r.currentTurn) == 0 ==> rec'.winner == Some(r.currentTurn.Opposite().Name()))
      && (left.Of(r.currentTurn) > 0 ==> rec'.winner == rec.winner)
    ensures rec'.moveHistory == rec.moveHistory && rec'.timeLimit == rec.timeLimit
    ensures rec'.currentTurn == rec.currentTurn && rec'.timerStarted == rec.timerStarted
  {
    var left := TickRoom(r).timers.value;
    var saved := if left.Of(r.currentTurn) % 10 == 0 then rec.(whiteTime := Some(left.white), blackTime := Some(left.black)) else rec;
    if left.Of(r.currentTurn) <= 0 then saved.(winner := Some(r.currentTurn.Opposite().Name())) else saved
  }

  /** What one firing of a room's interval sends: the new clock, and the
      timeout result when the side to move has run out. */
  function TickEmits(g: GameId, r: Room): (es: seq<Emit>)
    requires Ticks(r)
    ensures |es| == (if TickRoom(r).timers.value.Of(r.currentTurn) == 0 then 2 else 1)
    ensures es[0] == Emit(ToRoom(g), TimerUpdate(TickRoom(r).timers.value.white, TickRoom(r).timers.value.black, r.currentTurn))
    ensures |es| == 2 ==> es[1] == Emit(ToRoom(g), GameEnded(r.currentTurn.Opposite().Name(), Some(Timeout)))
  {
    var t := TickRoom(r).timers.value;
    [Emit(ToRoom(g), TimerUpdate(t.white, t.black, r.currentTurn))]
    + (if t.Of(r.currentTurn) <= 0 then [Emit(ToRoom(g), GameEnded(r.currentTurn.Opposite().Name(), Some(Timeout)))] else [])
  }

  /** The disconnect loop visits one more room, which it did not visit
      before: the room is dropped or replaced, the others stay. */
  lemma DisconnectRoomsStep(rs: map<GameId, Room>, s: SocketId, done: seq<GameId>, id: GameId)
    requires id in rs && id !in done
    ensures id in DisconnectRooms(rs, s, done) && DisconnectRooms(rs, s, done)[id] == rs[id]
    ensures var d := DisconnectRoom(rs[id], s);
      DisconnectRooms(rs, s, done + [id])
        == if d.players == {} then DisconnectRooms(rs, s, done) - {id} else DisconnectRooms(rs, s, done)[id := d]
  {
  }

  /** The same step for the games rows: only the visited room's row may change. */
  lemma DisconnectRecordsStep(rs: map<GameId, Room>, recs: map<GameId, Record>, s: SocketId, done: seq<GameId>, id: GameId)
    requires id in rs && id !in done
    ensures var d := Depart(rs[id], s);
      DisconnectRecords(recs, rs, s, done + [id])
        == if id in recs && NeedsSnapshot(d) then DisconnectRecords(recs, rs, s, done)[id := Snapshot(recs[id], d)]
           else DisconnectRecords(recs, rs, s, done)
  {
  }

  /** The room the disconnect loop visits next is still live and untouched. */
  lemma VisitReady(rs0: map<GameId, Room>, s: SocketId, ids: seq<GameId>, i: nat)
    requires Distinct(ids) && i < |ids| && forall id :: id in ids <==> id in rs0
    ensures ids[i] in rs0 && ids[i] !in ids[..i] && ids[..i + 1] == ids[..i] + [ids[i]]
    ensures ids[i] in DisconnectRooms(rs0, s, ids[..i])
    ensures DisconnectRooms(rs0, s, ids[..i])[ids[i]] == rs0[ids[i]]
  {
    NotInPrefix(ids, i);
    DisconnectRoomsStep(rs0, s, ids[..i], ids[i]);
  }

  /** One pass of the disconnect loop over the rooms: if they matched the
      visit of `done` and LeaveRoom then handled `id`, they match the visit
      of `done + [id]`. */
  lemma VisitRoomsStep(rs0: map<GameId, Room>, s: SocketId, done: seq<GameId>, id: GameId,
                       rs: map<GameId, Room>, rs': map<GameId, Room>)
    requires id in rs0 && id !in done
    requires rs == DisconnectRooms(rs0, s, done)
    requires id in rs
    requires var d := DisconnectRoom(rs[id], s);
      rs' == if d.players == {} then rs - {id} else rs[id := d]
    ensures rs' == DisconnectRooms(rs0, s, done + [id])
  {
    DisconnectRoomsStep(rs0, s, done, id);
  }

  /** The same pass for the games rows. */
  lemma VisitRecordsStep(rs0: map<GameId, Room>, recs0: map<GameId, Record>, s: SocketId, done: seq<GameId>, id: GameId,
                         rs: map<GameId, Room>, recs: map<GameId, Record>, recs': map<GameId, Record>)
    requires id in rs0 && id !in done
    requires rs == DisconnectRooms(rs0, s, done)
    requires recs == DisconnectRecords(recs0, rs0, s, done)
    requires id in rs
    requires var d := Depart(rs[id], s);
      recs' == if id in recs && NeedsSnapshot(d) then recs[id := Snapshot(recs[id], d)] else recs
    ensures recs' == DisconnectRecords(recs0, rs0, s, done + [id])
  {
    DisconnectRoomsStep(rs0, s, done, id);
    DisconnectRecordsStep(rs0, recs0, s, done, id);
    assert id in recs <==> id in recs0;
    if id in recs0 {
      assert recs[id] == recs0[id];
    }
  }

  /** The registry of live rooms, the persisted games rows and the emits sent so far. */
  class Coordinator {
    var rooms: map<GameId, Room>
    /** The insertion order of the registry; the handlers' forEach loops follow it. */
    var order: seq<GameId>
    var records: map<GameId, Record>
    var log: seq<Emit>

    ghost predicate Valid()
      reads this
    {
      && Distinct(order)
      && (forall id {:trigger id in order} :: id in order <==> id in rooms)
      && (forall id {:trigger RoomInv(rooms[id])} :: id in rooms ==> RoomInv(rooms[id]))
    }

    /** A coordinator with no live rooms over the games rows created so far. */
    constructor (initial: map<GameId, Record>)
      ensures Valid()
      ensures rooms == map[] && order == [] && records == initial && log == []
    {
      rooms, order, records, log := map[], [], initial, [];
    }

    /** The availability fields of a listed game: the live room's seats,
        never more than two, and none for a game without a live room. */
    function PublicSlots(g: GameId): (r: Slots)
      reads this
      ensures r.playerCount == (if g in rooms then |rooms[g].players| else 0)
      ensures Valid() ==> r.playerCount <= 2 && r.playerCount + r.availableSlots == 2
      ensures r.canJoin <==> r.playerCount < 2
    {
      assert Valid() && g in rooms ==> RoomInv(rooms[g]);
      SlotsOf(if g in rooms then Some(rooms[g]) else None)
    }

    /** stopGameTimer(g). */
    method StopGameTimer(g: GameId)
      requires Valid()
      modifies this
      ensures Valid()
      ensures rooms == if g in old(rooms) then old(rooms)[g := StopTimer(old(rooms)[g])] else old(rooms)
      ensures order == old(order) && records == old(records) && log == old(log)
    {
      if g in rooms && rooms[g].timerInterval {
        rooms := rooms[g := rooms[g].(timerInterval := false, ticking := false)];
      }
      assert g in old(rooms) ==> RoomInv(old(rooms)[g]);
    }

    /** Records a winner on the games row, if the row exists. */
    method SetWinner(g: GameId, winner: string)
      requires Valid()
      modifies this
      ensures Valid()
      ensures records == if g in old(records) then old(records)[g := old(records)[g].(winner := Some(winner))] else old(records)
      ensures rooms == old(rooms) && order == old(order) && log == old(log)
    {
      if g in records {
        records := records[g := records[g].(winner := Some(winner))];
      }
    }

    /** The clean-up loop of the join handler: `s` leaves every other room
        in which it is a player. */
    method LeaveOtherRooms(s: SocketId, g: GameId)
      requires Valid()
      modifies this
      ensures Valid()
      ensures rooms == EvictElsewhere(old(rooms), s, g)
      ensures order == old(order) && records == old(records) && log == old(log)
    {
      var rs := rooms;
      forall k | 0 <= k < |order|
        ensures order[k] in rooms
      {
        assert order[k] in order;
      }
      var i := 0;
      while i < |order|
        invariant 0 <= i <= |order|
        invariant rs.Keys == rooms.Keys
        invariant forall k :: 0 <= k < i ==> rs[order[k]] == EvictIn(rooms[order[k]], s, order[k], g)
        invariant forall k :: i <= k < |order| ==> rs[order[k]] == rooms[order[k]]
      {
        var id := order[i];
        var room := rs[id];
        if s in room.players && id != g {
          rs := rs[id := Evict(room, s)];
        }
        i := i + 1;
      }
      forall id | id in rs
        ensures rs[id] == EvictElsewhere(rooms, s, g)[id] && RoomInv(rs[id])
      {
        assert id in order;
        var k :| 0 <= k < |order| && order[k] == id;
        RemoveKeepsRoomInv(rooms[id], s);
      }
      rooms := rs;
    }

    /** Loads the clock of room `g` from its games row once the pair is
        complete, broadcasts it, and resumes the interval when the row
        says the clock had started. */
    method InitTimers(g: GameId)
      requires Valid() && g in rooms
      modifies this
      ensures Valid()
      ensures rooms == old(rooms)[g := WithClock(old(rooms)[g], records, g)]
      ensures log == old(log) + ClockEmits(old(rooms)[g], records, g)
      ensures order == old(order) && records == old(records)
    {
      var room := rooms[g];
      if |room.players| == 2 && !room.gameStarted && g in records && Timed(records[g]) {
        room := LoadClock(room, records[g]);
        rooms := rooms[g := room];
        log := log + [Emit(ToRoom(g), TimerUpdate(room.timers.value.white, room.timers.value.black, room.currentTurn))];
        if room.timerStarted {
          rooms := rooms[g := StartTimer(room)];
        }
      }
      WithClockKeepsRoomInv(old(rooms)[g], records, g);
    }

    /** The player half of the join handler for a room that exists: a
        third socket is turned away, otherwise the socket is seated with
        the first free colour, or told roomFull when both colours are held
        (it keeps its seat), and the clock is loaded when the pair is complete. */
    method SeatPlayer(s: SocketId, g: GameId) returns (accepted: bool)
      requires Valid() && g in rooms
      modifies this
      ensures Valid()
      ensures order == old(order) && records == old(records)
      ensures var p := old(rooms)[g];
        |p.players| >= 2 && s !in p.players ==>
          !accepted && rooms == old(rooms) && log == old(log) + [Emit(ToSocket(s), RoomFull)]
      ensures var p := old(rooms)[g];
        (|p.players| < 2 || s in p.players) && ChooseColor(p.playerColors).None? ==>
          !accepted && rooms == old(rooms)[g := p.(players := p.players + {s})] && log == old(log) + [Emit(ToSocket(s), RoomFull)]
      ensures var p := old(rooms)[g];
        (|p.players| < 2 || s in p.players) && ChooseColor(p.playerColors).Some? ==>
          var c := ChooseColor(p.playerColors).value;
          accepted && rooms == old(rooms)[g := WithClock(Seated(p, s, c), records, g)]
          && log == old(log) + [Emit(ToSocket(s), AssignColor(c))] + ClockEmits(Seated(p, s, c), records, g)
    {
      var room := rooms[g];
      if |room.players| >= 2 && s !in room.players {
        log := log + [Emit(ToSocket(s), RoomFull)];
        return false;
      }
      var color := ChooseColor(room.playerColors);
      if color.None? {
        // both colours are held, so the room is full and `s` is one of its players
        BothColoursHeld(room);
        assert room.players + {s} == room.players;
        rooms := rooms[g := room.(players := room.players + {s})];
        log := log + [Emit(ToSocket(s), RoomFull)];
        return false;
      }
      SeatKeepsRoomInv(room, s);
      rooms := rooms[g := Seated(room, s, color.value)];
      log := log + [Emit(ToSocket(s), AssignColor(color.value))];
      InitTimers(g);
      return true;
    }

    /** The part of the join handler every accepted join ends with. */
    method SendJoinState(s: SocketId, g: GameId)
      requires g in rooms
      modifies this
      ensures rooms == old(rooms) && order == old(order) && records == old(records)
      ensures log == old(log) + JoinState(records, s, g, rooms[g])
    {
      if g in records {
        log := log + [Emit(ToSocket(s), LoadMoves(records[g].moveHistory, records[g].winner))];
      }
      log := log + [Emit(ToSocket(s), LoadChat(g)), StatusEmit(g, rooms[g])];
    }

    /** Creates room `g` on first use, at the end of the registry order. */
    method OpenRoom(g: GameId)
      requires Valid()
      modifies this
      ensures Valid()
      ensures rooms == if g in old(rooms) then old(rooms) else old(rooms)[g := EmptyRoom]
      ensures order == old(order) + (if g in old(rooms) then [] else [g])
      ensures records == old(records) && log == old(log)
    {
      if g !in rooms {
        assert g !in order;
        rooms := rooms[g := EmptyRoom];
        order := order + [g];
        forall i, j | 0 <= i < j < |order|
          ensures order[i] != order[j]
        {
          if j == |order| - 1 {
            assert order[i] in old(order);
          }
        }
        forall id | id in order
          ensures id in rooms
        {
          if id != g {
            assert id in old(order);
          }
        }
      }
    }

    /** The spectator half of the join handler: the socket is told its role
        and added to the spectators. */
    method AddSpectator(s: SocketId, g: GameId)
      requires Valid() && g in rooms
      modifies this
      ensures Valid()
      ensures rooms == old(rooms)[g := old(rooms)[g].(spectators := old(rooms)[g].spectators + {s})]
      ensures log == old(log) + [Emit(ToSocket(s), AssignRole("spectator"))]
      ensures order == old(order) && records == old(records)
    {
      assert RoomInv(rooms[g]);
      log := log + [Emit(ToSocket(s), AssignRole("spectator"))];
      rooms := rooms[g := rooms[g].(spectators := rooms[g].spectators + {s})];
    }

    /** The join handler for socket `s`, game `g` and requested role `role`
        (any role other than "spectator" joins as a player). The room is
        created on first use and the record is only read. */
    method JoinGame(s: SocketId, g: GameId, role: string)
      requires Valid()
      modifies this
      ensures Valid()
      ensures records == old(records)
      ensures order == old(order) + (if g in old(rooms) then [] else [g])
      ensures var e := EvictElsewhere(old(rooms), s, g); var p := Prepared(old(rooms), s, g);
        role == "spectator" ==>
          rooms == e[g := p.(spectators := p.spectators + {s})]
          && log == old(log) + [Emit(ToSocket(s), AssignRole("spectator"))] + JoinState(records, s, g, rooms[g])
      ensures var e := EvictElsewhere(old(rooms), s, g); var p := Prepared(old(rooms), s, g);
        role != "spectator" && |p.players| >= 2 && s !in p.players ==>
          rooms == e[g := p] && log == old(log) + [Emit(ToSocket(s), RoomFull)]
      ensures var e := EvictElsewhere(old(rooms), s, g); var p := Prepared(old(rooms), s, g);
        role != "spectator" && (|p.players| < 2 || s in p.players) && ChooseColor(p.playerColors).None? ==>
          rooms == e[g := p.(players := p.players + {s})] && log == old(log) + [Emit(ToSocket(s), RoomFull)]
      ensures var e := EvictElsewhere(old(rooms), s, g); var p := Prepared(old(rooms), s, g);
        role != "spectator" && (|p.players| < 2 || s in p.players) && ChooseColor(p.playerColors).Some? ==>
          var seated := Seated(p, s, ChooseColor(p.playerColors).value);
          rooms == e[g := WithClock(seated, records, g)]
          && log == old(log) + [Emit(ToSocket(s), AssignColor(ChooseColor(p.playerColors).value))]
                  + ClockEmits(seated, records, g) + JoinState(records, s, g, rooms[g])
    {
      LeaveOtherRooms(s, g);
      OpenRoom(g);
      assert rooms == EvictElsewhere(old(rooms), s, g)[g := Prepared(old(rooms), s, g)];
      if role == "spectator" {
        AddSpectator(s, g);
      } else {
        var accepted := SeatPlayer(s, g);
        if !accepted {
          return;
        }
      }
      SendJoinState(s, g);
    }

    /** The client-reported timeUp event: the side opposite `loser` wins by
        timeout. The interval is not stopped. */
    method TimeUp(g: GameId, loser: string)
      requires Valid()
      modifies this
      ensures Valid()
      ensures records == if g in old(records) then old(records)[g := old(records)[g].(winner := Some(WinnerAgainst(loser).Name()))] else old(records)
      ensures log == old(log) + [Emit(ToRoom(g), GameEnded(WinnerAgainst(loser).Name(), Some(Timeout)))]
      ensures rooms == old(rooms) && order == old(order)
    {
      var winner := WinnerAgainst(loser);
      SetWinner(g, winner.Name());
      log := log + [Emit(ToRoom(g), GameEnded(winner.Name(), Some(Timeout)))];
    }

    /** The undo answer: an accept with a position drops the last move of a
        non-empty history and broadcasts the position; an accept on an empty
        history (or without a games row) does nothing; a refusal is reported
        to the rest of the room. */
    method RespondToUndoMove(s: SocketId, g: GameId, accepted: bool, gameState: Option<GameState>)
      modifies this
      ensures rooms == old(rooms) && order == old(order)
      ensures accepted && gameState.Some? && g in old(records) && old(records)[g].moveHistory != [] ==>
                var h := old(records)[g].moveHistory;
                records == old(records)[g := old(records)[g].(moveHistory := h[..|h| - 1])]
                && log == old(log) + [Emit(ToRoom(g), MoveUndone(gameState.value.fen, gameState.value.turn, gameState.value.lastMove))]
      ensures accepted && gameState.Some? && !(g in old(records) && old(records)[g].moveHistory != []) ==>
                records == old(records) && log == old(log)
      ensures !(accepted && gameState.Some?) ==>
                records == old(records) && log == old(log) + [Emit(ToRoomExcept(g, s), UndoMoveRejected)]
    {
      if accepted && gameState.Some? {
        if g in records {
          var history := records[g].moveHistory;
          if |history| > 0 {
            history := history[..|history| - 1];
            records := records[g := records[g].(moveHistory := history)];
            log := log + [Emit(ToRoom(g), MoveUndone(gameState.value.fen, gameState.value.turn, gameState.value.lastMove))];
          }
        }
      } else {
        log := log + [Emit(ToRoomExcept(g, s), UndoMoveRejected)];
      }
    }

    /** A draw offer is relayed to the rest of the room and changes nothing. */
    method OfferDraw(s: SocketId, g: GameId, offeringPlayer: string)
      modifies this
      ensures log == old(log) + [Emit(ToRoomExcept(g, s), DrawOffer(offeringPlayer))]
      ensures rooms == old(rooms) && order == old(order) && records == old(records)
    {
      log := log + [Emit(ToRoomExcept(g, s), DrawOffer(offeringPlayer))];
    }

    /** The draw answer: an accept stops the clock and records a draw; a
        refusal is broadcast to the whole room and changes nothing else. */
    method RespondToDraw(g: GameId, accepted: bool)
      requires Valid()
      modifies this
      ensures Valid() && order == old(order)
      ensures accepted ==>
                && rooms == (if g in old(rooms) then old(rooms)[g := StopTimer(old(rooms)[g])] else old(rooms))
                && records == (if g in old(records) then old(records)[g := old(records)[g].(winner := Some("draw"))] else old(records))
                && log == old(log) + [Emit(ToRoom(g), GameEnded("draw", None))]
      ensures !accepted ==>
                rooms == old(rooms) && records == old(records) && log == old(log) + [Emit(ToRoom(g), DrawRejected)]
    {
      if accepted {
        StopGameTimer(g);
        SetWinner(g, "draw");
        log := log + [Emit(ToRoom(g), GameEnded("draw", None))];
      } else {
        log := log + [Emit(ToRoom(g), DrawRejected)];
      }
    }

    /** The start of the move relay: the first move of a timed game starts its clock. */
    method StartClockOnFirstMove(g: GameId)
      requires Valid()
      modifies this
      ensures Valid()
      ensures rooms == if g in old(rooms) then old(rooms)[g := FirstMoveStart(old(rooms)[g])] else old(rooms)
      ensures order == old(order) && records == old(records) && log == old(log)
    {
      if g in rooms && !rooms[g].timerStarted && rooms[g].timers.Some? {
        assert RoomInv(rooms[g]);
        rooms := rooms[g := StartTimer(rooms[g].(timerStarted := true))];
      }
    }

    /** Saves the clock of a timed room on its games row. */
    method SaveClock(g: GameId)
      requires Valid()
      modifies this
      ensures Valid()
      ensures records == if g in rooms && rooms[g].timers.Some? && g in old(records)
                         then old(records)[g := Snapshot(old(records)[g], rooms[g])] else old(records)
      ensures rooms == old(rooms) && order == old(order) && log == old(log)
    {
      if g in rooms && rooms[g].timers.Some? && g in records {
        records := records[g := Snapshot(records[g], rooms[g])];
      }
    }

    /** Appends one entry to the move history of a games row. */
    method AppendMove(g: GameId, entry: MoveEntry)
      requires Valid()
      modifies this
      ensures Valid()
      ensures records == if g in old(records)
                         then old(records)[g := old(records)[g].(moveHistory := old(records)[g].moveHistory + [entry])]
                         else old(records)
      ensures rooms == old(rooms) && order == old(order) && log == old(log)
    {
      if g in records {
        records := records[g := records[g].(moveHistory := records[g].moveHistory + [entry])];
      }
    }

    /** switchTurn(g): passes the move to the other side of a timed room and
        broadcasts the clock. */
    method SwitchGameTurn(g: GameId)
      requires Valid()
      modifies this
      ensures Valid()
      ensures rooms == if g in old(rooms) then old(rooms)[g := SwitchTurn(old(rooms)[g])] else old(rooms)
      ensures log == old(log) + (if g in old(rooms) && old(rooms)[g].timers.Some? then
                                   var r := SwitchTurn(old(rooms)[g]);
                                   [Emit(ToRoom(g), TimerUpdate(r.timers.value.white, r.timers.value.black, r.currentTurn))]
                                 else [])
      ensures order == old(order) && records == old(records)
    {
      if g in rooms && rooms[g].timers.Some? {
        assert RoomInv(rooms[g]);
        var room := SwitchTurn(rooms[g]);
        rooms := rooms[g := room];
        log := log + [Emit(ToRoom(g), TimerUpdate(room.timers.value.white, room.timers.value.black, room.currentTurn))];
      }
    }

    /** The move relay: starts the clock on the first move of a timed room,
        saves the clock, appends {move, fen} to the history, hands the turn
        over, and either ends the game (claimed checkmate with a winner) or
        forwards the move to the rest of the room. */
    method MoveMade(s: SocketId, g: GameId, move: string, fen: string, isCheckmate: bool, winner: Option<string>)
      requires Valid()
      modifies this
      ensures Valid() && order == old(order)
      ensures rooms == if g in old(rooms) then old(rooms)[g := MoveClock(old(rooms)[g])] else old(rooms)
      ensures records ==
        if g in old(records) then
          old(records)[g := MoveRecord(old(records)[g], RoomOf(old(rooms), g), MoveEntry(move, fen),
                                       if isCheckmate && Truthy(winner) then winner else None)]
        else old(records)
      ensures log == old(log) + MoveEmits(RoomOf(old(rooms), g), s, g, move, fen,
                                          if isCheckmate && Truthy(winner) then winner else None)
    {
      ghost var room0 := RoomOf(rooms, g);
      ghost var result := if isCheckmate && Truthy(winner) then winner else None;
      RecordMove(g, MoveEntry(move, fen));
      ghost var relayed := log;
      var last;
      if isCheckmate && Truthy(winner) {
        SetWinner(g, winner.value);
        MoveRecordWithWinner(old(records), room0, g, MoveEntry(move, fen), winner.value);
        last := Emit(ToRoom(g), GameEnded(winner.value, Some(Checkmate)));
      } else {
        last := Emit(ToRoomExcept(g, s), OpponentMove(move, fen));
      }
      log := log + [last];
      MoveEmitsSplit(room0, s, g, move, fen, result);
      assert relayed == old(log) + MoveClockEmits(room0, g);
      assert log == old(log) + (MoveClockEmits(room0, g) + [last]);
    }

    /** The part of the move relay every move goes through: the clock is
        started by a first move and saved, the move is appended to the
        history, and the turn passes. */
    method RecordMove(g: GameId, entry: MoveEntry)
      requires Valid()
      modifies this
      ensures Valid() && order == old(order)
      ensures rooms == if g in old(rooms) then old(rooms)[g := MoveClock(old(rooms)[g])] else old(rooms)
      ensures records == if g in old(records) then old(records)[g := MoveRecord(old(records)[g], RoomOf(old(rooms), g), entry, None)]
                         else old(records)
      ensures log == old(log) + MoveClockEmits(RoomOf(old(rooms), g), g)
    {
      StartClockOnFirstMove(g);
      SaveClock(g);
      AppendMove(g, entry);
      SwitchGameTurn(g);
    }

    /** drawGame: a draw without negotiation; the clock stops. */
    method DrawGame(g: GameId)
      requires Valid()
      modifies this
      ensures Valid() && order == old(order)
      ensures rooms == if g in old(rooms) then old(rooms)[g := StopTimer(old(rooms)[g])] else old(rooms)
      ensures records == if g in old(records) then old(records)[g := old(records)[g].(winner := Some("draw"))] else old(records)
      ensures log == old(log) + [Emit(ToRoom(g), GameEnded("draw", None))]
    {
      StopGameTimer(g);
      SetWinner(g, "draw");
      log := log + [Emit(ToRoom(g), GameEnded("draw", None))];
    }

    /** surrenderGame: the clock stops and the side opposite `loser` wins. */
    method SurrenderGame(g: GameId, loser: string)
      requires Valid()
      modifies this
      ensures Valid() && order == old(order)
      ensures rooms == if g in old(rooms) then old(rooms)[g := StopTimer(old(rooms)[g])] else old(rooms)
      ensures records == if g in old(records) then old(records)[g := old(records)[g].(winner := Some(WinnerAgainst(loser).Name()))] else old(records)
      ensures log == old(log) + [Emit(ToRoom(g), GameEnded(WinnerAgainst(loser).Name(), None))]
    {
      StopGameTimer(g);
      var winner := WinnerAgainst(loser);
      SetWinner(g, winner.Name());
      log := log + [Emit(ToRoom(g), GameEnded(winner.Name(), None))];
    }

    /** One firing of the one-second interval of room `g`; only a room whose
        interval is running fires, and a firing does nothing unless the
        clock is loaded, started and the side to move has time left. */
    method Tick(g: GameId)
      requires Valid()
      modifies this
      ensures Valid() && order == old(order)
      ensures !(g in old(rooms) && old(rooms)[g].ticking && Ticks(old(rooms)[g])) ==>
                rooms == old(rooms) && records == old(records) && log == old(log)
      ensures g in old(rooms) && old(rooms)[g].ticking && Ticks(old(rooms)[g]) ==>
                && rooms == old(rooms)[g := TickRoom(old(rooms)[g])]
                && records == (if g in old(records) then old(records)[g := TickRecord(old(records)[g], old(rooms)[g])] else old(records))
                && log == old(log) + TickEmits(g, old(rooms)[g])
    {
      if g in rooms && rooms[g].ticking {
        var room := rooms[g];
        if room.timers.Some? && room.timerStarted {
          var current := room.currentTurn;
          if room.timers.value.Of(current) > 0 {
            assert RoomInv(room);
            room := TickRoom(room);
            rooms := rooms[g := room];
            var t := room.timers.value;
            log := log + [Emit(ToRoom(g), TimerUpdate(t.white, t.black, room.currentTurn))];
            if t.Of(current) % 10 == 0 && g in records {
              records := records[g := records[g].(whiteTime := Some(t.white), blackTime := Some(t.black))];
            }
            if t.Of(current) <= 0 {
              var winner := current.Opposite();
              SetWinner(g, winner.Name());
              log := log + [Emit(ToRoom(g), GameEnded(winner.Name(), Some(Timeout)))];
            }
          }
        }
      }
    }

    /** The disconnect handler's work on one room: the socket leaves the
        players and colours, a remaining player's clock is saved, the
        interval is stopped, a room without players is deleted, the socket
        leaves the spectators, and the occupancy is broadcast. */
    method LeaveRoom(s: SocketId, id: GameId)
      requires id in rooms
      modifies this
      ensures var d := DisconnectRoom(old(rooms)[id], s);
        rooms == if d.players == {} then old(rooms) - {id} else old(rooms)[id := d]
      ensures var d := Depart(old(rooms)[id], s);
        records == if id in old(records) && NeedsSnapshot(d) then old(records)[id := Snapshot(old(records)[id], d)] else old(records)
      ensures log == old(log) + [StatusEmit(id, DisconnectRoom(old(rooms)[id], s))]
      ensures order == old(order)
    {
      var room := rooms[id];
      if s in room.players {
        room := room.(players := room.players - {s}, playerColors := room.playerColors - {s});
      }
      if room.timers.Some? && room.players != {} && id in records {
        records := records[id := Snapshot(records[id], room)];
      }
      room := StopTimer(room);
      if room.players == {} {
        rooms := rooms - {id};
      } else {
        rooms := rooms[id := room.(spectators := room.spectators - {s})];
      }
      room := room.(spectators := room.spectators - {s});
      log := log + [StatusEmit(id, room)];
    }

    /** The disconnect handler: every room, in registry order, goes through
        LeaveRoom; the registry order keeps the rooms that survive. */
    method Disconnect(s: SocketId)
      requires Valid()
      modifies this
      ensures Valid()
      ensures rooms == DisconnectRooms(old(rooms), s, old(order))
      ensures order == KeepIn(old(order), rooms.Keys)
      ensures records == DisconnectRecords(old(records), old(rooms), s, old(order))
      ensures log == old(log) + StatusEmits(old(order), old(rooms), s)
      ensures forall id :: id in rooms ==> s !in rooms[id].players && s !in rooms[id].playerColors && s !in rooms[id].spectators
      ensures forall id :: id in old(rooms) ==> (id in rooms <==> old(rooms)[id].players - {s} != {})
    {
      forall id | id in rooms
        ensures rooms[id].playerColors.Keys <= rooms[id].players
      {
        assert RoomInv(rooms[id]);
      }
      ghost var rooms0, order0 := rooms, order;
      VisitRooms(s);
      DisconnectLeavesNoTrace(rooms0, s, order0);
      forall id | id in rooms
        ensures RoomInv(rooms[id])
      {
        assert RoomInv(old(rooms)[id]);
        RemoveKeepsRoomInv(old(rooms)[id], s);
      }
      KeepInDistinct(order, rooms.Keys);
      order := KeepIn(order, rooms.Keys);
    }

    /** The loop of the disconnect handler over the registry order. */
    method VisitRooms(s: SocketId)
      requires Distinct(order) && forall id :: id in order <==> id in rooms
      requires forall id :: id in rooms ==> rooms[id].playerColors.Keys <= rooms[id].players
      modifies this
      ensures rooms == DisconnectRooms(old(rooms), s, old(order))
      ensures records == DisconnectRecords(old(records), old(rooms), s, old(order))
      ensures log == old(log) + StatusEmits(old(order), old(rooms), s)
      ensures order == old(order)
    {
      ghost var rooms0, records0, log0 := rooms, records, log;
      var ids := order;
      var i := 0;
      while i < |ids|
        invariant 0 <= i <= |ids| && order == ids
        invariant rooms == DisconnectRooms(rooms0, s, ids[..i])
        invariant records == DisconnectRecords(records0, rooms0, s, ids[..i])
        invariant log == log0 + StatusEmits(ids[..i], rooms0, s)
      {
        ghost var rs, recs := rooms, records;
        VisitReady(rooms0, s, ids, i);
        LeaveRoom(s, ids[i]);
        VisitRoomsStep(rooms0, s, ids[..i], ids[i], rs, rooms);
        VisitRecordsStep(rooms0, records0, s, ids[..i], ids[i], rs, recs, records);
        StatusEmitsStep(ids, i, rooms0, s);
        i := i + 1;
      }
      assert ids[..i] == ids;
    }
  }
}
