/**
  The maze server's room registry (game/maze/server.js): a table from room
  code to room record, changed one socket message at a time. Each handler
  runs to completion before the next message is read, so each is one
  method of `Registry`. The room records are values held in the table;
  nothing else refers to them.
*/
module RoomServer {
  import opened Wrappers
  import opened Maze
  import opened Players
  import opened JsObjects

  /** `{ host, players, maxLevels, layouts, current, view }`; `view` is
      absent until the host first sets it, and `host` becomes null when the
      host leaves an otherwise empty room. */
  datatype Room = Room(
    host: Option<string>,
    players: Roster,
    maxLevels: int,
    layouts: seq<seq<Pos>>,
    current: int,
    view: Option<string>)

  /** What `genCode` can return: the characters after `0.` of a random
      number in base 36, at most four of them, upper-cased. */
  predicate GeneratedCode(code: string) {
    |code| <= 4 && forall i :: 0 <= i < |code| ==> '0' <= code[i] <= '9' || 'A' <= code[i] <= 'Z'
  }

  /** A generated code is never a name every object inherits, so
      `rooms[code] = ...` always stores an own key. */
  lemma GeneratedCodeIsOwnKey(code: string)
    requires GeneratedCode(code)
    ensures code !in InheritedNames
  {
  }

  /** How `joinRoom` ends: the joiner is stored, the code names no room, or
      `rooms[code]` found an inherited member, whose missing `players`
      field makes the handler throw a TypeError. */
  datatype JoinReply = Joined | NoSuchRoom | JoinThrows

  /** The side of every multiplayer maze. */
  const Side := 25

  /** The room `createRoom` stores: the creator hosts it and is its only
      player, one level, no layouts yet. */
  function Opened(sid: string, name: string): Room {
    Room(Some(sid), [Entry(sid, Fresh(name))], 1, [], 0, None)
  }

  /** The goal is the bottom-right cell; anything at or beyond it counts. */
  predicate AtGoal(pos: Pos) {
    pos.x >= Side - 1 && pos.y >= Side - 1
  }

  /** `Array.from({length: n}, ...)` calls `new Array(n)`, which throws a
      RangeError unless `n` is below 2^32. */
  const ArrayLengthLimit := 0x1_0000_0000

  /** How many layouts `Array.from({length: maxLevels}, ...)` builds when
      it does not throw: a negative length counts as 0. */
  function LayoutCount(maxLevels: int): (n: nat)
    ensures n < ArrayLengthLimit <==> maxLevels < ArrayLengthLimit
    ensures 0 <= maxLevels ==> n == maxLevels
    ensures maxLevels < 0 ==> n == 0
  {
    if maxLevels < 0 then 0 else maxLevels
  }

  /** How `startGame` ends: the sender does not host the room, the game
      started, or building the layouts threw once `maxLevels` and
      `current` were already written. */
  datatype StartReply = NotHost | Started | StartThrows

  /** What a `playerMove` message leads the server to announce. */
  datatype MoveOutcome =
    | Ignored
    | Moved
    | NextLevel
    | LevelComplete(leaderboard: seq<Standing>)
      /** `rooms[code]` found an inherited member: reading its `players`
          field throws a TypeError before anything changes. */
    | MoveThrows

  /** The room after its member `sid` reports position `pos`: the move is
      stored as sent; reaching the goal scores a point, then either opens
      the next level with everyone back at the start or ends the run. */
  function AfterMove(room: Room, sid: string, pos: Pos): (after: Room)
    requires Lookup(room.players, sid).Some?
    ensures Ids(after.players) == Ids(room.players)
    ensures after.host == room.host && after.maxLevels == room.maxLevels
    ensures after.layouts == room.layouts && after.view == room.view
    ensures after.current == room.current || after.current == room.current + 1
  {
    var moved := Lookup(room.players, sid).value.(pos := pos);
    if !AtGoal(pos) then room.(players := Put(room.players, sid, moved))
    else
      var scored := Put(room.players, sid, moved.(score := moved.score + 1));
      if room.current + 1 < room.maxLevels then room.(players := AllAtOrigin(scored), current := room.current + 1)
      else room.(players := scored)
  }

  /** The announcement that goes with `AfterMove`. */
  function MoveReport(room: Room, sid: string, pos: Pos): (outcome: MoveOutcome)
    requires Lookup(room.players, sid).Some?
    ensures outcome == Moved <==> !AtGoal(pos)
    ensures outcome != Ignored && outcome != MoveThrows
  {
    if !AtGoal(pos) then Moved
    else if room.current + 1 < room.maxLevels then NextLevel
    else LevelComplete(Leaderboard(AfterMove(room, sid, pos).players))
  }

  /** Off the goal, a move changes the mover's position and nothing else. */
  lemma MoveTouchesOnlyMover(room: Room, sid: string, pos: Pos)
    requires Lookup(room.players, sid).Some? && !AtGoal(pos)
    ensures AfterMove(room, sid, pos) == room.(players := AfterMove(room, sid, pos).players)
    ensures Ids(AfterMove(room, sid, pos).players) == Ids(room.players)
    ensures Lookup(AfterMove(room, sid, pos).players, sid) == Some(Lookup(room.players, sid).value.(pos := pos))
    ensures forall id :: id != sid ==> Lookup(AfterMove(room, sid, pos).players, id) == Lookup(room.players, id)
  {
  }

  /** On the goal, the mover's score rises by exactly one; every other
      score and every name stays, and the keys stay in their order. */
  lemma GoalScoresMoverOnly(room: Room, sid: string, pos: Pos)
    requires Lookup(room.players, sid).Some? && AtGoal(pos)
    ensures Ids(AfterMove(room, sid, pos).players) == Ids(room.players)
    ensures Lookup(AfterMove(room, sid, pos).players, sid).value.score == Lookup(room.players, sid).value.score + 1
    ensures forall id :: id != sid && Lookup(room.players, id).Some? ==>
              Lookup(AfterMove(room, sid, pos).players, id).value.score == Lookup(room.players, id).value.score
    ensures forall id :: Lookup(room.players, id).Some? ==>
              Lookup(AfterMove(room, sid, pos).players, id).value.name == Lookup(room.players, id).value.name
  {
  }

  /** Reaching the goal before the last level moves the room to the next
      level and sends every player back to the start. */
  lemma GoalOpensNextLevel(room: Room, sid: string, pos: Pos)
    requires Lookup(room.players, sid).Some? && AtGoal(pos) && room.current + 1 < room.maxLevels
    ensures AfterMove(room, sid, pos).current == room.current + 1
    ensures forall id :: Lookup(AfterMove(room, sid, pos).players, id).Some? ==>
              Lookup(AfterMove(room, sid, pos).players, id).value.pos == Origin
    ensures AfterMove(room, sid, pos) == room.(players := AfterMove(room, sid, pos).players, current := room.current + 1)
    ensures MoveReport(room, sid, pos) == NextLevel
  {
  }

  /** Reaching the goal on the last level leaves the level and every other
      position alone, and reports a leaderboard of every player's name and
      score, best first. */
  lemma GoalOnLastLevelRanks(room: Room, sid: string, pos: Pos)
    requires Lookup(room.players, sid).Some? && AtGoal(pos) && room.current + 1 >= room.maxLevels
    ensures AfterMove(room, sid, pos) == room.(players := AfterMove(room, sid, pos).players)
    ensures Lookup(AfterMove(room, sid, pos).players, sid).value.pos == pos
    ensures forall id :: id != sid ==> Lookup(AfterMove(room, sid, pos).players, id) == Lookup(room.players, id)
    ensures MoveReport(room, sid, pos).LevelComplete?
    ensures Descending(MoveReport(room, sid, pos).leaderboard)
    ensures multiset(MoveReport(room, sid, pos).leaderboard) == multiset(Standings(AfterMove(room, sid, pos).players))
  {
  }

  lemma AfterMoveKeepsUnique(room: Room, sid: string, pos: Pos)
    requires Lookup(room.players, sid).Some? && UniqueIds(room.players)
    ensures UniqueIds(AfterMove(room, sid, pos).players)
  {
    var moved := Lookup(room.players, sid).value.(pos := pos);
    PutKeepsUnique(room.players, sid, moved);
    PutKeepsUnique(room.players, sid, moved.(score := moved.score + 1));
  }

  /** `ids[0] || null`: the first remaining key, unless there is none (or
      it is the empty string, which is falsy). */
  function FirstOrNull(ids: seq<string>): Option<string> {
    if |ids| > 0 && ids[0] != "" then Some(ids[0]) else None
  }

  /** A room after connection `sid` leaves it: untouched if `sid` is not a
      player there; otherwise the player is deleted and, if `sid` was the
      host, the first remaining player becomes host. */
  function Departed(room: Room, sid: string): (left: Room)
    ensures Lookup(left.players, sid) == None
    ensures forall id {:trigger Lookup(left.players, id)} :: id != sid ==> Lookup(left.players, id) == Lookup(room.players, id)
    ensures left.maxLevels == room.maxLevels && left.current == room.current && left.layouts == room.layouts
    ensures left.host == room.host || room.host == Some(sid)
  {
    if Lookup(room.players, sid).None? then room
    else
      var ps := Remove(room.players, sid);
      room.(players := ps, host := if room.host == Some(sid) then FirstOrNull(Ids(ps)) else room.host)
  }

  /** `sid` was the room's last player. */
  predicate Emptied(room: Room, sid: string) {
    Lookup(room.players, sid).Some? && Remove(room.players, sid) == []
  }

  /** The whole table after `disconnect`: every room `sid` played in loses
      it, and those it leaves empty are deleted. */
  function Disconnected(rooms: map<string, Room>, sid: string): (after: map<string, Room>)
    ensures after.Keys <= rooms.Keys
    ensures forall code :: code in after ==> Lookup(after[code].players, sid) == None
  {
    map code | code in rooms && !Emptied(rooms[code], sid) :: Departed(rooms[code], sid)
  }

  /** The table part way through the `for (const code in rooms)` loop, once
      the codes in `done` have been handled. */
  function Swept(rooms: map<string, Room>, sid: string, done: set<string>): map<string, Room> {
    map code | code in rooms && !(code in done && Emptied(rooms[code], sid)) ::
      if code in done then Departed(rooms[code], sid) else rooms[code]
  }

  /** After a disconnect no room lists the connection; exactly the rooms it
      was the last player of are gone; rooms it was not in are unchanged;
      a room it played in and that survives still has players. */
  lemma DisconnectLeavesNoTrace(rooms: map<string, Room>, sid: string)
    ensures forall code :: code in Disconnected(rooms, sid) ==> Lookup(Disconnected(rooms, sid)[code].players, sid) == None
    ensures forall code :: code in rooms ==> (code !in Disconnected(rooms, sid) <==> Emptied(rooms[code], sid))
    ensures forall code :: code in Disconnected(rooms, sid) ==> code in rooms
    ensures forall code :: code in rooms && Lookup(rooms[code].players, sid).None? ==>
              code in Disconnected(rooms, sid) && Disconnected(rooms, sid)[code] == rooms[code]
    ensures forall code :: code in Disconnected(rooms, sid) && Lookup(rooms[code].players, sid).Some? ==>
              Disconnected(rooms, sid)[code].players != []
  {
  }

  /** When the host leaves a room that keeps players, the player that had
      joined first among those left becomes host. */
  lemma HostPassesToFirstRemaining(rooms: map<string, Room>, sid: string, code: string, k: int)
    requires code in rooms && UniqueIds(rooms[code].players)
    requires 0 <= k < |rooms[code].players| && rooms[code].players[k].id == sid
    requires rooms[code].host == Some(sid) && |rooms[code].players| > 1
    ensures code in Disconnected(rooms, sid)
    ensures Disconnected(rooms, sid)[code].players == rooms[code].players[..k] + rooms[code].players[k + 1..]
    ensures Disconnected(rooms, sid)[code].host == FirstOrNull(Ids(Disconnected(rooms, sid)[code].players))
  {
    var ps := rooms[code].players;
    RemoveKeepsOrder(ps, k);
    assert Lookup(ps, sid).Some? by {
      IdsIndex(ps);
      assert Ids(ps)[k] == sid;
    }
    assert |ps[..k] + ps[k + 1..]| == |ps| - 1;
  }

  /** Handling one more room in the `disconnect` loop. */
  lemma SweepStep(rooms: map<string, Room>, sid: string, done: set<string>, code: string)
    requires code in rooms && code !in done
    ensures code in Swept(rooms, sid, done) && Swept(rooms, sid, done)[code] == rooms[code]
    ensures Lookup(rooms[code].players, sid).None? ==> Swept(rooms, sid, done + {code}) == Swept(rooms, sid, done)
    ensures Emptied(rooms[code], sid) ==> Swept(rooms, sid, done + {code}) == Swept(rooms, sid, done) - {code}
    ensures Lookup(rooms[code].players, sid).Some? && !Emptied(rooms[code], sid) ==>
              Swept(rooms, sid, done + {code}) == Swept(rooms, sid, done)[code := Departed(rooms[code], sid)]
  {
  }

  lemma DisconnectedKeepsUnique(rooms: map<string, Room>, sid: string)
    requires forall code :: code in rooms ==> UniqueIds(rooms[code].players)
    ensures forall code :: code in Disconnected(rooms, sid) ==> UniqueIds(Disconnected(rooms, sid)[code].players)
  {
    forall code | code in Disconnected(rooms, sid)
      ensures UniqueIds(Disconnected(rooms, sid)[code].players)
    {
      RemoveKeepsUnique(rooms[code].players, sid);
    }
  }

  /** The in-memory `rooms` table and its message handlers. */
  class Registry {
    var rooms: map<string, Room>

    /** Every room's player keys are distinct, and no room is stored under
        a name every object inherits (codes come from `genCode`). */
    ghost predicate Valid()
      reads this
    {
      && (forall code :: code in rooms ==> UniqueIds(rooms[code].players))
      && (forall code :: code in rooms ==> code !in InheritedNames)
    }

    constructor()
      ensures rooms == map[] && Valid()
    {
      rooms := map[];
    }

    /** `createRoom`: `code` is what the random code generator returned;
        a room already stored under it is replaced. */
    method CreateRoom(code: string, sid: string, name: string)
      requires Valid() && GeneratedCode(code)
      modifies this
      ensures Valid()
      ensures rooms == old(rooms)[code := Opened(sid, name)]
      ensures rooms[code].host == Some(sid) && rooms[code].players == [Entry(sid, Fresh(name))]
      ensures rooms[code].maxLevels == 1 && rooms[code].layouts == [] && rooms[code].current == 0
    {
      assert Ids([Entry(sid, Fresh(name))]) == [sid] by {
        assert [Entry(sid, Fresh(name))][1..] == [];
      }
      GeneratedCodeIsOwnKey(code);
      rooms := rooms[code := Opened(sid, name)];
    }

    /** `joinRoom`: a code naming no room is an error and changes nothing;
        a code naming an inherited member (the client sends any string)
        throws; otherwise the joiner is stored fresh at the start, whatever
        the room's state or the name. */
    method JoinRoom(code: string, sid: string, name: string) returns (reply: JoinReply)
      requires Valid()
      modifies this
      ensures Valid()
      ensures reply == Joined <==> code in old(rooms)
      ensures reply == JoinThrows <==> code !in old(rooms) && code in InheritedNames
      ensures reply != Joined ==> rooms == old(rooms)
      ensures reply == Joined ==>
                rooms == old(rooms)[code := old(rooms)[code].(players := Put(old(rooms)[code].players, sid, Fresh(name)))]
    {
      if code !in rooms {
        return if code in InheritedNames then JoinThrows else NoSuchRoom;
      }
      var room := rooms[code];
      PutKeepsUnique(room.players, sid, Fresh(name));
      rooms := rooms[code := room.(players := Put(room.players, sid, Fresh(name)))];
      reply := Joined;
    }

    /** `setView`: only the host of an existing room sets its view. An
        inherited member found under `code` has no `host`, so it changes
        nothing either. */
    method SetView(code: string, sid: string, view: string)
      requires Valid()
      modifies this
      ensures Valid()
      ensures code in old(rooms) && old(rooms)[code].host == Some(sid) ==>
                rooms == old(rooms)[code := old(rooms)[code].(view := Some(view))]
      ensures !(code in old(rooms) && old(rooms)[code].host == Some(sid)) ==> rooms == old(rooms)
    {
      if code in rooms && rooms[code].host == Some(sid) {
        rooms := rooms[code := rooms[code].(view := Some(view))];
      }
    }

    /** `startGame`: only the host of an existing room starts it. The room
        gets `maxLevels` as sent, level 0, one fresh 25-by-25 maze per
        level (`draws(i)` is the shuffle oracle of maze i) and every player
        back at the start with no points. As in `setView`, an inherited
        member found under `code` is not hosted by anyone. A `maxLevels`
        of 2^32 or more makes `Array.from` throw after `maxLevels` and
        `current` are written: the players and layouts stay as they were. */
    method StartGame(code: string, sid: string, maxLevels: int, draws: nat -> (Cell -> Shuffle))
      returns (reply: StartReply)
      requires Valid()
      modifies this
      ensures Valid()
      ensures reply == NotHost <==> !(code in old(rooms) && old(rooms)[code].host == Some(sid))
      ensures reply == StartThrows <==>
                code in old(rooms) && old(rooms)[code].host == Some(sid) && maxLevels >= ArrayLengthLimit
      ensures reply == NotHost ==> rooms == old(rooms)
      ensures reply == StartThrows ==>
                rooms == old(rooms)[code := old(rooms)[code].(maxLevels := maxLevels, current := 0)]
      ensures reply == Started ==>
                && code in rooms
                && rooms == old(rooms)[code := rooms[code]]
                && rooms[code] == old(rooms)[code].(maxLevels := maxLevels, current := 0,
                                                    layouts := rooms[code].layouts,
                                                    players := AllRestarted(old(rooms)[code].players))
                && |rooms[code].layouts| == LayoutCount(maxLevels)
                && forall l :: l in rooms[code].layouts ==> MazeLayout(l, Side, Side)
    {
      if code !in rooms || rooms[code].host != Some(sid) {
        return NotHost;
      }
      var room := rooms[code].(maxLevels := maxLevels, current := 0);
      if maxLevels >= ArrayLengthLimit {
        rooms := rooms[code := room];
        return StartThrows;
      }
      var layouts: seq<seq<Pos>> := [];
      while |layouts| < LayoutCount(maxLevels)
        invariant rooms == old(rooms)
        invariant |layouts| <= LayoutCount(maxLevels)
        invariant forall l :: l in layouts ==> MazeLayout(l, Side, Side)
        decreases LayoutCount(maxLevels) - |layouts|
      {
        var walls := Generate(Side, Side, draws(|layouts|));
        layouts := layouts + [walls];
      }
      var players := ResetForRun(room.players);
      assert UniqueIds(players) by {
        assert Ids(players) == Ids(room.players);
      }
      rooms := rooms[code := room.(layouts := layouts, players := players)];
      reply := Started;
    }

    /** `playerMove`: ignored unless the room exists and the sender plays
        in it, and throws when `rooms[code]` is an inherited member; the
        position is taken as sent, with no wall or bounds check. */
    method PlayerMove(code: string, sid: string, pos: Pos) returns (outcome: MoveOutcome)
      requires Valid()
      modifies this
      ensures Valid()
      ensures code !in old(rooms) && code in InheritedNames ==> rooms == old(rooms) && outcome == MoveThrows
      ensures code !in old(rooms) && code !in InheritedNames ==> rooms == old(rooms) && outcome == Ignored
      ensures code in old(rooms) && Lookup(old(rooms)[code].players, sid).None? ==>
                rooms == old(rooms) && outcome == Ignored
      ensures code in old(rooms) && Lookup(old(rooms)[code].players, sid).Some? ==>
                && rooms == old(rooms)[code := AfterMove(old(rooms)[code], sid, pos)]
                && outcome == MoveReport(old(rooms)[code], sid, pos)
    {
      if code !in rooms {
        return if code in InheritedNames then MoveThrows else Ignored;
      }
      if Lookup(rooms[code].players, sid).None? {
        return Ignored;
      }
      var room := rooms[code];
      var after;
      after, outcome := MoveInRoom(room, sid, pos);
      AfterMoveKeepsUnique(room, sid, pos);
      rooms := rooms[code := after];
    }

    /** The body of `playerMove` once the room and the mover are found:
        store the position, score a goal, and either reset everyone for the
        next level or rank the players. This is the imperative handler code;
        `AfterMove` and `MoveReport` are its specification, and the lemmas
        about them state what a move does. */
    static method MoveInRoom(room: Room, sid: string, pos: Pos) returns (after: Room, outcome: MoveOutcome)
      requires Lookup(room.players, sid).Some?
      ensures after == AfterMove(room, sid, pos)
      ensures outcome == MoveReport(room, sid, pos)
    {
      var mover := Lookup(room.players, sid).value.(pos := pos);
      if !AtGoal(pos) {
        after := room.(players := Put(room.players, sid, mover));
        outcome := Moved;
        assert after == AfterMove(room, sid, pos);
      } else {
        var scored := Put(room.players, sid, mover.(score := mover.score + 1));
        if room.current + 1 < room.maxLevels {
          var players := ResetPositions(scored);
          after := room.(players := players, current := room.current + 1);
          outcome := NextLevel;
          assert after == AfterMove(room, sid, pos);
        } else {
          after := room.(players := scored);
          assert after == AfterMove(room, sid, pos);
          outcome := LevelComplete(Leaderboard(scored));
        }
      }
    }

    /** `kick`: only the host removes, and only a player of the room.
        `kicked` is whether the handler's branch runs (and sends its
        notices): `players[target]` also finds an inherited member, and
        deleting that removes nobody. */
    method Kick(code: string, sid: string, target: string) returns (kicked: bool)
      requires Valid()
      modifies this
      ensures Valid()
      ensures kicked <==> code in old(rooms) && old(rooms)[code].host == Some(sid)
                          && (Lookup(old(rooms)[code].players, target).Some? || target in InheritedNames)
      ensures !kicked ==> rooms == old(rooms)
      ensures kicked ==> rooms == old(rooms)[code := old(rooms)[code].(players := Remove(old(rooms)[code].players, target))]
      ensures code in old(rooms) && Lookup(old(rooms)[code].players, target).None? ==> rooms == old(rooms)
    {
      kicked := code in rooms && rooms[code].host == Some(sid)
                && (Lookup(rooms[code].players, target).Some? || target in InheritedNames);
      if kicked {
        var room := rooms[code];
        RemoveKeepsUnique(room.players, target);
        if Lookup(room.players, target).None? {
          RemoveAbsent(room.players, target);
        }
        rooms := rooms[code := room.(players := Remove(room.players, target))];
      }
    }

    /** `disconnect`: visit every room, in no particular order. */
    method Disconnect(sid: string)
      requires Valid()
      modifies this
      ensures Valid()
      ensures rooms == Disconnected(old(rooms), sid)
    {
      ghost var start := rooms;
      var todo := rooms.Keys;
      while todo != {}
        invariant todo <= start.Keys
        invariant rooms == Swept(start, sid, start.Keys - todo)
        decreases todo
      {
        var code :| code in todo;
        ghost var done := start.Keys - todo;
        SweepStep(start, sid, done, code);
        todo := todo - {code};
        assert start.Keys - todo == done + {code};
        var room := rooms[code];
        if Lookup(room.players, sid).Some? {
          var players := Remove(room.players, sid);
          var host := room.host;
          if host == Some(sid) {
            host := FirstOrNull(Ids(players));
          }
          if players == [] {
            rooms := rooms - {code};
          } else {
            assert room.(players := players, host := host) == Departed(start[code], sid);
            rooms := rooms[code := room.(players := players, host := host)];
          }
        }
      }
      assert start.Keys - todo == start.Keys;
      assert rooms == Disconnected(start, sid);
      DisconnectedKeepsUnique(start, sid);
    }
  }
}
