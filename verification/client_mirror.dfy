/**
  The browser side of the maze game (game/maze/script.js): the page keeps
  its own copy of the player table, the current level and the layouts, and
  updates them on server messages and when play starts.
*/
module ClientMirror {
  import opened Maze
  import opened Players

  /** The key and name of the only player of a solo game. */
  const SoloId := "me"
  const SoloName := "You"

  /** The module-level game state of one page. */
  class Client {
    var solo: bool
    var players: Roster
    var currentLv: int
    var layouts: seq<seq<Pos>>

    /** The state the page starts with: no players, level 0, no layouts. */
    constructor(solo: bool)
      ensures this.solo == solo && players == [] && currentLv == 0 && layouts == []
    {
      this.solo := solo;
      players := [];
      currentLv := 0;
      layouts := [];
    }

    /** `resetPositions`: every player to the start cell, nothing else
        touched. */
    method ResetPositions()
      modifies this
      ensures players == AllAtOrigin(old(players))
      ensures solo == old(solo) && currentLv == old(currentLv) && layouts == old(layouts)
    {
      players := Players.ResetPositions(players);
    }

    /** The `gameStarted` message: take the server's table, go to level 0
        and reset the positions. */
    method OnGameStarted(snapshot: Roster)
      modifies this
      ensures players == AllAtOrigin(snapshot) && currentLv == 0
      ensures solo == old(solo) && layouts == old(layouts)
    {
      players := snapshot;
      currentLv := 0;
      ResetPositions();
    }

    /** The `nextLevel` message: one level on, positions reset. */
    method OnNextLevel()
      modifies this
      ensures currentLv == old(currentLv) + 1
      ensures players == AllAtOrigin(old(players))
      ensures solo == old(solo) && layouts == old(layouts)
    {
      currentLv := currentLv + 1;
      ResetPositions();
    }

    /** `startPlay`: a solo game builds its one 25-by-25 maze (`order` is
        the shuffle oracle) and its one player; any game then starts at
        level 0 with the positions reset. */
    method StartPlay(order: Cell -> Shuffle)
      modifies this
      ensures currentLv == 0 && solo == old(solo)
      ensures solo ==> |layouts| == 1 && MazeLayout(layouts[0], 25, 25)
      ensures solo ==> players == [Entry(SoloId, Player(SoloName, Origin, 0))]
      ensures !solo ==> layouts == old(layouts) && players == AllAtOrigin(old(players))
    {
      if solo {
        var walls := Generate(25, 25, order);
        layouts := [walls];
        players := [Entry(SoloId, Player(SoloName, Origin, 0))];
      }
      currentLv := 0;
      ResetPositions();
      if solo {
        assert players == [Entry(SoloId, Player(SoloName, Origin, 0))] by {
          AllAtOriginIndex([Entry(SoloId, Player(SoloName, Origin, 0))]);
        }
      }
    }
  }
}
