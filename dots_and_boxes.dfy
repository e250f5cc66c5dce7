/**
 * `DotsAndBoxes::Game`: the line game's state as an object whose methods
 * update its fields in place, as the game's handlers do each frame. Each
 * method is proved to agree with the value-level rules of
 * DotsAndBoxesRules and to keep their invariant `Inv`.
 */
module DotsAndBoxes {
  import opened Siv3D
  import opened DotsAndBoxesRules

  /** get_max_players: a game starts when the room holds this many players. */
  const MaxPlayers: nat := 2

  /** get_game_id: the tag the lobby uses for rooms of this game. */
  const GameId: string := "DotsAndBoxes"

  /**
   * The calls the game makes on the online session: the room's host flag,
   * its open and visible switches, and the events sent to the other player.
   */
  class OnlineManager {
    var isHost: bool
    var roomOpen: bool
    var roomVisible: bool
    var sentEvents: seq<(uint8, Operation)>

    constructor (isHost: bool)
      ensures this.isHost == isHost && roomOpen && roomVisible && sentEvents == []
    {
      this.isHost := isHost;
      roomOpen := true;
      roomVisible := true;
      sentEvents := [];
    }

    method SetRoomOpen(open: bool)
      modifies this
      ensures roomOpen == open
      ensures isHost == old(isHost) && roomVisible == old(roomVisible) && sentEvents == old(sentEvents)
    {
      roomOpen := open;
    }

    method SetRoomVisible(visible: bool)
      modifies this
      ensures roomVisible == visible
      ensures isHost == old(isHost) && roomOpen == old(roomOpen) && sentEvents == old(sentEvents)
    {
      roomVisible := visible;
    }

    method SendGameEvent(code: uint8, op: Operation)
      modifies this
      ensures sentEvents == old(sentEvents) + [(code, op)]
      ensures isHost == old(isHost) && roomOpen == old(roomOpen) && roomVisible == old(roomVisible)
    {
      sentEvents := sentEvents + [(code, op)];
    }
  }

  class Game {
    var network: OnlineManager?
    var horizontalLines: Grid<LineColor>
    var verticalLines: Grid<LineColor>
    var boxOwners: Grid<LineColor>
    var gridSize: Size
    var scores: map<LineColor, int>
    var playerColor: LineColor
    var isStarted: bool
    var isTurn: bool
    var isFinished: bool
    var winner: Optional<LineColor>

    /** The game's fields as one value. */
    function Snapshot(): State
      reads this
    {
      State(gridSize, horizontalLines, verticalLines, boxOwners, scores, playerColor,
            isStarted, isTurn, isFinished, winner)
    }

    ghost predicate Valid()
      reads this
    {
      Inv(Snapshot())
    }

    /** The room's switches and outbox are as they were. */
    twostate predicate RoomUnchanged()
      reads this, network
    {
      network == old(network) &&
      (network != null ==>
         && network.isHost == old(network.isHost) && network.roomOpen == old(network.roomOpen)
         && network.roomVisible == old(network.roomVisible) && network.sentEvents == old(network.sentEvents))
    }

    /**
     * The room switches after a move: the same room and host flag, and the
     * room is closed and hidden exactly when a hosting player's game has
     * just ended; otherwise its switches are as they were.
     */
    twostate predicate SwitchesOnFinish()
      reads this, network
    {
      network == old(network) &&
      (network != null ==>
         && network.isHost == old(network.isHost)
         && if network.isHost && !old(isFinished) && isFinished
            then !network.roomOpen && !network.roomVisible
            else network.roomOpen == old(network.roomOpen) && network.roomVisible == old(network.roomVisible))
    }

    /** The room effect of a move: SwitchesOnFinish, and nothing is sent. */
    twostate predicate RoomClosedOnFinish()
      reads this, network
    {
      SwitchesOnFinish() && (network != null ==> network.sentEvents == old(network.sentEvents))
    }

    /** A new game object: no board, no colour, not started, on a 6 x 4 board size. */
    constructor ()
      ensures Valid() && network == null && gridSize == Size(6, 4)
      ensures horizontalLines == Cleared() && verticalLines == Cleared() && boxOwners == Cleared()
      ensures scores == map[] && playerColor == None
      ensures !isStarted && !isTurn && !isFinished && winner == Nothing
    {
      network := null;
      horizontalLines, verticalLines, boxOwners := Cleared(), Cleared(), Cleared();
      gridSize := Size(6, 4);
      scores := map[];
      playerColor := None;
      isStarted, isTurn, isFinished := false, false, false;
      winner := Nothing;
    }

    method SetNetwork(network: OnlineManager?)
      modifies this
      ensures this.network == network && Snapshot() == old(Snapshot())
    {
      this.network := network;
    }

    /**
     * Starts a game on a board of `size` cells with the local colour
     * `color`: every edge and box empty, both scores zero, running and
     * unfinished with no winner, and the local turn exactly when the local
     * colour is Red.
     */
    method Initialize(size: Size, color: LineColor)
      requires scores.Keys <= {Red, Blue}
      modifies this
      ensures Valid() && network == old(network) && gridSize == size
      ensures horizontalLines == Filled(size.x, size.y + 1, None)
      ensures verticalLines == Filled(size.x + 1, size.y, None)
      ensures boxOwners == Filled(size.x, size.y, None)
      ensures scores == map[Red := 0, Blue := 0]
      ensures playerColor == color && (isTurn <==> color == Red)
      ensures isStarted && !isFinished && winner == Nothing
    {
      ZeroedScores(scores);
      gridSize := size;
      horizontalLines, verticalLines, boxOwners :=
        Filled(size.x, size.y + 1, None), Filled(size.x + 1, size.y, None), Filled(size.x, size.y, None);
      scores := scores[Red := 0][Blue := 0];
      playerColor, isTurn := color, color == Red;
      isStarted, isFinished, winner := true, false, Nothing;
      EmptyBoardInv(Snapshot());
    }

    /** Empties the board and the scores and forgets the colour, the flags and the winner. */
    method Reset()
      modifies this
      ensures Valid() && network == old(network) && gridSize == old(gridSize)
      ensures horizontalLines == Cleared() && verticalLines == Cleared() && boxOwners == Cleared()
      ensures scores == map[] && playerColor == None
      ensures !isStarted && !isTurn && !isFinished && winner == Nothing
    {
      horizontalLines, verticalLines, boxOwners := Cleared(), Cleared(), Cleared();
      scores := map[];
      playerColor := None;
      isStarted, isTurn, isFinished := false, false, false;
      winner := Nothing;
    }

    /**
     * The room is full: the host plays Red and moves first, the other
     * player Blue; the host also hides the room.
     */
    method OnGameStart(playerCount: nat, isHost: bool)
      requires Valid() && playerCount == MaxPlayers
      modifies this, network
      ensures Valid() && network == old(network) && gridSize == old(gridSize)
      ensures playerColor == (if isHost then Red else Blue) && isTurn == isHost
      ensures isStarted && !isFinished && winner == Nothing && scores == map[Red := 0, Blue := 0]
      ensures boxOwners == Filled(gridSize.x, gridSize.y, None)
      ensures horizontalLines == Filled(gridSize.x, gridSize.y + 1, None)
      ensures verticalLines == Filled(gridSize.x + 1, gridSize.y, None)
      ensures network != null ==>
        && network.isHost == old(network.isHost) && network.roomOpen == old(network.roomOpen)
        && network.sentEvents == old(network.sentEvents)
        && network.roomVisible == (if isHost then false else old(network.roomVisible))
    {
      Initialize(gridSize, if isHost then Red else Blue);
      if isHost && network != null {
        network.SetRoomVisible(false);
      }
    }

    /** The other player left: a finished game keeps its result, any other game is reset. */
    method OnPlayerLeft(playerId: nat)
      requires Valid()
      modifies this
      ensures Valid() && network == old(network) && gridSize == old(gridSize)
      ensures old(isFinished) ==> Snapshot() == old(Snapshot())
      ensures !old(isFinished) ==>
        && horizontalLines == Cleared() && verticalLines == Cleared() && boxOwners == Cleared()
        && scores == map[] && playerColor == None
        && !isStarted && !isTurn && !isFinished && winner == Nothing
    {
      if isFinished {
        return;
      }
      Reset();
    }

    /** This player left the room: always reset. */
    method OnLeaveRoom()
      modifies this
      ensures Valid() && network == old(network) && gridSize == old(gridSize)
      ensures horizontalLines == Cleared() && verticalLines == Cleared() && boxOwners == Cleared()
      ensures scores == map[] && playerColor == None
      ensures !isStarted && !isTurn && !isFinished && winner == Nothing
    {
      Reset();
    }

    /** An event from the other player: an operation under code 42 is applied, any other code ignored. */
    method OnEventReceived(playerId: nat, eventCode: uint8, op: Operation)
      requires Valid()
      modifies this, network
      ensures Valid() && network == old(network)
      ensures eventCode == OperationCode ==> Snapshot() == DotsAndBoxesRules.Operate(old(Snapshot()), op)
      ensures eventCode == OperationCode ==> RoomClosedOnFinish()
      ensures eventCode != OperationCode ==> Snapshot() == old(Snapshot()) && RoomUnchanged()
    {
      if eventCode == OperationCode {
        Operate(op);
      }
    }

    /**
     * The local player's move this frame, given the set of edges whose
     * line was clicked: see IsProposal.
     */
    method GetOperation(clicked: set<Edge>) returns (r: Optional<Operation>)
      requires Valid()
      ensures IsProposal(Snapshot(), clicked, r)
    {
      if !(isStarted && isTurn && !isFinished) {
        return Nothing;
      }
      var y := 0;
      while y < gridSize.y + 1
        invariant 0 <= y <= gridSize.y + 1
        invariant forall e | e in clicked && e.dir == Top && FreeEdge(Snapshot(), e.dir, e.pos) :: e.pos.y >= y
      {
        var x := 0;
        while x < gridSize.x
          invariant 0 <= x <= gridSize.x
          invariant forall e | e in clicked && e.dir == Top && FreeEdge(Snapshot(), e.dir, e.pos) ::
                      e.pos.y > y || (e.pos.y == y && e.pos.x >= x)
        {
          if horizontalLines.At(y, x) == None {
            if Edge(Top, Point(x, y)) in clicked {
              return Some(Operation(Point(x, y), Top, playerColor));
            }
          }
          x := x + 1;
        }
        y := y + 1;
      }
      y := 0;
      while y < gridSize.y
        invariant 0 <= y <= gridSize.y
        invariant forall e | e in clicked :: !FreeEdge(Snapshot(), e.dir, e.pos) || (e.dir == Left && e.pos.y >= y)
      {
        var x := 0;
        while x < gridSize.x + 1
          invariant 0 <= x <= gridSize.x + 1
          invariant forall e | e in clicked :: !FreeEdge(Snapshot(), e.dir, e.pos) ||
                      (e.dir == Left && (e.pos.y > y || (e.pos.y == y && e.pos.x >= x)))
        {
          if verticalLines.At(y, x) == None {
            if Edge(Left, Point(x, y)) in clicked {
              return Some(Operation(Point(x, y), Left, playerColor));
            }
          }
          x := x + 1;
        }
        y := y + 1;
      }
      return Nothing;
    }

    /**
     * operate_: applies one operation in place, agreeing with the rules'
     * Operate; when it ends the game and this player hosts, the room is
     * closed and hidden.
     */
    method Operate(op: Operation)
      requires Valid()
      modifies this, network
      ensures Valid() && RoomClosedOnFinish()
      ensures Snapshot() == DotsAndBoxesRules.Operate(old(Snapshot()), op)
    {
      if !isStarted || isFinished {
        return;
      }
      var drawn := DrawEdge(op);
      if !drawn {
        return;
      }
      ClaimBoxesAndPassTurn(op.lineColor);
      CalcResult();
      OperatePreservesInv(old(Snapshot()), op);
    }

    /**
     * The edge step of operate_: when the operation's edge lies inside its
     * grid and is still undrawn it takes the operation's colour and `drawn`
     * is true; otherwise nothing changes.
     */
    method DrawEdge(op: Operation) returns (drawn: bool)
      requires horizontalLines.Valid() && verticalLines.Valid()
      modifies this`horizontalLines, this`verticalLines
      ensures drawn == FreeEdge(old(Snapshot()), op.dir, op.pos)
      ensures Snapshot() == if drawn then Drawn(old(Snapshot()), op) else old(Snapshot())
    {
      if op.dir == Top {
        if !horizontalLines.InBounds(op.pos) {
          return false;
        }
        if horizontalLines.At(op.pos.y, op.pos.x) != None {
          return false;
        }
        horizontalLines := horizontalLines.Updated(op.pos.y, op.pos.x, op.lineColor);
      } else {
        if !verticalLines.InBounds(op.pos) {
          return false;
        }
        if verticalLines.At(op.pos.y, op.pos.x) != None {
          return false;
        }
        verticalLines := verticalLines.Updated(op.pos.y, op.pos.x, op.lineColor);
      }
      return true;
    }

    /**
     * The middle of operate_: the box scan, then the turn passes to the
     * other player unless a box was completed.
     */
    method ClaimBoxesAndPassTurn(color: LineColor)
      requires LinesShaped(gridSize, horizontalLines, verticalLines) && BoxesShaped(gridSize, boxOwners)
      modifies this`boxOwners, this`scores, this`isTurn
      ensures Snapshot() == Scored(old(Snapshot()), color)
    {
      var owners, credited, boxCompleted := ScanBoxes(color);
      boxOwners, scores := owners, credited;
      if !boxCompleted {
        isTurn := !isTurn;
      }
    }

    /**
     * The box scan of operate_: every unowned box whose four edges are
     * drawn goes to `color`, one point each. Returns the new box owners and
     * scores, and whether any box was taken.
     */
    method ScanBoxes(color: LineColor) returns (owners: Grid<LineColor>, credited: map<LineColor, int>, boxCompleted: bool)
      requires LinesShaped(gridSize, horizontalLines, verticalLines) && BoxesShaped(gridSize, boxOwners)
      ensures owners == Claimed(gridSize, horizontalLines, verticalLines, boxOwners, color)
      ensures var k := ClaimCount(gridSize, horizontalLines, verticalLines, boxOwners);
        credited == Credit(scores, color, k) && (boxCompleted <==> k > 0)
    {
      boxCompleted := false;
      owners, credited := boxOwners, scores;
      ghost var claimed: nat := 0;
      ClaimedPrefixStart(gridSize, horizontalLines, verticalLines, boxOwners, color);
      var y := 0;
      while y < gridSize.y
        invariant 0 <= y <= gridSize.y
        invariant owners == ClaimedPrefix(gridSize, horizontalLines, verticalLines, boxOwners, color, y, 0)
        invariant claimed == ClaimCountUpTo(gridSize, horizontalLines, verticalLines, boxOwners, y)
        invariant credited == Credit(scores, color, claimed) && (boxCompleted <==> claimed > 0)
      {
        owners, credited, boxCompleted, claimed := ScanRow(color, y, owners, credited, boxCompleted, claimed);
        y := y + 1;
      }
    }

    /** One row y of the scan of operate_, carrying the box grid, the scores and the flag along. */
    method ScanRow(color: LineColor, y: nat, owners0: Grid<LineColor>, credited0: map<LineColor, int>,
                   boxCompleted0: bool, ghost claimed0: nat)
      returns (owners: Grid<LineColor>, credited: map<LineColor, int>, boxCompleted: bool, ghost claimed: nat)
      requires LinesShaped(gridSize, horizontalLines, verticalLines) && BoxesShaped(gridSize, boxOwners)
      requires y < gridSize.y
      requires owners0 == ClaimedPrefix(gridSize, horizontalLines, verticalLines, boxOwners, color, y, 0)
      requires credited0 == Credit(scores, color, claimed0) && (boxCompleted0 <==> claimed0 > 0)
      ensures owners == ClaimedPrefix(gridSize, horizontalLines, verticalLines, boxOwners, color, y + 1, 0)
      ensures claimed == claimed0 + ClaimRowCount(gridSize, horizontalLines, verticalLines, boxOwners, y, gridSize.x)
      ensures credited == Credit(scores, color, claimed) && (boxCompleted <==> claimed > 0)
    {
      var size, horizontal, vertical := gridSize, horizontalLines, verticalLines;
      ghost var boxes0, scores0 := boxOwners, scores;
      owners, credited, boxCompleted, claimed := owners0, credited0, boxCompleted0, claimed0;
      var x := 0;
      while x < size.x
        invariant 0 <= x <= size.x
        invariant owners == ClaimedPrefix(size, horizontal, vertical, boxes0, color, y, x)
        invariant claimed == claimed0 + ClaimRowCount(size, horizontal, vertical, boxes0, y, x)
        invariant credited == Credit(scores0, color, claimed) && (boxCompleted <==> claimed > 0)
      {
        if owners.At(y, x) == None {
          if && horizontal.At(y, x) != None && horizontal.At(y + 1, x) != None
             && vertical.At(y, x) != None && vertical.At(y, x + 1) != None
          {
            ScanClaim(size, horizontal, vertical, boxes0, scores0, color, y, x, owners, credited, claimed);
            owners := owners.Updated(y, x, color);
            credited := credited[color := ScoreOf(credited, color) + 1];
            boxCompleted := true;
            claimed := claimed + 1;
          } else {
            ScanSkip(size, horizontal, vertical, boxes0, color, y, x, owners);
          }
        } else {
          ScanSkip(size, horizontal, vertical, boxes0, color, y, x, owners);
        }
        x := x + 1;
      }
      ClaimedPrefixNextRow(size, horizontal, vertical, boxes0, color, y);
    }

    /**
     * calc_result_: when the scores add up to the number of boxes the game
     * ends with the higher scorer (None on a tie) as winner, and a hosting
     * player closes and hides the room.
     */
    method CalcResult()
      requires Red in scores && Blue in scores
      modifies this, network
      ensures network == old(network)
      ensures Snapshot() == DotsAndBoxesRules.CalcResult(old(Snapshot()))
      ensures isFinished <==> old(isFinished) || scores[Red] + scores[Blue] == gridSize.Area()
      ensures network != null ==>
        && network.isHost == old(network.isHost) && network.sentEvents == old(network.sentEvents)
        && if network.isHost && scores[Red] + scores[Blue] == gridSize.Area()
           then !network.roomOpen && !network.roomVisible
           else network.roomOpen == old(network.roomOpen) && network.roomVisible == old(network.roomVisible)
    {
      if scores[Red] + scores[Blue] == gridSize.Area() {
        isFinished := true;
        if scores[Red] > scores[Blue] {
          winner := Some(Red);
        } else if scores[Red] < scores[Blue] {
          winner := Some(Blue);
        } else {
          winner := Some(None);
        }
        if network != null && network.isHost {
          network.SetRoomOpen(false);
          network.SetRoomVisible(false);
        }
      }
    }

    /**
     * One frame: if this player proposes an operation, it is sent to the
     * other player under code 42 and then applied here.
     */
    method Update(clicked: set<Edge>) returns (ghost proposed: Optional<Operation>)
      requires Valid()
      modifies this, network
      ensures Valid() && network == old(network)
      ensures IsProposal(old(Snapshot()), clicked, proposed)
      ensures proposed == Nothing ==> Snapshot() == old(Snapshot()) && RoomUnchanged()
      ensures proposed.Some? ==> Snapshot() == DotsAndBoxesRules.Operate(old(Snapshot()), proposed.value)
      ensures proposed.Some? ==> SwitchesOnFinish()
      ensures proposed.Some? && network != null ==>
        network.sentEvents == old(network.sentEvents) + [(OperationCode, proposed.value)]
    {
      var op := GetOperation(clicked);
      proposed := op;
      if op.Some? {
        if network != null {
          network.SendGameEvent(OperationCode, op.value);
        }
        Operate(op.value);
      }
    }
  }
}
