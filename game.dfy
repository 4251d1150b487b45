/** The game as the program holds it: player objects whose fields change in
    place, and a game object that owns the board, the two players, the turn
    counter and the winner. Every operation is proved to leave the game in
    the state that the matching function of `MazeRules` describes. */
module MazeGame {
  import opened MazeBoard
  import opened MazeRules

  class Player {
    const name: string
    var position: Cell
    var checkpoint: Cell
    var memoryTokens: int
    var trapCount: int
    var active: bool

    constructor (name: string, pos: Cell)
      ensures Snapshot() == NewPlayer(name, pos)
    {
      this.name := name;
      position, checkpoint := pos, pos;
      memoryTokens := START_TOKENS;
      trapCount := 0;
      active := true;
    }

    function Snapshot(): PlayerState
      reads this
    {
      PlayerState(name, position, checkpoint, memoryTokens, trapCount, active)
    }
  }

  class Game {
    var board: Board
    var players: seq<Player>
    var turn: nat
    var winner: Player?

    ghost predicate Valid()
      reads this
    {
      WellFormed(board) && |players| == 2 && players[0] != players[1]
      && (winner == null || winner == players[0] || winner == players[1])
    }

    function Snapshots(): seq<PlayerState>
      reads this, players
      requires |players| == 2
    {
      [players[0].Snapshot(), players[1].Snapshot()]
    }

    function WinnerIndex(): Option<nat>
      reads this
      requires |players| == 2
    {
      if winner == null then None
      else if winner == players[0] then Some(0)
      else Some(1)
    }

    /** The whole game as a value. */
    ghost function State(): GameState
      reads this, players
      requires Valid()
    {
      GameState(board, Snapshots(), turn, WinnerIndex())
    }

    constructor (picks: seq<Cell>)
      requires AllInBounds(picks) && NewGame(picks).Some?
      ensures Valid() && State() == NewGame(picks).value
    {
      new;
      Init(picks);
    }

    /** A fresh board and fresh players, then the traps and bonuses. */
    method Init(picks: seq<Cell>)
      requires AllInBounds(picks) && NewGame(picks).Some?
      modifies this
      ensures Valid() && fresh(players[0]) && fresh(players[1])
      ensures State() == NewGame(picks).value
    {
      board := seq(BOARD_SIZE, _ => seq(BOARD_SIZE, _ => Tile(Path, false, false)));
      var first := new Player("Player 1", Cell(0, 0));
      var second := new Player("Player 2", Cell(BOARD_SIZE - 1, BOARD_SIZE - 1));
      players := [first, second];
      board := Update(board, GOAL, At(board, GOAL).(kind := Goal));
      assert board == FreshBoard();
      turn := 0;
      winner := null;
      var _ := PlaceItems(picks);
    }

    /** A new game in place of the current one. */
    method Reset(picks: seq<Cell>)
      requires AllInBounds(picks) && NewGame(picks).Some?
      modifies this
      ensures Valid() && fresh(players[0]) && fresh(players[1])
      ensures State() == NewGame(picks).value
    {
      Init(picks);
    }

    method PlaceItems(picks: seq<Cell>) returns (used: nat)
      requires Valid() && AllInBounds(picks) && MazeBoard.PlaceItems(board, picks).Some?
      modifies this
      ensures Valid() && players == old(players) && turn == old(turn) && winner == old(winner)
      ensures board == MazeBoard.PlaceItems(old(board), picks).value.board
      ensures used == MazeBoard.PlaceItems(old(board), picks).value.used
    {
      used := PlaceItemsType(Trap, NUM_TRAPS, picks);
      SuffixInBounds(picks, used);
      var more := PlaceItemsType(Bonus, NUM_BONUSES, picks[used..]);
      used := used + more;
    }

    /** Rejection sampling: each pick is taken when it is a path tile other
        than the goal, until `count` items are placed. */
    method PlaceItemsType(kind: Kind, count: nat, picks: seq<Cell>) returns (used: nat)
      requires Valid() && AllInBounds(picks) && MazeBoard.PlaceItemsType(board, kind, count, picks).Some?
      modifies this
      ensures Valid() && players == old(players) && turn == old(turn) && winner == old(winner)
      ensures board == MazeBoard.PlaceItemsType(old(board), kind, count, picks).value.board
      ensures used == MazeBoard.PlaceItemsType(old(board), kind, count, picks).value.used
    {
      ghost var goal := MazeBoard.PlaceItemsType(board, kind, count, picks).value;
      var placed := 0;
      used := 0;
      while placed < count
        invariant 0 <= placed <= count && used <= |picks|
        invariant Valid() && players == old(players) && turn == old(turn) && winner == old(winner)
        invariant AllInBounds(picks[used..])
        invariant MazeBoard.PlaceItemsType(board, kind, count - placed, picks[used..]).Some?
        invariant var rest := MazeBoard.PlaceItemsType(board, kind, count - placed, picks[used..]).value;
          rest.board == goal.board && rest.used + used == goal.used
        decreases |picks| - used
      {
        var p := picks[used];
        assert picks[used..][1..] == picks[used + 1..];
        used := used + 1;
        if At(board, p).kind == Path && p != GOAL {
          board := Update(board, p, At(board, p).(kind := kind));
          placed := placed + 1;
        }
      }
    }

    /** Ends every temporary reveal. */
    method ClearTempTiles()
      requires Valid()
      modifies this`board
      ensures Valid() && board == ClearTemp(old(board))
    {
      var i := 0;
      while i < BOARD_SIZE
        invariant 0 <= i <= BOARD_SIZE
        invariant Valid()
        invariant forall c :: InBounds(c) ==>
          At(board, c) == if c.row < i then At(old(board), c).(tempReveal := false) else At(old(board), c)
      {
        var j := 0;
        while j < BOARD_SIZE
          invariant 0 <= j <= BOARD_SIZE
          invariant Valid()
          invariant forall c :: InBounds(c) ==>
            At(board, c) ==
              if c.row < i || (c.row == i && c.col < j) then At(old(board), c).(tempReveal := false)
              else At(old(board), c)
        {
          board := Update(board, Cell(i, j), At(board, Cell(i, j)).(tempReveal := false));
          j := j + 1;
        }
        i := i + 1;
      }
      BoardsEqual(board, ClearTemp(old(board)));
    }

    /** Declares the last active player the winner. */
    method CheckGameOver()
      requires Valid()
      modifies this`winner
      ensures Valid()
      ensures State() == MazeRules.CheckGameOver(old(State()))
    {
      var active := ActiveIndices(Snapshots());
      if |active| == 1 {
        winner := players[active[0]];
      }
    }

    /** The effect of the revealed tile at `target` on player `i`: a trap
        hit (possibly eliminating it), a bonus, or a plain step with the
        checkpoint rule. This is the middle of `Move`. */
    method StepOnto(i: nat, target: Cell)
      requires Valid() && i < |players| && InBounds(target)
      modifies players[i], this`winner
      ensures Valid() && players == old(players)
      ensures State() == Resolve(old(State()), i, target)
    {
      var current := players[i];
      var kind := At(board, target).kind;
      if kind == Trap {
        current.trapCount := current.trapCount + 1;
        if current.trapCount >= MAX_TRAPS {
          current.active := false;
          winner := players[(turn + 1) % |players|];
        } else {
          current.position := current.checkpoint;
        }
      } else if kind == Bonus {
        current.memoryTokens := current.memoryTokens + 1;
        current.position := target;
        current.checkpoint := current.position;
      } else {
        current.position := target;
        var steps := Abs(current.position.row - current.checkpoint.row)
                   + Abs(current.position.col - current.checkpoint.col);
        if steps % CHECKPOINT_INTERVAL == 0 {
          current.checkpoint := current.position;
        }
      }
    }

    /** One move of the acting player by (dx, dy). */
    method Move(dx: int, dy: int)
      requires Valid()
      modifies this, players
      ensures Valid() && players == old(players)
      ensures State() == MazeRules.Move(old(State()), dx, dy)
    {
      ghost var s := State();
      var i := turn % |players|;
      var current := players[i];
      if !current.active || winner != null {
        return;
      }
      var nx, ny := current.position.row + dx, current.position.col + dy;
      if 0 <= nx < BOARD_SIZE && 0 <= ny < BOARD_SIZE {
        var target := Cell(nx, ny);
        assert i == Current(s) && target == Target(s.players[i], dx, dy);
        board := Update(board, target, At(board, target).(revealed := true));
        assert State() == RevealTarget(s, target);
        StepOnto(i, target);
        if target == GOAL {
          winner := current;
        }
        ghost var arrived := State();
        assert arrived == ClaimGoal(Resolve(RevealTarget(s, target), i, target), i, target);
        assert MazeRules.Move(s, dx, dy) == EndTurn(arrived);
        ClearTempTiles();
        turn := turn + 1;
        assert State() == arrived.(board := ClearTemp(arrived.board), turn := arrived.turn + 1);
        CheckGameOver();
        assert State() == EndTurn(arrived);
      }
    }

    /** Spends a memory token of the acting player on the 3×3 block around it. */
    method UseToken()
      requires Valid()
      modifies this, players
      ensures Valid() && players == old(players)
      ensures State() == MazeRules.UseToken(old(State()))
    {
      var current := players[turn % |players|];
      if current.memoryTokens <= 0 || !current.active {
        return;
      }
      var x, y := current.position.row, current.position.col;
      ghost var center := current.position;
      ghost var before := board;
      for dx := -1 to 2
        modifies this`board
        invariant Valid() && RevealedUpTo(board, before, center, dx, -1)
      {
        for dy := -1 to 2
          modifies this`board
          invariant Valid() && RevealedUpTo(board, before, center, dx, dy)
        {
          var nx, ny := x + dx, y + dy;
          RevealStep(board, before, center, dx, dy);
          if 0 <= nx < BOARD_SIZE && 0 <= ny < BOARD_SIZE {
            board := Update(board, Cell(nx, ny), At(board, Cell(nx, ny)).(tempReveal := true));
          }
        }
        RevealRowDone(board, before, center, dx);
      }
      RevealBlockDone(board, before, center);
      current.memoryTokens := current.memoryTokens - 1;
    }
  }

  // ---------------------------------------------------------------------
  // The token loops visit the offsets (dx, dy) of the 3×3 block row by row.

  /** Cell `c` of the block around `center` is visited before offset (dx, dy). */
  predicate Visited(center: Cell, c: Cell, dx: int, dy: int) {
    Near(center, c)
    && (c.row - center.row < dx || (c.row - center.row == dx && c.col - center.col < dy))
  }

  /** `b` is `b0` with every on-board cell visited before (dx, dy) temporarily revealed. */
  ghost predicate RevealedUpTo(b: Board, b0: Board, center: Cell, dx: int, dy: int) {
    WellFormed(b) && WellFormed(b0)
    && forall c :: InBounds(c) ==>
         At(b, c) == if Visited(center, c, dx, dy) then At(b0, c).(tempReveal := true) else At(b0, c)
  }

  lemma RevealStep(b: Board, b0: Board, center: Cell, dx: int, dy: int)
    requires RevealedUpTo(b, b0, center, dx, dy) && -1 <= dx <= 1 && -1 <= dy <= 1
    ensures var t := Cell(center.row + dx, center.col + dy);
      RevealedUpTo(if InBounds(t) then Update(b, t, At(b, t).(tempReveal := true)) else b, b0, center, dx, dy + 1)
  {
  }

  lemma RevealRowDone(b: Board, b0: Board, center: Cell, dx: int)
    requires RevealedUpTo(b, b0, center, dx, 2)
    ensures RevealedUpTo(b, b0, center, dx + 1, -1)
  {
    forall c | InBounds(c) ensures Visited(center, c, dx, 2) == Visited(center, c, dx + 1, -1) {
    }
  }

  lemma RevealBlockDone(b: Board, b0: Board, center: Cell)
    requires RevealedUpTo(b, b0, center, 2, -1)
    ensures b == RevealAround(b0, center)
  {
    BoardsEqual(b, RevealAround(b0, center));
  }
}
