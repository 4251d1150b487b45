/** What the Memory Maze rules guarantee: the effect of each kind of move,
    the effect of a memory token, the shape of a new board, and invariants
    kept along any sequence of player intents. */
module MazeProperties {
  import opened MazeBoard
  import opened MazeRules

  // ---------------------------------------------------------------------
  // One move

  /** An inactive acting player, or a decided game, makes `move` a no-op. */
  lemma MoveBlocked(s: GameState, dx: int, dy: int)
    requires WellShaped(s)
    requires !s.players[Current(s)].active || s.winner.Some?
    ensures Move(s, dx, dy) == s
  {
  }

  /** A target off the board is refused; in particular the turn does not advance. */
  lemma MoveOffBoard(s: GameState, dx: int, dy: int)
    requires WellShaped(s)
    requires !InBounds(Target(s.players[Current(s)], dx, dy))
    ensures Move(s, dx, dy) == s
  {
  }

  /** The winner after an accepted move that did not end on the goal and did
      not eliminate the mover: unchanged while the opponent is active,
      otherwise the mover, as the only active player. */
  function WinnerAfterPlainMove(s: GameState): Option<nat>
    requires WellShaped(s)
  {
    if s.players[1 - Current(s)].active then s.winner else Some(Current(s))
  }

  /** Stepping on a trap costs one hit. At `MAX_TRAPS` hits the mover is
      eliminated where it stands and the opponent wins; below that the mover
      is sent back to its checkpoint. The opponent is untouched. */
  lemma MoveOntoTrap(s: GameState, dx: int, dy: int)
    requires WellShaped(s) && Accepted(s, dx, dy)
    requires At(s.board, GOAL).kind == Goal
    requires At(s.board, Target(s.players[Current(s)], dx, dy)).kind == Trap
    ensures var i := Current(s);
      var p, r := s.players[i], Move(s, dx, dy);
      var q := r.players[i];
      r.players[1 - i] == s.players[1 - i]
      && (p.trapCount + 1 >= MAX_TRAPS ==>
            q == p.(trapCount := p.trapCount + 1, active := false) && r.winner == Some(1 - i))
      && (p.trapCount + 1 < MAX_TRAPS ==>
            q == p.(trapCount := p.trapCount + 1, position := p.checkpoint) && r.winner == WinnerAfterPlainMove(s))
  {
    var i := Current(s);
    var target := Target(s.players[i], dx, dy);
    assert target != GOAL;
  }

  /** A bonus gives one token and makes the bonus cell both the position and
      the checkpoint. */
  lemma MoveOntoBonus(s: GameState, dx: int, dy: int)
    requires WellShaped(s) && Accepted(s, dx, dy)
    requires At(s.board, GOAL).kind == Goal
    requires At(s.board, Target(s.players[Current(s)], dx, dy)).kind == Bonus
    ensures var i := Current(s);
      var p, r := s.players[i], Move(s, dx, dy);
      var q := r.players[i];
      var target := Target(p, dx, dy);
      q == p.(memoryTokens := p.memoryTokens + 1, position := target, checkpoint := target)
      && r.players[1 - i] == s.players[1 - i]
      && r.winner == WinnerAfterPlainMove(s)
  {
    var i := Current(s);
    var target := Target(s.players[i], dx, dy);
    assert target != GOAL;
  }

  /** A path or goal cell becomes the position; it becomes the checkpoint
      exactly when its Manhattan distance to the old checkpoint is a multiple
      of four. Reaching the goal cell wins the game for the mover. */
  lemma MoveOntoPathOrGoal(s: GameState, dx: int, dy: int)
    requires WellShaped(s) && Accepted(s, dx, dy)
    requires At(s.board, Target(s.players[Current(s)], dx, dy)).kind in {Path, Goal}
    ensures var i := Current(s);
      var p, r := s.players[i], Move(s, dx, dy);
      var q := r.players[i];
      var target := Target(p, dx, dy);
      (Manhattan(target, p.checkpoint) % CHECKPOINT_INTERVAL == 0 ==>
         q == p.(position := target, checkpoint := target))
      && (Manhattan(target, p.checkpoint) % CHECKPOINT_INTERVAL != 0 ==> q == p.(position := target))
      && r.players[1 - i] == s.players[1 - i]
      && r.winner == (if target == GOAL then Some(i) else WinnerAfterPlainMove(s))
  {
  }

  // ---------------------------------------------------------------------
  // One memory token

  /** Without tokens, or when inactive, a token cannot be spent. */
  lemma UseTokenRefused(s: GameState)
    requires WellShaped(s)
    requires s.players[Current(s)].memoryTokens <= 0 || !s.players[Current(s)].active
    ensures UseToken(s) == s
  {
  }

  /** Spending a token temporarily reveals exactly the on-board cells of the
      3×3 block around the player (earlier temporary reveals stay), costs one
      token, and changes neither positions, the turn, nor any revealed flag. */
  lemma UseTokenReveals(s: GameState)
    requires WellShaped(s)
    requires s.players[Current(s)].memoryTokens > 0 && s.players[Current(s)].active
    ensures var i, r := Current(s), UseToken(s);
      var p := s.players[i];
      r.players[i].memoryTokens == p.memoryTokens - 1
      && r.players[1 - i] == s.players[1 - i]
      && r.turn == s.turn
      && forall c :: InBounds(c) ==>
           At(r.board, c).tempReveal == (At(s.board, c).tempReveal || Near(p.position, c))
           && At(r.board, c).revealed == At(s.board, c).revealed
  {
  }

  /** `use_token` does not look at the winner: in a finished game it still
      spends a token and reveals cells. */
  lemma UseTokenAfterWin()
    ensures var s := GameState(FreshBoard(), InitialPlayers(), 0, Some(1));
      WellShaped(s) && UseToken(s) != s
  {
    var s := GameState(FreshBoard(), InitialPlayers(), 0, Some(1));
    assert UseToken(s).players[0].memoryTokens == START_TOKENS - 1;
  }

  // ---------------------------------------------------------------------
  // Invariants of play

  predicate PlayerOk(p: PlayerState, winner: Option<nat>) {
    InBounds(p.position) && InBounds(p.checkpoint)
    && p.memoryTokens >= 0
    && 0 <= p.trapCount <= MAX_TRAPS
    && (p.active ==> p.trapCount < MAX_TRAPS)
    && (!p.active ==> winner.Some?)
  }

  predicate PlayersInBounds(s: GameState) {
    forall k :: 0 <= k < |s.players| ==>
      InBounds(s.players[k].position) && InBounds(s.players[k].checkpoint)
  }

  /** The single goal at the centre, both players on the board with sane
      counters, and an elimination always decides the game. */
  ghost predicate Inv(s: GameState) {
    WellShaped(s) && GoalOnlyAtCentre(s.board) && PlayersOk(s)
  }

  ghost predicate GoalOnlyAtCentre(b: Board)
    requires WellFormed(b)
  {
    forall c :: InBounds(c) ==> (At(b, c).kind == Goal <==> c == GOAL)
  }

  predicate PlayersOk(s: GameState) {
    forall k :: 0 <= k < |s.players| ==> PlayerOk(s.players[k], s.winner)
  }

  /** Positions stay on the board: a move lands on an on-board target or on
      a checkpoint, and checkpoints are only ever set to on-board targets. */
  lemma MoveKeepsPlayersInBounds(s: GameState, dx: int, dy: int)
    requires WellShaped(s) && PlayersInBounds(s)
    ensures PlayersInBounds(Move(s, dx, dy))
  {
    if Accepted(s, dx, dy) {
      var i := Current(s);
      var target := Target(s.players[i], dx, dy);
      var resolved := Resolve(RevealTarget(s, target), i, target);
      assert PlayersInBounds(resolved);
      assert Move(s, dx, dy).players == resolved.players;
    }
  }

  /** The mover's counters stay sane whatever the tile. */
  lemma MoveKeepsMoverOk(s: GameState, dx: int, dy: int)
    requires Inv(s) && Accepted(s, dx, dy)
    ensures var r := Move(s, dx, dy);
      PlayerOk(r.players[Current(s)], r.winner)
  {
    var kind := At(s.board, Target(s.players[Current(s)], dx, dy)).kind;
    assert At(s.board, GOAL).kind == Goal;
    if kind == Trap {
      MoveOntoTrap(s, dx, dy);
    } else if kind == Bonus {
      MoveOntoBonus(s, dx, dy);
    } else {
      MoveOntoPathOrGoal(s, dx, dy);
    }
  }

  /** The opponent is untouched by a move, and active since nobody has won yet. */
  lemma MoveKeepsOpponentOk(s: GameState, dx: int, dy: int)
    requires Inv(s) && Accepted(s, dx, dy)
    ensures var r := Move(s, dx, dy);
      PlayerOk(r.players[1 - Current(s)], r.winner)
  {
    var kind := At(s.board, Target(s.players[Current(s)], dx, dy)).kind;
    assert At(s.board, GOAL).kind == Goal;
    if kind == Trap {
      MoveOntoTrap(s, dx, dy);
    } else if kind == Bonus {
      MoveOntoBonus(s, dx, dy);
    } else {
      MoveOntoPathOrGoal(s, dx, dy);
    }
    assert s.players[1 - Current(s)].active;
  }

  lemma MovePreservesInv(s: GameState, dx: int, dy: int)
    requires Inv(s)
    ensures Inv(Move(s, dx, dy))
  {
    var r := Move(s, dx, dy);
    assert GoalOnlyAtCentre(r.board);
    if Accepted(s, dx, dy) {
      var i := Current(s);
      MoveKeepsMoverOk(s, dx, dy);
      MoveKeepsOpponentOk(s, dx, dy);
      assert i == 0 || i == 1;
      assert PlayersOk(r);
    }
  }

  lemma UseTokenPreservesInv(s: GameState)
    requires Inv(s)
    ensures Inv(UseToken(s))
  {
  }

  /** Every reachable game keeps `Inv`, hence every position stays on the board. */
  lemma {:induction false} RunPreservesInv(s: GameState, actions: seq<Action>)
    requires Inv(s)
    ensures Inv(Run(s, actions))
    decreases |actions|
  {
    if actions != [] {
      match actions[0] {
        case MoveBy(dx, dy) => MovePreservesInv(s, dx, dy);
        case SpendToken => UseTokenPreservesInv(s);
      }
      RunPreservesInv(Apply(s, actions[0]), actions[1..]);
    }
  }

  /** Tile kinds are fixed for the whole game and a revealed tile never hides again. */
  lemma {:induction false} RunKeepsKindsAndRevealed(s: GameState, actions: seq<Action>)
    requires WellShaped(s)
    ensures var r := Run(s, actions);
      forall c :: InBounds(c) ==>
        At(r.board, c).kind == At(s.board, c).kind
        && (At(s.board, c).revealed ==> At(r.board, c).revealed)
    decreases |actions|
  {
    if actions != [] {
      RunKeepsKindsAndRevealed(Apply(s, actions[0]), actions[1..]);
    }
  }

  /** Once there is a winner, no intent changes the winner, the turn, any
      position, checkpoint, trap count or active flag, or the revealed tiles;
      only memory tokens and temporary reveals can still change. */
  lemma {:induction false} RunAfterWin(s: GameState, actions: seq<Action>)
    requires WellShaped(s) && s.winner.Some?
    ensures var r := Run(s, actions);
      r.winner == s.winner && r.turn == s.turn
      && (forall k :: 0 <= k < |s.players| ==>
            r.players[k] == s.players[k].(memoryTokens := r.players[k].memoryTokens))
      && forall c :: InBounds(c) ==>
           At(r.board, c).kind == At(s.board, c).kind && At(r.board, c).revealed == At(s.board, c).revealed
    decreases |actions|
  {
    if actions != [] {
      var s' := Apply(s, actions[0]);
      RunAfterWin(s', actions[1..]);
    }
  }

  // ---------------------------------------------------------------------
  // A new game

  /** A completed setup has exactly one goal tile, at the centre, exactly
      `NUM_TRAPS` traps and `NUM_BONUSES` bonuses on former path cells, every
      tile hidden, and satisfies `Inv`. */
  lemma NewGameBoard(picks: seq<Cell>)
    requires AllInBounds(picks) && NewGame(picks).Some?
    ensures var g := NewGame(picks).value;
      Inv(g) && g.turn == 0 && g.winner.None? && g.players == InitialPlayers()
      && (forall c :: InBounds(c) ==> !At(g.board, c).revealed && !At(g.board, c).tempReveal)
      && CountKind(g.board, Goal) == 1
      && CountKind(g.board, Trap) == NUM_TRAPS
      && CountKind(g.board, Bonus) == NUM_BONUSES
      && CountKind(g.board, Path) == BOARD_SIZE * BOARD_SIZE - 1 - NUM_TRAPS - NUM_BONUSES
  {
    var b0 := FreshBoard();
    var traps := PlaceItemsType(b0, Trap, NUM_TRAPS, picks).value;
    SuffixInBounds(picks, traps.used);
    var rest := picks[traps.used..];
    var bonuses := PlaceItemsType(traps.board, Bonus, NUM_BONUSES, rest).value;
    var g := NewGame(picks).value;
    assert g.board == bonuses.board;
    FreshBoardCounts();
    PlaceChangesOnlyAccepted(b0, Trap, NUM_TRAPS, picks);
    PlaceCounts(b0, Trap, NUM_TRAPS, picks);
    PlaceChangesOnlyAccepted(traps.board, Bonus, NUM_BONUSES, rest);
    PlaceCounts(traps.board, Bonus, NUM_BONUSES, rest);
    forall c | InBounds(c)
      ensures (At(g.board, c).kind == Goal <==> c == GOAL)
      ensures !At(g.board, c).revealed && !At(g.board, c).tempReveal
    {
    }
  }
}
