/** The Memory Maze game state machine as pure functions on a value of the
    whole game: two players, the board, the turn counter and the winner. */
module MazeRules {
  import opened MazeBoard

  const MAX_TRAPS: int := 3
  const START_TOKENS: int := 2
  /** Plain moves refresh the checkpoint every this many Manhattan steps. */
  const CHECKPOINT_INTERVAL: int := 4

  datatype PlayerState = PlayerState(
    name: string,
    position: Cell,
    checkpoint: Cell,
    memoryTokens: int,
    trapCount: int,
    active: bool)

  /** `winner` is an index into `players`. */
  datatype GameState = GameState(board: Board, players: seq<PlayerState>, turn: nat, winner: Option<nat>)

  predicate WellShaped(s: GameState) {
    WellFormed(s.board) && |s.players| == 2 && (s.winner.Some? ==> s.winner.value < |s.players|)
  }

  /** A player starts on its own checkpoint, with `START_TOKENS` tokens, no
      trap hits, and active. */
  function NewPlayer(name: string, pos: Cell): (p: PlayerState)
    ensures p.name == name && p.position == pos && p.checkpoint == pos
    ensures p.memoryTokens == START_TOKENS && p.trapCount == 0 && p.active
  {
    PlayerState(name, pos, pos, START_TOKENS, 0, true)
  }

  /** Two fresh players with distinct names in opposite corners. */
  function InitialPlayers(): (ps: seq<PlayerState>)
    ensures |ps| == 2 && ps[0].name != ps[1].name
    ensures ps[0].position == Cell(0, 0) && ps[1].position == Cell(BOARD_SIZE - 1, BOARD_SIZE - 1)
    ensures forall k :: 0 <= k < |ps| ==> ps[k] == NewPlayer(ps[k].name, ps[k].position)
  {
    [NewPlayer("Player 1", Cell(0, 0)), NewPlayer("Player 2", Cell(BOARD_SIZE - 1, BOARD_SIZE - 1))]
  }

  /** A new game; `None` when the picks run out before every item is placed. */
  function NewGame(picks: seq<Cell>): (r: Option<GameState>)
    requires AllInBounds(picks)
    ensures r.Some? ==> WellShaped(r.value)
  {
    match PlaceItems(FreshBoard(), picks)
    case None => None
    case Some(pl) => Some(GameState(pl.board, InitialPlayers(), 0, None))
  }

  /** The player whose turn it is. */
  function Current(s: GameState): nat
    requires WellShaped(s)
  {
    s.turn % |s.players|
  }

  // ---------------------------------------------------------------------
  // check_game_over

  /** Indices of the active players, in order. */
  function ActiveIndices(ps: seq<PlayerState>): (r: seq<nat>)
    ensures forall k :: 0 <= k < |r| ==> r[k] < |ps| && ps[r[k]].active
    ensures forall i :: 0 <= i < |ps| && ps[i].active ==> i in r
    ensures forall k, m :: 0 <= k < m < |r| ==> r[k] < r[m]
  {
    if ps == [] then []
    else
      var front := ActiveIndices(ps[..|ps| - 1]);
      if ps[|ps| - 1].active then front + [|ps| - 1] else front
  }

  /** When exactly one player is still active, that player wins. */
  function CheckGameOver(s: GameState): (r: GameState)
    requires WellShaped(s)
    ensures WellShaped(r)
    ensures r.board == s.board && r.players == s.players && r.turn == s.turn
    ensures s.players[0].active != s.players[1].active ==>
      r.winner == Some(if s.players[0].active then 0 else 1)
    ensures s.players[0].active == s.players[1].active ==> r.winner == s.winner
  {
    var active := ActiveIndices(s.players);
    assert |active| >= 2 ==> active[0] < active[1];
    if |active| == 1 then s.(winner := Some(active[0])) else s
  }

  // ---------------------------------------------------------------------
  // move

  function Abs(x: int): nat {
    if x < 0 then -x else x
  }

  function Manhattan(a: Cell, b: Cell): nat {
    Abs(a.row - b.row) + Abs(a.col - b.col)
  }

  /** The effect of the tile at `target` on player `i`, who has just revealed it. */
  function Resolve(s: GameState, i: nat, target: Cell): (r: GameState)
    requires WellShaped(s) && i < |s.players| && InBounds(target)
    ensures WellShaped(r) && r.board == s.board && r.turn == s.turn
    ensures |r.players| == |s.players|
    ensures forall k :: 0 <= k < |s.players| && k != i ==> r.players[k] == s.players[k]
    ensures r.players[i].name == s.players[i].name
    ensures r.players[i].position in {target, s.players[i].position, s.players[i].checkpoint}
    ensures r.players[i].checkpoint in {target, s.players[i].checkpoint}
    ensures r.winner != s.winner ==> At(s.board, target).kind == Trap && !r.players[i].active
  {
    var p := s.players[i];
    match At(s.board, target).kind
    case Trap =>
      var hit := p.(trapCount := p.trapCount + 1);
      if hit.trapCount >= MAX_TRAPS then
        // eliminated where it stands; the other player wins
        s.(players := s.players[i := hit.(active := false)], winner := Some((s.turn + 1) % |s.players|))
      else
        s.(players := s.players[i := hit.(position := hit.checkpoint)])
    case Bonus =>
      s.(players := s.players[i := p.(memoryTokens := p.memoryTokens + 1, position := target, checkpoint := target)])
    case _ =>
      // path and goal tiles alike
      var cp := if Manhattan(target, p.checkpoint) % CHECKPOINT_INTERVAL == 0 then target else p.checkpoint;
      s.(players := s.players[i := p.(position := target, checkpoint := cp)])
  }

  function Target(p: PlayerState, dx: int, dy: int): Cell {
    Cell(p.position.row + dx, p.position.col + dy)
  }

  /** The target tile becomes permanently revealed. */
  function RevealTarget(s: GameState, target: Cell): (r: GameState)
    requires WellShaped(s) && InBounds(target)
    ensures WellShaped(r) && r.players == s.players && r.turn == s.turn && r.winner == s.winner
    ensures forall c :: InBounds(c) ==>
      At(r.board, c) == At(s.board, c).(revealed := At(s.board, c).revealed || c == target)
  {
    s.(board := Update(s.board, target, At(s.board, target).(revealed := true)))
  }

  /** Arriving on the goal cell wins, whatever happened on the way. */
  function ClaimGoal(s: GameState, i: nat, target: Cell): (r: GameState)
    ensures r.board == s.board && r.players == s.players && r.turn == s.turn
    ensures target == GOAL ==> r.winner == Some(i)
    ensures target != GOAL ==> r == s
  {
    if target == GOAL then s.(winner := Some(i)) else s
  }

  /** The end of every accepted move: temporary reveals end, the turn
      passes, and the game-over rule is applied. */
  function EndTurn(s: GameState): (r: GameState)
    requires WellShaped(s)
    ensures WellShaped(r) && r.players == s.players && r.turn == s.turn + 1
    ensures forall c :: InBounds(c) ==> At(r.board, c) == At(s.board, c).(tempReveal := false)
    ensures s.players[0].active != s.players[1].active ==>
      r.winner == Some(if s.players[0].active then 0 else 1)
    ensures s.players[0].active == s.players[1].active ==> r.winner == s.winner
  {
    CheckGameOver(s.(board := ClearTemp(s.board), turn := s.turn + 1))
  }

  /** A move is accepted when the acting player is active, nobody has won,
      and the target cell is on the board. */
  predicate Accepted(s: GameState, dx: int, dy: int)
    requires WellShaped(s)
  {
    var p := s.players[Current(s)];
    p.active && s.winner.None? && InBounds(Target(p, dx, dy))
  }

  /** One move of the acting player by (dx, dy). Either it is rejected and
      nothing changes, or the turn advances by one and the board changes in
      exactly two ways: the target becomes revealed and every temporary
      reveal is cleared. */
  function Move(s: GameState, dx: int, dy: int): (r: GameState)
    requires WellShaped(s)
    ensures WellShaped(r)
    ensures forall c :: InBounds(c) ==> At(r.board, c).kind == At(s.board, c).kind
    ensures forall c :: InBounds(c) && At(s.board, c).revealed ==> At(r.board, c).revealed
    ensures !Accepted(s, dx, dy) ==> r == s
    ensures Accepted(s, dx, dy) ==>
      r.turn == s.turn + 1
      && forall c :: InBounds(c) ==>
           At(r.board, c) == At(s.board, c).(revealed := At(s.board, c).revealed || c == Target(s.players[Current(s)], dx, dy),
                                              tempReveal := false)
  {
    var i := Current(s);
    var current := s.players[i];
    if !current.active || s.winner.Some? then s
    else
      var target := Target(current, dx, dy);
      if !InBounds(target) then s
      else
        EndTurn(ClaimGoal(Resolve(RevealTarget(s, target), i, target), i, target))
  }

  // ---------------------------------------------------------------------
  // use_token

  /** Spending a memory token: refused without tokens or when inactive (but
      not after a win); otherwise the 3×3 block around the player is
      temporarily revealed and one token is spent, and nothing else changes. */
  function UseToken(s: GameState): (r: GameState)
    requires WellShaped(s)
    ensures WellShaped(r)
    ensures r.turn == s.turn && r.winner == s.winner
    ensures forall c :: InBounds(c) ==>
      At(r.board, c).kind == At(s.board, c).kind && At(r.board, c).revealed == At(s.board, c).revealed
    ensures forall k :: 0 <= k < |r.players| ==>
      r.players[k] == s.players[k].(memoryTokens := r.players[k].memoryTokens)
  {
    var i := Current(s);
    var p := s.players[i];
    if p.memoryTokens <= 0 || !p.active then s
    else
      s.(board := RevealAround(s.board, p.position),
         players := s.players[i := p.(memoryTokens := p.memoryTokens - 1)])
  }

  // ---------------------------------------------------------------------
  // Sequences of player intents

  datatype Action = MoveBy(dx: int, dy: int) | SpendToken

  function Apply(s: GameState, a: Action): (r: GameState)
    requires WellShaped(s)
    ensures WellShaped(r)
  {
    match a
    case MoveBy(dx, dy) => Move(s, dx, dy)
    case SpendToken => UseToken(s)
  }

  function Run(s: GameState, actions: seq<Action>): (r: GameState)
    requires WellShaped(s)
    ensures WellShaped(r)
    decreases |actions|
  {
    if actions == [] then s else Run(Apply(s, actions[0]), actions[1..])
  }
}
