# Memory Maze — a verified model of the game state machine

Memory Maze is a two-player, turn-based game on a hidden 8×8 board. Each
player starts in a corner with two memory tokens and tries to reach the goal
tile at the centre. Traps send a player back to its checkpoint. The third
trap eliminates the player, and the opponent wins. Bonus tiles give a token
and become the new checkpoint. A memory token temporarily reveals the 3×3
block around the player until the next move ends.

The model has four modules:

- `MazeBoard` (`board.dfy`): tiles, the board as a sequence of rows, the
  fresh board with its centre goal, clearing and setting temporary
  reveals, tile counts, and the rejection-sampling placement of traps and
  bonuses. The random generator is replaced by a sequence of picked cells.
- `MazeRules` (`rules.dfy`): the whole game as one value (`GameState`) and
  the operations `Move`, `UseToken` and `CheckGameOver` as functions.
  `Run` applies a sequence of player intents.
- `MazeProperties` (`properties.dfy`): what each kind of move and a token
  do, the shape of a newly set-up board, and invariants kept along any
  sequence of intents.
- `MazeGame` (`game.dfy`): the program's own form. `Player` objects have
  fields that change in place. A `Game` object owns the board (reassigned
  cell by cell in the same nested loops as the source), the players, the
  turn counter and a reference to the winning `Player`. The turn methods
  (`Move`, `UseToken`, `StepOnto`, `CheckGameOver`) are proved to leave
  `State()` equal to the matching `MazeRules` function of the old state.
  The board methods (`PlaceItems`, `PlaceItemsType`, `ClearTempTiles`) are
  proved to leave `board` equal to the matching `MazeBoard` function of the
  old board. The constructor, `Init` and `Reset` are proved to end in
  `NewGame(picks)`.

Behaviour kept from the code:

- `use_token` does not check for a winner. Only the event loop refuses keys
  after a win. So a finished game still accepts `use_token`: spending a
  token is not blocked after a win (`UseTokenAfterWin`). `Move`, by
  contrast, changes nothing once there is a winner.
- Stepping on the goal cell is a plain step first. The checkpoint rule
  applies there too, and the winner is then set because the cell is the
  goal, not because of its tile kind.
- The eliminating trap hit leaves the player where it stood.
- A pick-count larger than the free path cells is not rejected up front.
  The placement simply cannot complete (`PlaceCounts`).

## Model

| member | source | states |
|---|---|---|
| `MazeBoard.FreshBoard` | final_project.py:51-57 | every tile is hidden, the centre cell is the only goal, and every other tile is a path |
| `MazeBoard.FreshBoardCounts` | final_project.py:51-57 | the fresh board has one goal, 63 path tiles, and no traps or bonuses |
| `MazeBoard.ClearTemp` | final_project.py:156-159 | every tile is its old self with the temporary reveal off; no other field changes |
| `MazeBoard.RevealAround` | final_project.py:166-171 | a cell is temporarily revealed afterwards iff it already was or it lies on the board within the 3×3 block; kinds and revealed flags are unchanged |
| `MazeBoard.PlaceItemsType` | final_project.py:68-74 | a completed placement yields an 8×8 board and consumes at most all picks, and at least one pick when items remain |
| `MazeBoard.PlaceItems` | final_project.py:64-66 | a completed placement yields an 8×8 board and consumes at most all picks; the resulting counts of traps and bonuses are proved in `NewGameBoard` |
| `MazeBoard.PlaceChangesOnlyAccepted` | final_project.py:68-74 | a placement changes only cells that were path tiles other than the goal, and there only the kind, to the item kind |
| `MazeBoard.PlaceCounts` | final_project.py:68-74 | a completed placement of `count` items adds exactly `count` tiles of the item kind, removes exactly `count` path tiles, and leaves the other kinds' counts unchanged, so `count` never exceeds the free path tiles |
| `MazeBoard.CountUpdate` | final_project.py:73 | replacing one tile moves one unit from the count of its old kind to that of its new kind |
| `MazeRules.NewPlayer` | final_project.py:34-41 | a new player carries the given name, starts on its own checkpoint with 2 tokens and no trap hits, and is active |
| `MazeRules.InitialPlayers` | final_project.py:52-55 | two fresh players with distinct names, at (0,0) and (7,7) |
| `MazeRules.NewGame` | final_project.py:51-62 | a completed setup is a well-shaped game of two players on an 8×8 board |
| `MazeRules.ActiveIndices` | final_project.py:152 | the result holds exactly the indices of the active players, in increasing order |
| `MazeRules.CheckGameOver` | final_project.py:151-154 | if exactly one of the two players is active, that player becomes the winner; otherwise the winner is kept; the board, players and turn never change |
| `MazeRules.RevealTarget` | final_project.py:123-124 | the target tile becomes revealed; no other tile, no player, the turn and the winner do not change |
| `MazeRules.Resolve` | final_project.py:126-142 | only the mover's record changes, and it keeps its name; the new position is the target, the old position or the checkpoint; the new checkpoint is the target or the old one; the winner changes only when a trap eliminates the mover; board and turn are unchanged |
| `MazeRules.ClaimGoal` | final_project.py:144-145 | arriving on the goal cell makes the mover the winner, whatever the tile effect was; elsewhere nothing changes |
| `MazeRules.EndTurn` | final_project.py:147-149 | every tile loses its temporary reveal and nothing else on the board changes; the turn advances by one; players are unchanged; a sole active player becomes the winner, otherwise the winner is kept |
| `MazeRules.Move` | final_project.py:115-149 | a refused move changes nothing; an accepted one advances the turn by exactly one and changes the board in exactly two ways: the target becomes revealed and every temporary reveal ends |
| `MazeRules.UseToken` | final_project.py:161-172 | the turn, winner, tile kinds and revealed flags are unchanged, and players differ at most in their token counts |
| `MazeRules.Run` | final_project.py:192-201 | any sequence of move and token intents keeps a game of two players on an 8×8 board |
| `MazeProperties.MoveBlocked` | final_project.py:116-118 | a move by an inactive player, or after a win, changes nothing |
| `MazeProperties.MoveOffBoard` | final_project.py:119-122 | a target off the board changes nothing, so the turn does not advance |
| `MazeProperties.MoveOntoTrap` | final_project.py:126-133 | the mover's whole new record: one more hit; at three hits it becomes inactive where it stands and the opponent wins; below three it is sent back to its checkpoint; nothing else of the mover or the opponent changes |
| `MazeProperties.MoveOntoBonus` | final_project.py:134-137 | the mover's whole new record: one more token, and the bonus cell becomes both the position and the checkpoint; nothing else changes |
| `MazeProperties.MoveOntoPathOrGoal` | final_project.py:138-145 | the mover's whole new record: the target becomes the position, and the checkpoint exactly when its Manhattan distance to the old checkpoint is a multiple of 4; arriving on the goal cell makes the mover the winner |
| `MazeProperties.UseTokenRefused` | final_project.py:162-164 | without tokens, or when the player is inactive, spending a token changes nothing |
| `MazeProperties.UseTokenReveals` | final_project.py:166-172 | spending a token temporarily reveals exactly the on-board cells of the 3×3 block, and earlier temporary reveals stay; it costs one token and leaves the turn, the opponent and every revealed flag unchanged |
| `MazeProperties.UseTokenAfterWin` | final_project.py:161-164 | a finished game exists in which `use_token` still changes the state |
| `MazeProperties.MoveKeepsPlayersInBounds` | final_project.py:119-142 | if both positions and checkpoints are on the board, they still are after any move |
| `MazeProperties.MoveKeepsMoverOk` | final_project.py:126-142 | the mover keeps an on-board position and checkpoint, non-negative tokens, and at most three hits; it is active only below three hits, and only a decided game has an inactive player |
| `MazeProperties.MoveKeepsOpponentOk` | final_project.py:115-149 | the opponent of an accepted move still satisfies the same player conditions |
| `MazeProperties.MovePreservesInv` | final_project.py:115-154 | a move keeps the single centre goal and every player condition |
| `MazeProperties.UseTokenPreservesInv` | final_project.py:161-172 | spending a token keeps the single centre goal and every player condition |
| `MazeProperties.RunPreservesInv` | final_project.py:115-172 | every sequence of intents keeps the invariant, so positions always stay on the board |
| `MazeProperties.RunKeepsKindsAndRevealed` | final_project.py:115-172 | along any sequence of intents tile kinds never change, and a revealed tile never hides again |
| `MazeProperties.RunAfterWin` | final_project.py:115-172 | once a winner is set, no later intent changes the winner, turn, positions, checkpoints, trap counts, active flags, kinds or revealed flags |
| `MazeProperties.NewGameBoard` | final_project.py:51-74 | a completed setup has one goal at the centre, exactly 10 traps and 5 bonuses, 48 path tiles and every tile hidden; turn 0, no winner, both players fresh in opposite corners; the invariant holds |
| `MazeGame.Player.constructor` | final_project.py:34-41 | a new player has its checkpoint at its start position, 2 tokens, no trap hits, and is active |
| `MazeGame.Game.constructor` | final_project.py:44-62 | the new game's state is exactly the completed setup for the given picks |
| `MazeGame.Game.Init` | final_project.py:51-62 | fresh players and board, turn 0, no winner, then placement; the state equals the completed setup |
| `MazeGame.Game.Reset` | final_project.py:174-175 | after a reset the state is a fresh setup with newly allocated players |
| `MazeGame.Game.PlaceItems` | final_project.py:64-66 | the board becomes the traps-then-bonuses placement of the old board; turn, winner and players are untouched |
| `MazeGame.Game.PlaceItemsType` | final_project.py:68-74 | the rejection-sampling loop leaves the board and pick count that the placement function gives |
| `MazeGame.Game.ClearTempTiles` | final_project.py:156-159 | the nested loops leave exactly the cleared board |
| `MazeGame.Game.CheckGameOver` | final_project.py:151-154 | the winner field afterwards matches the game-over rule |
| `MazeGame.Game.StepOnto` | final_project.py:126-142 | the mover's fields and the winner change as the tile-effect rule says |
| `MazeGame.Game.Move` | final_project.py:115-149 | the in-place move leaves the state that `MazeRules.Move` gives for the old state |
| `MazeGame.Game.UseToken` | final_project.py:161-172 | the in-place token loops leave the state that `MazeRules.UseToken` gives for the old state |

## Left out

- Rendering and input are not modelled: `draw_board`, `display_info`, `run`, every pygame call, the colours, `TILE_SIZE`, `WINDOW_SIZE` and `FPS`. They are presentation and I/O.
- The `running` flag and the quit keys (`pygame.quit`, `sys.exit`) are host-loop I/O.
- The elimination message printed at final_project.py:130 is console output.
- The event loop's refusal of every key except R and Q after a win is not modelled. `Run` applies intents directly, which is why `RunAfterWin` allows tokens and temporary reveals to change.
- `random.randint` is replaced by a supplied sequence of picked cells. A setup whose picks run out is `None`. The source would keep drawing, so non-termination of the rejection loop is not modelled.
- `MazeGame.Game.PlaceItemsType`: requires that the supplied picks complete the placement, because the source loop only ends when they do.
- `Player.color` is display-only and left out.
- `Game.goal` is the constant `GOAL`, since the source never changes it.
- `reset` also re-runs `pygame.init()`. `Reset` models only the reconstruction of the game state.
- The winner is a player reference in `Game` and an index into `players` in `GameState`. The two players are distinct, so this loses nothing.
- `move` is modelled for any integer offsets. The event loop only passes the four unit vectors.
- `MazeRules.NewGame`: its own contract states only the shape of the game. The full setup properties are in `MazeProperties.NewGameBoard`.
