/** The Memory Maze board: an 8×8 grid of tiles, each with a kind that is
    written once while the board is generated and two visibility flags.
    Traps and bonuses are scattered by rejection sampling; the random cell
    generator is replaced by a sequence of picked cells (an oracle). */
module MazeBoard {

  datatype Option<T> = None | Some(value: T)

  const BOARD_SIZE: int := 8
  const NUM_TRAPS: nat := 10
  const NUM_BONUSES: nat := 5

  datatype Kind = Path | Trap | Bonus | Goal

  /** `revealed` is sticky once a player steps on the tile; `tempReveal` lasts
      until the end of the next move. */
  datatype Tile = Tile(kind: Kind, revealed: bool, tempReveal: bool)

  datatype Cell = Cell(row: int, col: int)

  type Board = seq<seq<Tile>>

  const GOAL: Cell := Cell(BOARD_SIZE / 2, BOARD_SIZE / 2)

  predicate InBounds(c: Cell) {
    0 <= c.row < BOARD_SIZE && 0 <= c.col < BOARD_SIZE
  }

  predicate WellFormed(b: Board) {
    |b| == BOARD_SIZE && forall r :: 0 <= r < |b| ==> |b[r]| == BOARD_SIZE
  }

  function At(b: Board, c: Cell): Tile
    requires WellFormed(b) && InBounds(c)
  {
    b[c.row][c.col]
  }

  /** Two boards that agree on every cell are equal. */
  lemma BoardsEqual(a: Board, b: Board)
    requires WellFormed(a) && WellFormed(b)
    requires forall c :: InBounds(c) ==> At(a, c) == At(b, c)
    ensures a == b
  {
    forall r | 0 <= r < BOARD_SIZE ensures a[r] == b[r] {
      forall j | 0 <= j < BOARD_SIZE ensures a[r][j] == b[r][j] {
        assert At(a, Cell(r, j)) == At(b, Cell(r, j));
      }
    }
  }

  /** The board with the single cell `c` replaced by `t`. */
  function Update(b: Board, c: Cell, t: Tile): (r: Board)
    requires WellFormed(b) && InBounds(c)
    ensures WellFormed(r)
    ensures At(r, c) == t
    ensures forall d :: InBounds(d) && d != c ==> At(r, d) == At(b, d)
  {
    b[c.row := b[c.row][c.col := t]]
  }

  /** A grid of hidden path tiles with the goal at the centre. */
  function FreshBoard(): (b: Board)
    ensures WellFormed(b)
    ensures forall c :: InBounds(c) ==>
      At(b, c) == Tile(if c == GOAL then Goal else Path, false, false)
  {
    var blank := seq(BOARD_SIZE, _ => seq(BOARD_SIZE, _ => Tile(Path, false, false)));
    Update(blank, GOAL, Tile(Goal, false, false))
  }

  /** Every temporary reveal switched off. */
  function ClearTemp(b: Board): (r: Board)
    requires WellFormed(b)
    ensures WellFormed(r)
    ensures forall c :: InBounds(c) ==> At(r, c) == At(b, c).(tempReveal := false)
  {
    seq(BOARD_SIZE, i requires 0 <= i < BOARD_SIZE =>
      seq(BOARD_SIZE, j requires 0 <= j < BOARD_SIZE => b[i][j].(tempReveal := false)))
  }

  /** `c` lies in the 3×3 block centred on `center`. */
  predicate Near(center: Cell, c: Cell) {
    -1 <= c.row - center.row <= 1 && -1 <= c.col - center.col <= 1
  }

  /** Temporary reveal of the 3×3 block around `center`, clipped to the board. */
  function RevealAround(b: Board, center: Cell): (r: Board)
    requires WellFormed(b)
    ensures WellFormed(r)
    ensures forall c :: InBounds(c) ==>
      At(r, c).kind == At(b, c).kind
      && At(r, c).revealed == At(b, c).revealed
      && At(r, c).tempReveal == (At(b, c).tempReveal || Near(center, c))
  {
    seq(BOARD_SIZE, i requires 0 <= i < BOARD_SIZE =>
      seq(BOARD_SIZE, j requires 0 <= j < BOARD_SIZE =>
        if Near(center, Cell(i, j)) then b[i][j].(tempReveal := true) else b[i][j]))
  }

  // ---------------------------------------------------------------------
  // Counting tiles of a kind

  function CountRow(row: seq<Tile>, k: Kind): nat {
    if row == [] then 0
    else CountRow(row[..|row| - 1], k) + (if row[|row| - 1].kind == k then 1 else 0)
  }

  function CountKind(b: Board, k: Kind): nat {
    if b == [] then 0
    else CountKind(b[..|b| - 1], k) + CountRow(b[|b| - 1], k)
  }

  function Indicator(t: Tile, k: Kind): nat {
    if t.kind == k then 1 else 0
  }

  lemma {:induction false} CountRowUpdate(row: seq<Tile>, j: nat, t: Tile, k: Kind)
    requires j < |row|
    ensures CountRow(row[j := t], k) + Indicator(row[j], k) == CountRow(row, k) + Indicator(t, k)
    decreases |row|
  {
    var n := |row| - 1;
    if j == n {
      assert row[j := t][..n] == row[..n];
    } else {
      assert row[j := t][..n] == row[..n][j := t];
      CountRowUpdate(row[..n], j, t, k);
    }
  }

  lemma {:induction false} CountKindUpdateRow(b: Board, i: nat, newRow: seq<Tile>, k: Kind)
    requires i < |b|
    ensures CountKind(b[i := newRow], k) + CountRow(b[i], k) == CountKind(b, k) + CountRow(newRow, k)
    decreases |b|
  {
    var n := |b| - 1;
    if i == n {
      assert b[i := newRow][..n] == b[..n];
    } else {
      assert b[i := newRow][..n] == b[..n][i := newRow];
      CountKindUpdateRow(b[..n], i, newRow, k);
    }
  }

  /** Replacing one tile moves that cell from the count of its old kind to the
      count of its new kind. */
  lemma CountUpdate(b: Board, c: Cell, t: Tile, k: Kind)
    requires WellFormed(b) && InBounds(c)
    ensures CountKind(Update(b, c, t), k) + Indicator(At(b, c), k) == CountKind(b, k) + Indicator(t, k)
  {
    CountRowUpdate(b[c.row], c.col, t, k);
    CountKindUpdateRow(b, c.row, b[c.row][c.col := t], k);
  }

  lemma {:induction false} CountUniformRow(row: seq<Tile>, t: Tile, k: Kind)
    requires forall j :: 0 <= j < |row| ==> row[j] == t
    ensures CountRow(row, k) == |row| * Indicator(t, k)
    decreases |row|
  {
    if row != [] {
      CountUniformRow(row[..|row| - 1], t, k);
    }
  }

  lemma {:induction false} CountUniformBoard(b: Board, t: Tile, k: Kind)
    requires forall i :: 0 <= i < |b| ==> |b[i]| == BOARD_SIZE
    requires forall i, j :: 0 <= i < |b| && 0 <= j < BOARD_SIZE ==> b[i][j] == t
    ensures CountKind(b, k) == |b| * BOARD_SIZE * Indicator(t, k)
    decreases |b|
  {
    if b != [] {
      CountUniformBoard(b[..|b| - 1], t, k);
      CountUniformRow(b[|b| - 1], t, k);
    }
  }

  /** The freshly allocated board: 63 path tiles and one goal. */
  lemma FreshBoardCounts()
    ensures CountKind(FreshBoard(), Goal) == 1
    ensures CountKind(FreshBoard(), Path) == BOARD_SIZE * BOARD_SIZE - 1
    ensures CountKind(FreshBoard(), Trap) == 0
    ensures CountKind(FreshBoard(), Bonus) == 0
  {
    var path := Tile(Path, false, false);
    var blank := seq(BOARD_SIZE, _ => seq(BOARD_SIZE, _ => path));
    assert FreshBoard() == Update(blank, GOAL, Tile(Goal, false, false));
    forall k | true
      ensures CountKind(FreshBoard(), k) + Indicator(path, k)
           == BOARD_SIZE * BOARD_SIZE * Indicator(path, k) + Indicator(Tile(Goal, false, false), k)
    {
      CountUniformBoard(blank, path, k);
      CountUpdate(blank, GOAL, Tile(Goal, false, false), k);
    }
  }

  // ---------------------------------------------------------------------
  // Rejection-sampling placement

  predicate AllInBounds(picks: seq<Cell>) {
    forall k :: 0 <= k < |picks| ==> InBounds(picks[k])
  }

  /** What is left of the picks after some are consumed is still on the board. */
  lemma SuffixInBounds(picks: seq<Cell>, n: nat)
    requires AllInBounds(picks) && n <= |picks|
    ensures AllInBounds(picks[n..])
  {
    forall k | 0 <= k < |picks[n..]| ensures InBounds(picks[n..][k]) {
      assert picks[n..][k] == picks[n + k];
    }
  }

  /** A picked cell is taken only if it is still a path tile and not the goal. */
  predicate Accepts(b: Board, p: Cell)
    requires WellFormed(b) && InBounds(p)
  {
    At(b, p).kind == Path && p != GOAL
  }

  /** The board after placement and how many picks the placement consumed. */
  datatype Placement = Placement(board: Board, used: nat)

  /** Draws picks until `count` items of `kind` are placed; `None` when the
      picks run out first (the random generator would have gone on drawing). */
  function PlaceItemsType(b: Board, kind: Kind, count: nat, picks: seq<Cell>): (r: Option<Placement>)
    requires WellFormed(b) && AllInBounds(picks)
    ensures r.Some? ==> WellFormed(r.value.board) && r.value.used <= |picks|
    ensures r.Some? && count > 0 ==> r.value.used > 0
    decreases |picks|
  {
    if count == 0 then Some(Placement(b, 0))
    else if picks == [] then None
    else
      var p := picks[0];
      var next :=
        if Accepts(b, p)
        then PlaceItemsType(Update(b, p, At(b, p).(kind := kind)), kind, count - 1, picks[1..])
        else PlaceItemsType(b, kind, count, picks[1..]);
      match next
      case None => None
      case Some(pl) => Some(Placement(pl.board, pl.used + 1))
  }

  /** Traps first, then bonuses, drawing from one stream of picks. */
  function PlaceItems(b: Board, picks: seq<Cell>): (r: Option<Placement>)
    requires WellFormed(b) && AllInBounds(picks)
    ensures r.Some? ==> WellFormed(r.value.board) && r.value.used <= |picks|
  {
    match PlaceItemsType(b, Trap, NUM_TRAPS, picks)
    case None => None
    case Some(traps) =>
      SuffixInBounds(picks, traps.used);
      match PlaceItemsType(traps.board, Bonus, NUM_BONUSES, picks[traps.used..])
      case None => None
      case Some(bonuses) => Some(Placement(bonuses.board, traps.used + bonuses.used))
  }

  /** Placement changes only cells it accepts, and only their kind. */
  lemma {:induction false} PlaceChangesOnlyAccepted(b: Board, kind: Kind, count: nat, picks: seq<Cell>)
    requires WellFormed(b) && AllInBounds(picks)
    requires PlaceItemsType(b, kind, count, picks).Some?
    ensures forall c :: InBounds(c) ==>
      var r := PlaceItemsType(b, kind, count, picks).value.board;
      At(r, c) == At(b, c) || (Accepts(b, c) && At(r, c) == At(b, c).(kind := kind))
    decreases |picks|
  {
    if count > 0 {
      var p := picks[0];
      var r := PlaceItemsType(b, kind, count, picks).value.board;
      if Accepts(b, p) {
        var b' := Update(b, p, At(b, p).(kind := kind));
        PlaceChangesOnlyAccepted(b', kind, count - 1, picks[1..]);
        forall c | InBounds(c)
          ensures At(r, c) == At(b, c) || (Accepts(b, c) && At(r, c) == At(b, c).(kind := kind))
        {
          if c != p {
            assert At(b', c) == At(b, c);
          }
        }
      } else {
        PlaceChangesOnlyAccepted(b, kind, count, picks[1..]);
      }
    }
  }

  /** A completed placement of `count` items of a non-path kind adds exactly
      `count` tiles of that kind and removes exactly `count` path tiles; every
      other kind keeps its count. So `count` never exceeds the path tiles. */
  lemma {:induction false} PlaceCounts(b: Board, kind: Kind, count: nat, picks: seq<Cell>)
    requires WellFormed(b) && AllInBounds(picks) && kind != Path
    requires PlaceItemsType(b, kind, count, picks).Some?
    ensures var r := PlaceItemsType(b, kind, count, picks).value.board;
      CountKind(r, kind) == CountKind(b, kind) + count
      && CountKind(r, Path) + count == CountKind(b, Path)
      && forall k :: k != kind && k != Path ==> CountKind(r, k) == CountKind(b, k)
    decreases |picks|
  {
    if count > 0 {
      var p := picks[0];
      if Accepts(b, p) {
        var t := At(b, p).(kind := kind);
        var b' := Update(b, p, t);
        PlaceCounts(b', kind, count - 1, picks[1..]);
        forall k | true ensures CountKind(b', k) + Indicator(At(b, p), k) == CountKind(b, k) + Indicator(t, k) {
          CountUpdate(b, p, t, k);
        }
      } else {
        PlaceCounts(b, kind, count, picks[1..]);
      }
    }
  }
}
