/** Values of the game: the board as rows of characters and the per-snake
    record that caches where a snake's head and tail are. */
module Board {
  import opened Symbols

  datatype Option<T> = None | Some(value: T)

  /** The board, row by row.  Each row holds the characters of one line of
      the board text, its trailing newline included, so the last column of
      a row is never a playing cell. */
  type Grid = seq<seq<char>>

  /** A (row, column) position; a step off row or column 0 gives -1. */
  type Cell = (int, int)

  /** `snake_t`: where the head and the tail are, and whether the snake is
      alive. */
  datatype Snake = Snake(headRow: nat, headCol: nat, tailRow: nat, tailCol: nat, live: bool) {
    function Head(): Cell { (headRow, headCol) }
    function Tail(): Cell { (tailRow, tailCol) }
  }

  /** The position the character `c` points to from `p`. */
  function Toward(p: Cell, c: char): Cell {
    (NextRow(p.0, c), NextCol(p.1, c))
  }

  /** A position inside the stored characters of its row. */
  predicate InBounds(g: Grid, p: Cell) {
    0 <= p.0 < |g| && 0 <= p.1 < |g[p.0]|
  }

  /** A playing cell: in bounds and not the row's trailing newline. */
  predicate Addressable(g: Grid, p: Cell) {
    0 <= p.0 < |g| && 0 <= p.1 < |g[p.0]| - 1
  }

  /** `get_board_at` */
  function At(g: Grid, p: Cell): char
    requires InBounds(g, p)
  {
    g[p.0][p.1]
  }

  /** Two boards with the same number of rows and the same row widths. */
  predicate SameShape(g: Grid, h: Grid) {
    |g| == |h| && forall r :: 0 <= r < |g| ==> |g[r]| == |h[r]|
  }

  /** `set_board_at`: the board with one cell rewritten. */
  function Put(g: Grid, p: Cell, ch: char): (h: Grid)
    requires InBounds(g, p)
    ensures SameShape(g, h)
    ensures At(h, p) == ch
    ensures forall q :: InBounds(g, q) && q != p ==> At(h, q) == At(g, q)
  {
    g[p.0 := g[p.0][p.1 := ch]]
  }

  /** A board whose walls fence in every playing cell that is not a wall:
      its four neighbours are playing cells too, so that no step from such a
      cell leaves the board.  A board with a border of '#' is enclosed. */
  ghost predicate Enclosed(g: Grid) {
    forall p :: Addressable(g, p) && At(g, p) != '#' ==>
      Addressable(g, (p.0 - 1, p.1)) && Addressable(g, (p.0 + 1, p.1)) &&
      Addressable(g, (p.0, p.1 - 1)) && Addressable(g, (p.0, p.1 + 1))
  }

  /** From a playing cell that is not a wall, a step in any direction lands
      on a playing cell. */
  lemma EnclosedStep(g: Grid, p: Cell, c: char)
    requires Enclosed(g) && Addressable(g, p) && At(g, p) != '#'
    ensures Addressable(g, Toward(p, c))
  {
    UnitStep(p.0, p.1, c);
  }

  /** Rewriting cells without turning any playing cell into a non-wall that
      was a wall keeps the board enclosed. */
  lemma EnclosedFrame(g: Grid, h: Grid)
    requires Enclosed(g) && SameShape(g, h)
    requires forall p :: Addressable(g, p) && At(h, p) != '#' ==> At(g, p) != '#'
    ensures Enclosed(h)
  {
    forall p | Addressable(h, p) && At(h, p) != '#'
      ensures Addressable(h, (p.0 - 1, p.1)) && Addressable(h, (p.0 + 1, p.1)) &&
              Addressable(h, (p.0, p.1 - 1)) && Addressable(h, (p.0, p.1 + 1))
    {
      assert Addressable(g, p) && At(g, p) != '#';
    }
  }
}
