/** The game state as the source keeps it: the board as an array of row
    arrays rewritten in place, and the list of snake records.  Each method
    is proved against the value-level definitions of the modules Tick and
    Locator; the ghost field `grid` is the board's contents. */
module State {
  import opened Symbols
  import opened Board
  import opened Tick
  import opened Locator

  /** `game_state_t`: the board rows and the snake records. */
  class GameState {
    var board: array<array<char>>
    var snakes: seq<Snake>
    ghost var grid: Grid

    /** The row arrays. */
    ghost function Rows(): set<array<char>>
      reads this`board, board
    {
      set r | 0 <= r < board.Length :: board[r]
    }

    /** The rows are distinct arrays and hold exactly `grid`. */
    ghost predicate Valid()
      reads this`board, this`grid, board, Rows()
    {
      && |grid| == board.Length
      && (forall r, r' :: 0 <= r < r' < board.Length ==> board[r] != board[r'])
      && (forall r :: 0 <= r < board.Length ==> board[r][..] == grid[r])
    }

    /** A state over a loaded board, before the snakes are located. */
    constructor (rows: array<array<char>>)
      requires forall r, r' :: 0 <= r < r' < rows.Length ==> rows[r] != rows[r']
      ensures Valid() && board == rows && snakes == []
      ensures |grid| == rows.Length && forall r :: 0 <= r < rows.Length ==> grid[r] == rows[r][..]
    {
      board := rows;
      snakes := [];
      ghost var g: Grid := [];
      for r := 0 to rows.Length
        invariant |g| == r && forall k :: 0 <= k < r ==> g[k] == rows[k][..]
      {
        g := g + [rows[r][..]];
      }
      grid := g;
    }

    /** `get_board_at` */
    method BoardAt(row: int, col: int) returns (ch: char)
      requires Valid() && InBounds(grid, (row, col))
      ensures ch == At(grid, (row, col))
    {
      ch := board[row][col];
    }

    /** `strlen` of row `row`: its stored characters, newline included. */
    method RowLength(row: nat) returns (n: nat)
      requires Valid() && row < |grid|
      ensures n == |grid[row]|
    {
      n := board[row].Length;
      assert board[row][..] == grid[row];
    }

    /** `set_board_at` */
    method SetBoardAt(row: int, col: int, ch: char)
      requires Valid() && InBounds(grid, (row, col))
      modifies this`grid, board[row]
      ensures Valid() && grid == Put(old(grid), (row, col), ch)
    {
      board[row][col] := ch;
      grid := Put(grid, (row, col), ch);
    }

    /** `next_square`: reads the destination of snake `snum`'s head and
        changes nothing. */
    method NextSquare(snum: nat) returns (ch: char)
      requires Valid() && snum < |snakes| && HeadSafe(grid, snakes[snum])
      ensures ch == Tick.NextSquare(grid, snakes[snum])
    {
      var s := snakes[snum];
      var c := BoardAt(s.headRow, s.headCol);
      ch := BoardAt(NextRow(s.headRow, c), NextCol(s.headCol, c));
    }

    /** `update_head` */
    method UpdateHead(snum: nat)
      requires Valid() && snum < |snakes| && HeadSafe(grid, snakes[snum])
      modifies this`grid, this`snakes, Rows()
      ensures Valid() && |snakes| == |old(snakes)|
      ensures (grid, snakes[snum]) == Tick.UpdateHead(old(grid), old(snakes[snum]))
      ensures snakes == old(snakes)[snum := snakes[snum]]
    {
      var s := snakes[snum];
      var c := BoardAt(s.headRow, s.headCol);
      var nextRow, nextCol := NextRow(s.headRow, c), NextCol(s.headCol, c);
      SetBoardAt(nextRow, nextCol, c);
      SetBoardAt(s.headRow, s.headCol, HeadToBody(c));
      snakes := snakes[snum := s.(headRow := nextRow, headCol := nextCol)];
    }

    /** `update_tail` */
    method UpdateTail(snum: nat)
      requires Valid() && snum < |snakes| && TailSafe(grid, snakes[snum])
      modifies this`grid, this`snakes, Rows()
      ensures Valid() && |snakes| == |old(snakes)|
      ensures (grid, snakes[snum]) == Tick.UpdateTail(old(grid), old(snakes[snum]))
      ensures snakes == old(snakes)[snum := snakes[snum]]
    {
      var s := snakes[snum];
      var c := BoardAt(s.tailRow, s.tailCol);
      var nextRow, nextCol := NextRow(s.tailRow, c), NextCol(s.tailCol, c);
      c := BoardAt(nextRow, nextCol);
      SetBoardAt(nextRow, nextCol, BodyToTail(c));
      SetBoardAt(s.tailRow, s.tailCol, ' ');
      snakes := snakes[snum := s.(tailRow := nextRow, tailCol := nextCol)];
    }

    /** The board, the records and the callback's state as one value. */
    ghost function Snapshot(food: FoodSupply): World
      reads this, food
    {
      World(grid, snakes, food.Feeder())
    }

    /** One iteration of `update_state`'s loop: snake `snum`'s destination
        is read; a live snake then dies, grows and calls `add_food`, or
        moves. */
    method Turn(snum: nat, food: FoodSupply)
      requires Valid() && snum < |snakes| && StepSafe(grid, snakes[snum])
      modifies this`grid, this`snakes, Rows(), food
      ensures Valid() && board == old(board)
      ensures Snapshot(food) == Step(old(Snapshot(food)), snum)
    {
      var nextC := NextSquare(snum);
      if snakes[snum].live {
        if nextC == '#' || IsSnake(nextC) {
          Die(snum, food);
        } else if nextC == '*' {
          Grow(snum, food);
        } else {
          Advance(snum, food);
        }
      }
    }

    /** A live snake facing a wall or a snake: its head becomes 'x' and its
        record is marked dead. */
    method Die(snum: nat, food: FoodSupply)
      requires Valid() && snum < |snakes| && StepSafe(grid, snakes[snum]) && snakes[snum].live
      requires Classify(Tick.NextSquare(grid, snakes[snum])) == Tick.Collide
      modifies this`grid, this`snakes, Rows()
      ensures Valid() && board == old(board)
      ensures Snapshot(food) == Step(old(Snapshot(food)), snum)
    {
      StepCollide(Snapshot(food), snum);
      var s := snakes[snum];
      snakes := snakes[snum := s.(live := false)];
      SetBoardAt(s.headRow, s.headCol, 'x');
    }

    /** A live snake facing food: the head moves, the tail stays and
        `add_food` is called. */
    method Grow(snum: nat, food: FoodSupply)
      requires Valid() && snum < |snakes| && StepSafe(grid, snakes[snum]) && snakes[snum].live
      requires Classify(Tick.NextSquare(grid, snakes[snum])) == Tick.Grow
      modifies this`grid, this`snakes, Rows(), food
      ensures Valid() && board == old(board)
      ensures Snapshot(food) == Step(old(Snapshot(food)), snum)
    {
      StepGrow(Snapshot(food), snum);
      UpdateHead(snum);
      food.AddFood(this);
    }

    /** A live snake facing an empty cell: the head and the tail move. */
    method Advance(snum: nat, food: FoodSupply)
      requires Valid() && snum < |snakes| && StepSafe(grid, snakes[snum]) && snakes[snum].live
      requires Classify(Tick.NextSquare(grid, snakes[snum])) == Tick.Advance
      modifies this`grid, this`snakes, Rows()
      ensures Valid() && board == old(board)
      ensures Snapshot(food) == Step(old(Snapshot(food)), snum)
    {
      StepAdvance(Snapshot(food), snum);
      UpdateHead(snum);
      UpdateTail(snum);
    }

    /** `update_state`: every snake in index order dies, grows or moves;
        `add_food` is the callback.  The precondition says that no access
        leaves the board; Chains.UpdateStateKeepsSound shows that it holds
        for every well-formed game. */
    method UpdateState(food: FoodSupply)
      requires Valid() && Tick.UpdateState(Snapshot(food)).Some?
      modifies this`grid, this`snakes, Rows(), food
      ensures Valid() && board == old(board)
      ensures Some(Snapshot(food)) == Tick.UpdateState(old(Snapshot(food)))
    {
      ghost var target := Tick.UpdateState(Snapshot(food));
      var i := 0;
      while i < |snakes|
        invariant Valid() && board == old(board) && i <= |snakes|
        invariant Run(Snapshot(food), i) == target
        decreases |snakes| - i
      {
        ghost var w := Snapshot(food);
        assert StepSafe(w.grid, w.snakes[i]) && Run(Step(w, i), i + 1) == target;
        Turn(i, food);
        i := i + 1;
      }
    }

    /** `find_head`: follows the characters from snake `snum`'s tail to the
        first head and records it.  The walk must meet a head; otherwise the
        source's loop never ends or leaves the board. */
    method FindHead(snum: nat)
      requires Valid() && snum < |snakes| && Reaches(grid, snakes[snum].Tail())
      modifies this`snakes
      ensures Valid()
      ensures var h := HeadOf(grid, old(snakes[snum]).Tail());
        snakes == old(snakes)[snum := old(snakes[snum]).(headRow := h.0, headCol := h.1)]
    {
      var s := snakes[snum];
      ghost var h := HeadOf(grid, s.Tail());
      ghost var fuel: nat :| FirstHead(grid, s.Tail(), fuel).Some?;
      var curRow, curCol: int := s.tailRow, s.tailCol;
      var curC := BoardAt(curRow, curCol);
      while !IsHead(curC)
        invariant InBounds(grid, (curRow, curCol)) && curC == At(grid, (curRow, curCol))
        invariant FirstHead(grid, (curRow, curCol), fuel) == Some(h)
        invariant snakes == old(snakes)
        decreases fuel
      {
        curRow, curCol := NextRow(curRow, curC), NextCol(curCol, curC);
        fuel := fuel - 1;
        curC := BoardAt(curRow, curCol);
      }
      snakes := snakes[snum := s.(headRow := curRow, headCol := curCol)];
    }

    /** `initialize_snakes`: one live record per tail character in the
        scanned columns, in row-major order, each with the head `find_head`
        finds. */
    method InitializeSnakes()
      requires Valid() && RowsTerminated(grid) && AllTailsReach(grid)
      modifies this`snakes
      ensures snakes == Locate(grid)
    {
      ghost var g := grid;
      snakes := [];
      var numRows := board.Length;
      assert numRows == |g|;
      assert LocatedRows(g, 0) == [];
      for i := 0 to numRows
        invariant grid == g && Valid()
        invariant snakes == LocatedRows(g, i)
      {
        ScanRowForTails(i);
      }
      assert snakes == LocatedRows(g, |g|);
    }

    /** A new live record with its tail at (`row`, `col`) and the head
        `find_head` finds from there. */
    method AddSnake(row: nat, col: nat)
      requires Valid() && InBounds(grid, (row, col)) && Reaches(grid, (row, col))
      modifies this`snakes
      ensures Valid() && snakes == old(snakes) + [Record(grid, (row, col))]
    {
      snakes := snakes + [Snake(0, 0, row, col, true)];
      FindHead(|snakes| - 1);
    }

    /** The inner loop of `initialize_snakes` over row `i`: a record for
        each tail in the scanned columns, left to right. */
    method ScanRowForTails(i: nat)
      requires Valid() && RowsTerminated(grid) && AllTailsReach(grid) && i < |grid|
      requires snakes == LocatedRows(grid, i)
      modifies this`snakes
      ensures Valid() && snakes == LocatedRows(grid, i + 1)
    {
      ghost var g := grid;
      var width := RowLength(i);
      for j := 0 to width - 1
        invariant grid == g && Valid()
        invariant snakes == LocatedUpTo(g, i, j)
      {
        var c := BoardAt(i, j);
        if IsTail(c) {
          ScannedTailReaches(g, i, j);
          AddSnake(i, j);
        }
      }
    }
  }

  /** A stand-in for the `add_food` callback, whose implementation is not
      part of this model: it tries the candidate cells in order and counts
      its calls. */
  class FoodSupply {
    var spots: seq<Cell>
    var calls: nat

    constructor (spots: seq<Cell>)
      ensures this.spots == spots && calls == 0
    {
      this.spots := spots;
      calls := 0;
    }

    ghost function Feeder(): Feeder
      reads this
    {
      Tick.Feeder(spots, calls)
    }

    /** One call of the callback: food on the next candidate cell when that
        cell is an empty playing cell. */
    method AddFood(state: GameState)
      requires state.Valid()
      modifies this, state`grid, state.Rows()
      ensures state.Valid()
      ensures (state.grid, Feeder()) == Tick.AddFood(old(state.grid), old(Feeder()))
    {
      if spots != [] {
        var p := spots[0];
        if 0 <= p.0 < state.board.Length && 0 <= p.1 < state.board[p.0].Length - 1 {
          var ch := state.BoardAt(p.0, p.1);
          if ch == ' ' {
            state.SetBoardAt(p.0, p.1, '*');
          }
        }
        spots := spots[1..];
      }
      calls := calls + 1;
    }
  }
}
