/** The snake locator as values: `find_head` follows the characters from a
    tail until it meets a head, and `initialize_snakes` scans the board row
    by row for tails and builds one live record per tail. */
module Locator {
  import opened Symbols
  import opened Board

  /** `find_head` with at most `fuel` steps: the first head character met
      on the walk from `p`.  None when the walk leaves the board first (the
      source reads outside its rows) or needs more steps (the source's loop
      has no bound; a walk that never meets a head loops forever). */
  function FirstHead(g: Grid, p: Cell, fuel: nat): (r: Option<Cell>)
    ensures r.Some? ==> InBounds(g, r.value) && IsHead(At(g, r.value))
    decreases fuel
  {
    if !InBounds(g, p) then None
    else if IsHead(At(g, p)) then Some(p)
    else if fuel == 0 then None
    else FirstHead(g, Toward(p, At(g, p)), fuel - 1)
  }

  /** The walk from `p`: `k` steps, each in the direction of the character
      under it (a position off the board stays put). */
  function Walk(g: Grid, p: Cell, k: nat): Cell
    decreases k
  {
    if k == 0 then p
    else if InBounds(g, p) then Walk(g, Toward(p, At(g, p)), k - 1)
    else p
  }

  /** The walk from `p` stays on the board and meets no head before step
      `k`, and meets one at step `k`. */
  predicate FirstHeadAfter(g: Grid, p: Cell, k: nat) {
    && (forall j: nat :: j < k ==> InBounds(g, Walk(g, p, j)) && !IsHead(At(g, Walk(g, p, j))))
    && InBounds(g, Walk(g, p, k)) && IsHead(At(g, Walk(g, p, k)))
  }

  /** `find_head` returns exactly the first head on the walk from the tail,
      reached within the fuel. */
  lemma {:induction false} FirstHeadOnWalk(g: Grid, p: Cell, fuel: nat, h: Cell)
    ensures FirstHead(g, p, fuel) == Some(h) <==>
            exists k: nat :: k <= fuel && FirstHeadAfter(g, p, k) && Walk(g, p, k) == h
  {
    if FirstHead(g, p, fuel) == Some(h) {
      var k := FirstHeadIndex(g, p, fuel);
      assert k <= fuel && FirstHeadAfter(g, p, k) && Walk(g, p, k) == h;
    }
    if exists k: nat :: k <= fuel && FirstHeadAfter(g, p, k) && Walk(g, p, k) == h {
      var k: nat :| k <= fuel && FirstHeadAfter(g, p, k) && Walk(g, p, k) == h;
      FirstHeadFromIndex(g, p, fuel, k);
    }
  }

  /** The number of steps after which `find_head` stops. */
  lemma {:induction false} FirstHeadIndex(g: Grid, p: Cell, fuel: nat) returns (k: nat)
    requires FirstHead(g, p, fuel).Some?
    ensures k <= fuel && FirstHeadAfter(g, p, k) && Walk(g, p, k) == FirstHead(g, p, fuel).value
    decreases fuel
  {
    if IsHead(At(g, p)) {
      k := 0;
    } else {
      var q := Toward(p, At(g, p));
      var k' := FirstHeadIndex(g, q, fuel - 1);
      k := k' + 1;
      forall j: nat | j < k
        ensures InBounds(g, Walk(g, p, j)) && !IsHead(At(g, Walk(g, p, j)))
      {
        if j > 0 {
          assert Walk(g, p, j) == Walk(g, q, j - 1);
        }
      }
      assert Walk(g, p, k) == Walk(g, q, k');
    }
  }

  /** A walk that first meets a head at step `k` makes `find_head` stop
      there whenever the fuel allows `k` steps. */
  lemma {:induction false} FirstHeadFromIndex(g: Grid, p: Cell, fuel: nat, k: nat)
    requires k <= fuel && FirstHeadAfter(g, p, k)
    ensures FirstHead(g, p, fuel) == Some(Walk(g, p, k))
    decreases k
  {
    if k > 0 {
      assert InBounds(g, Walk(g, p, 0)) && !IsHead(At(g, Walk(g, p, 0)));
      var q := Toward(p, At(g, p));
      forall j: nat | j < k - 1
        ensures InBounds(g, Walk(g, q, j)) && !IsHead(At(g, Walk(g, q, j)))
      {
        assert Walk(g, p, j + 1) == Walk(g, q, j);
      }
      assert Walk(g, p, k) == Walk(g, q, k - 1);
      FirstHeadFromIndex(g, q, fuel - 1, k - 1);
    }
  }

  /** More fuel does not change what `find_head` finds. */
  lemma {:induction false} FirstHeadFuel(g: Grid, p: Cell, fuel: nat, more: nat)
    requires FirstHead(g, p, fuel).Some? && fuel <= more
    ensures FirstHead(g, p, more) == FirstHead(g, p, fuel)
    decreases fuel
  {
    if InBounds(g, p) && !IsHead(At(g, p)) {
      FirstHeadFuel(g, Toward(p, At(g, p)), fuel - 1, more - 1);
    }
  }

  /** The walk from `p` meets a head: `find_head`'s loop ends. */
  ghost predicate Reaches(g: Grid, p: Cell) {
    exists fuel: nat :: FirstHead(g, p, fuel).Some?
  }

  /** The head `find_head` finds from `p`. */
  ghost function HeadOf(g: Grid, p: Cell): (h: Cell)
    requires Reaches(g, p)
    ensures InBounds(g, h) && IsHead(At(g, h))
    ensures forall fuel: nat :: FirstHead(g, p, fuel).Some? ==> FirstHead(g, p, fuel) == Some(h)
  {
    var fuel: nat :| FirstHead(g, p, fuel).Some?;
    HeadOfAnyFuel(g, p, fuel);
    FirstHead(g, p, fuel).value
  }

  lemma HeadOfAnyFuel(g: Grid, p: Cell, fuel: nat)
    requires FirstHead(g, p, fuel).Some?
    ensures forall f: nat :: FirstHead(g, p, f).Some? ==> FirstHead(g, p, f) == FirstHead(g, p, fuel)
  {
    forall f: nat | FirstHead(g, p, f).Some?
      ensures FirstHead(g, p, f) == FirstHead(g, p, fuel)
    {
      if f <= fuel { FirstHeadFuel(g, p, f, fuel); } else { FirstHeadFuel(g, p, fuel, f); }
    }
  }

  /** Every line read from the board text ends in a newline, so no row is
      empty and `strlen(row) - 1` is the number of scanned columns. */
  predicate RowsTerminated(g: Grid) {
    forall r :: 0 <= r < |g| ==> |g[r]| >= 1
  }

  /** The tails among the first `j` columns of row `r`, left to right. */
  function ScanRow(g: Grid, r: nat, j: nat): seq<Cell>
    requires r < |g| && j < |g[r]|
  {
    if j == 0 then []
    else ScanRow(g, r, j - 1) + (if IsTail(g[r][j - 1]) then [(r as int, j - 1)] else [])
  }

  /** The tails of the first `i` rows in row-major order. */
  function ScanRows(g: Grid, i: nat): seq<Cell>
    requires RowsTerminated(g) && i <= |g|
  {
    if i == 0 then []
    else ScanRows(g, i - 1) + ScanRow(g, i - 1, |g[i - 1]| - 1)
  }

  lemma ScanRowsNext(g: Grid, i: nat)
    requires RowsTerminated(g) && i < |g|
    ensures ScanRows(g, i + 1) == ScanRows(g, i) + ScanRow(g, i, |g[i]| - 1)
  {
  }

  /** The tails `initialize_snakes` finds, in the order it finds them. */
  function Tails(g: Grid): seq<Cell>
    requires RowsTerminated(g)
  {
    ScanRows(g, |g|)
  }

  /** Row-major order of positions. */
  predicate Before(p: Cell, q: Cell) {
    p.0 < q.0 || (p.0 == q.0 && p.1 < q.1)
  }

  lemma {:induction false} ScanRowExactly(g: Grid, r: nat, j: nat)
    requires r < |g| && j < |g[r]|
    ensures forall p :: p in ScanRow(g, r, j) <==> p.0 == r && 0 <= p.1 < j && IsTail(g[r][p.1])
    ensures forall a, b :: 0 <= a < b < |ScanRow(g, r, j)| ==>
              ScanRow(g, r, j)[a].0 == r && ScanRow(g, r, j)[a].1 < ScanRow(g, r, j)[b].1
    decreases j
  {
    if j > 0 {
      ScanRowExactly(g, r, j - 1);
      var front, row := ScanRow(g, r, j - 1), ScanRow(g, r, j);
      if IsTail(g[r][j - 1]) {
        assert row == front + [(r as int, j - 1)];
        forall a, b | 0 <= a < b < |row|
          ensures row[a].0 == r && row[a].1 < row[b].1
        {
          assert row[a] == front[a];
          assert front[a] in front;
        }
      } else {
        assert row == front;
      }
    } else {
      assert ScanRow(g, r, j) == [];
    }
  }

  lemma {:induction false} ScanRowsExactly(g: Grid, i: nat)
    requires RowsTerminated(g) && i <= |g|
    ensures forall p :: p in ScanRows(g, i) <==> 0 <= p.0 < i && Addressable(g, p) && IsTail(At(g, p))
    ensures forall a, b :: 0 <= a < b < |ScanRows(g, i)| ==> Before(ScanRows(g, i)[a], ScanRows(g, i)[b])
    decreases i
  {
    if i > 0 {
      ScanRowsExactly(g, i - 1);
      ScanRowExactly(g, i - 1, |g[i - 1]| - 1);
      var front, row := ScanRows(g, i - 1), ScanRow(g, i - 1, |g[i - 1]| - 1);
      assert ScanRows(g, i) == front + row;
      forall a, b | 0 <= a < b < |front + row|
        ensures Before((front + row)[a], (front + row)[b])
      {
        if b >= |front| && a < |front| {
          assert front[a] in front;
          assert row[b - |front|] in row;
        }
      }
    }
  }

  /** `initialize_snakes` finds every tail character in the scanned columns
      of every row and nothing else, each once, in row-major order. */
  lemma TailsExactly(g: Grid)
    requires RowsTerminated(g)
    ensures forall p :: p in Tails(g) <==> Addressable(g, p) && IsTail(At(g, p))
    ensures forall a, b :: 0 <= a < b < |Tails(g)| ==> Before(Tails(g)[a], Tails(g)[b])
  {
    ScanRowsExactly(g, |g|);
  }

  /** The walk from every scanned tail meets a head. */
  ghost predicate AllTailsReach(g: Grid)
    requires RowsTerminated(g)
  {
    Traceable(g, Tails(g))
  }

  /** Positions on the board whose walks meet a head. */
  ghost predicate Traceable(g: Grid, ts: seq<Cell>) {
    forall k :: 0 <= k < |ts| ==> InBounds(g, ts[k]) && Reaches(g, ts[k])
  }

  lemma TailReaches(g: Grid, p: Cell)
    requires RowsTerminated(g) && AllTailsReach(g) && p in Tails(g)
    ensures InBounds(g, p) && Reaches(g, p)
  {
    var k :| 0 <= k < |Tails(g)| && Tails(g)[k] == p;
  }

  /** The tails scanned in the rows before `i` are traceable. */
  lemma RowsTraceable(g: Grid, i: nat)
    requires RowsTerminated(g) && AllTailsReach(g) && i <= |g|
    ensures Traceable(g, ScanRows(g, i))
  {
    ScanRowsExactly(g, i);
    TailsExactly(g);
    var ts := ScanRows(g, i);
    forall k | 0 <= k < |ts|
      ensures InBounds(g, ts[k]) && Reaches(g, ts[k])
    {
      assert ts[k] in ts;
      TailReaches(g, ts[k]);
    }
  }

  /** The tails scanned before row `i`, column `j` are traceable. */
  lemma ScannedTraceable(g: Grid, i: nat, j: nat)
    requires RowsTerminated(g) && AllTailsReach(g) && i < |g| && j < |g[i]|
    ensures Traceable(g, ScanRows(g, i) + ScanRow(g, i, j))
  {
    ScanRowsExactly(g, i);
    ScanRowExactly(g, i, j);
    TailsExactly(g);
    var ts := ScanRows(g, i) + ScanRow(g, i, j);
    forall k | 0 <= k < |ts|
      ensures InBounds(g, ts[k]) && Reaches(g, ts[k])
    {
      if k < |ScanRows(g, i)| {
        assert ts[k] in ScanRows(g, i);
      } else {
        assert ts[k] in ScanRow(g, i, j);
      }
      TailReaches(g, ts[k]);
    }
  }

  /** The record `initialize_snakes` appends for the tail at `t`. */
  ghost function Record(g: Grid, t: Cell): (s: Snake)
    requires InBounds(g, t) && Reaches(g, t)
    ensures s.live && s.Tail() == t && s.Head() == HeadOf(g, t)
  {
    var h := HeadOf(g, t);
    Snake(h.0, h.1, t.0, t.1, true)
  }

  /** The records for the tails `ts`, in order. */
  ghost function Located(g: Grid, ts: seq<Cell>): seq<Snake>
    requires Traceable(g, ts)
  {
    if ts == [] then [] else Located(g, ts[..|ts| - 1]) + [Record(g, ts[|ts| - 1])]
  }

  /** One live record per tail, keeping the tail where it was found and
      holding the head `find_head` reaches from it. */
  lemma {:induction false} LocatedExactly(g: Grid, ts: seq<Cell>)
    requires Traceable(g, ts)
    ensures |Located(g, ts)| == |ts|
    ensures forall k :: 0 <= k < |ts| ==>
              Located(g, ts)[k].live && Located(g, ts)[k].Tail() == ts[k]
              && Located(g, ts)[k].Head() == HeadOf(g, ts[k])
  {
    if ts != [] {
      LocatedExactly(g, ts[..|ts| - 1]);
    }
  }

  lemma LocatedNext(g: Grid, ts: seq<Cell>, t: Cell)
    requires Traceable(g, ts + [t])
    ensures Traceable(g, ts) && InBounds(g, t) && Reaches(g, t)
    ensures Located(g, ts + [t]) == Located(g, ts) + [Record(g, t)]
  {
    assert (ts + [t])[..|ts|] == ts;
    assert (ts + [t])[|ts|] == t;
    assert InBounds(g, t) && Reaches(g, t);
  }

  /** The tail at (`i`, `j`) of a scanned column reaches a head. */
  lemma ScannedTailReaches(g: Grid, i: nat, j: nat)
    requires RowsTerminated(g) && AllTailsReach(g) && i < |g| && j < |g[i]| - 1 && IsTail(g[i][j])
    ensures InBounds(g, (i, j)) && Reaches(g, (i, j))
  {
    TailsExactly(g);
    TailReaches(g, (i, j));
  }

  /** The records `initialize_snakes` holds once it has scanned the rows
      before `i`. */
  ghost function LocatedRows(g: Grid, i: nat): seq<Snake>
    requires RowsTerminated(g) && AllTailsReach(g) && i <= |g|
    decreases i, 0, 0
  {
    if i == 0 then [] else LocatedUpTo(g, i - 1, |g[i - 1]| - 1)
  }

  /** The records `initialize_snakes` holds once it has scanned the rows
      before `i` and the first `j` columns of row `i`: each tail character
      met adds one record at the end. */
  ghost function LocatedUpTo(g: Grid, i: nat, j: nat): seq<Snake>
    requires RowsTerminated(g) && AllTailsReach(g) && i < |g| && j < |g[i]|
    decreases i, 1, j
  {
    if j == 0 then LocatedRows(g, i)
    else if IsTail(g[i][j - 1]) then
      ScannedTailReaches(g, i, j - 1);
      LocatedUpTo(g, i, j - 1) + [Record(g, (i, j - 1))]
    else LocatedUpTo(g, i, j - 1)
  }

  /** `initialize_snakes` on a loaded board. */
  ghost function Locate(g: Grid): seq<Snake>
    requires RowsTerminated(g) && AllTailsReach(g)
  {
    LocatedRows(g, |g|)
  }

  /** The scan so far holds the records of the tails scanned so far. */
  lemma {:induction false} LocatedRowsAreLocated(g: Grid, i: nat)
    requires RowsTerminated(g) && AllTailsReach(g) && i <= |g|
    ensures Traceable(g, ScanRows(g, i)) && LocatedRows(g, i) == Located(g, ScanRows(g, i))
    decreases i, 0, 0
  {
    RowsTraceable(g, i);
    if i > 0 {
      LocatedUpToAreLocated(g, i - 1, |g[i - 1]| - 1);
      ScanRowsNext(g, i - 1);
    }
  }

  lemma {:induction false} LocatedUpToAreLocated(g: Grid, i: nat, j: nat)
    requires RowsTerminated(g) && AllTailsReach(g) && i < |g| && j < |g[i]|
    ensures Traceable(g, ScanRows(g, i) + ScanRow(g, i, j))
    ensures LocatedUpTo(g, i, j) == Located(g, ScanRows(g, i) + ScanRow(g, i, j))
    decreases i, 1, j
  {
    if j == 0 {
      LocatedRowsAreLocated(g, i);
      assert ScanRows(g, i) + ScanRow(g, i, 0) == ScanRows(g, i);
    } else {
      LocatedUpToAreLocated(g, i, j - 1);
      LocatedUpToStep(g, i, j - 1);
    }
  }

  /** The step of the induction above: one more column on both sides. */
  lemma LocatedUpToStep(g: Grid, i: nat, j: nat)
    requires RowsTerminated(g) && AllTailsReach(g) && i < |g| && j + 1 < |g[i]|
    requires Traceable(g, ScanRows(g, i) + ScanRow(g, i, j))
    requires LocatedUpTo(g, i, j) == Located(g, ScanRows(g, i) + ScanRow(g, i, j))
    ensures Traceable(g, ScanRows(g, i) + ScanRow(g, i, j + 1))
    ensures LocatedUpTo(g, i, j + 1) == Located(g, ScanRows(g, i) + ScanRow(g, i, j + 1))
  {
    LocatedColumn(g, i, j);
    LocatedUpToNext(g, i, j);
  }

  lemma LocatedUpToNext(g: Grid, i: nat, j: nat)
    requires RowsTerminated(g) && AllTailsReach(g) && i < |g| && j + 1 < |g[i]|
    ensures IsTail(g[i][j]) ==> InBounds(g, (i, j)) && Reaches(g, (i, j))
    ensures LocatedUpTo(g, i, j + 1) ==
            LocatedUpTo(g, i, j) + (if IsTail(g[i][j]) then [Record(g, (i, j))] else [])
  {
    if IsTail(g[i][j]) {
      ScannedTailReaches(g, i, j);
    }
  }

  /** Scanning column `j` of row `i` adds the record of the tail there, if
      any. */
  lemma LocatedColumn(g: Grid, i: nat, j: nat)
    requires RowsTerminated(g) && AllTailsReach(g) && i < |g| && j + 1 < |g[i]|
    ensures Traceable(g, ScanRows(g, i) + ScanRow(g, i, j))
    ensures Traceable(g, ScanRows(g, i) + ScanRow(g, i, j + 1))
    ensures IsTail(g[i][j]) ==> InBounds(g, (i, j)) && Reaches(g, (i, j))
    ensures Located(g, ScanRows(g, i) + ScanRow(g, i, j + 1)) ==
            Located(g, ScanRows(g, i) + ScanRow(g, i, j))
            + (if IsTail(g[i][j]) then [Record(g, (i, j))] else [])
  {
    ScannedTraceable(g, i, j);
    ScannedTraceable(g, i, j + 1);
    var ts := ScanRows(g, i) + ScanRow(g, i, j);
    if IsTail(g[i][j]) {
      assert ts + [(i, j)] == ScanRows(g, i) + ScanRow(g, i, j + 1);
      LocatedNext(g, ts, (i, j));
    } else {
      assert ScanRow(g, i, j + 1) == ScanRow(g, i, j);
    }
  }

  /** `initialize_snakes` builds exactly one record per tail character in
      the scanned columns, in row-major order; each is live, keeps its tail
      where it was found and holds the head `find_head` reaches from it. */
  lemma LocateExactly(g: Grid)
    requires RowsTerminated(g) && AllTailsReach(g)
    ensures |Locate(g)| == |Tails(g)|
    ensures forall k :: 0 <= k < |Locate(g)| ==>
              && Locate(g)[k].live && Locate(g)[k].Tail() == Tails(g)[k]
              && Reaches(g, Tails(g)[k]) && Locate(g)[k].Head() == HeadOf(g, Tails(g)[k])
    ensures forall p :: Addressable(g, p) && IsTail(At(g, p)) <==>
              exists k :: 0 <= k < |Locate(g)| && Locate(g)[k].Tail() == p
    ensures forall a, b :: 0 <= a < b < |Locate(g)| ==>
              Before(Locate(g)[a].Tail(), Locate(g)[b].Tail())
  {
    LocatedRowsAreLocated(g, |g|);
    LocatedExactly(g, Tails(g));
    TailsExactly(g);
    var ss, ts := Locate(g), Tails(g);
    forall p | Addressable(g, p) && IsTail(At(g, p))
      ensures exists k :: 0 <= k < |ss| && ss[k].Tail() == p
    {
      assert p in ts;
      var k :| 0 <= k < |ts| && ts[k] == p;
      assert ss[k].Tail() == p;
    }
    forall p | exists k :: 0 <= k < |ss| && ss[k].Tail() == p
      ensures Addressable(g, p) && IsTail(At(g, p))
    {
      var k :| 0 <= k < |ss| && ss[k].Tail() == p;
      assert ts[k] in ts;
    }
  }
}
