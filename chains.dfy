/** Well-formed games.  On a board enclosed by walls, every snake's body is
    a chain of cells from its tail to its head, each cell's character
    pointing at the next; the chains of different snakes do not overlap.
    One tick keeps all of this, never leaves the board, moves a snake by
    one cell without changing its length, grows it by exactly one cell on
    food, and leaves dead snakes alone; and after it every record's head is
    still the one `find_head` finds from the record's tail. */
module Chains {
  import opened Symbols
  import opened Board
  import opened Tick
  import opened Locator

  predicate Distinct(cs: seq<Cell>) {
    forall a, b :: 0 <= a < b < |cs| ==> cs[a] != cs[b]
  }

  predicate Disjoint(xs: seq<Cell>, ys: seq<Cell>) {
    forall p :: p in xs ==> p !in ys
  }

  /** Tail first, head last, at least two cells, none twice. */
  predicate Ends(s: Snake, cs: seq<Cell>) {
    2 <= |cs| && cs[0] == s.Tail() && cs[|cs| - 1] == s.Head() && Distinct(cs)
  }

  predicate OnBoard(g: Grid, cs: seq<Cell>) {
    forall k :: 0 <= k < |cs| ==> Addressable(g, cs[k])
  }

  /** A tail character, then body characters, then a live head, or 'x' once
      the snake is dead. */
  predicate Roles(g: Grid, s: Snake, cs: seq<Cell>)
    requires 2 <= |cs| && OnBoard(g, cs)
  {
    && IsTail(At(g, cs[0]))
    && (forall k :: 0 < k < |cs| - 1 ==> IsBody(At(g, cs[k])))
    && (if s.live then IsLiveHead(At(g, cs[|cs| - 1])) else At(g, cs[|cs| - 1]) == 'x')
  }

  /** Each cell's character points at the next cell. */
  predicate Linked(g: Grid, cs: seq<Cell>)
    requires OnBoard(g, cs)
  {
    forall k :: 0 <= k < |cs| - 1 ==> Toward(cs[k], At(g, cs[k])) == cs[k + 1]
  }

  /** `cs` is the body of `s` on `g`. */
  predicate IsChain(g: Grid, s: Snake, cs: seq<Cell>) {
    Ends(s, cs) && OnBoard(g, cs) && Roles(g, s, cs) && Linked(g, cs)
  }

  /** A well-formed game with the snakes' bodies `chains`. */
  ghost predicate Sound(w: World, chains: seq<seq<Cell>>) {
    && |chains| == |w.snakes|
    && Enclosed(w.grid)
    && (forall i :: 0 <= i < |chains| ==> IsChain(w.grid, w.snakes[i], chains[i]))
    && (forall i, j :: 0 <= i < |chains| && 0 <= j < |chains| && i != j ==> Disjoint(chains[i], chains[j]))
  }

  /** `h` differs from `g` at most in the cells `touched`. */
  ghost predicate SameOutside(g: Grid, h: Grid, touched: set<Cell>) {
    SameShape(g, h) && forall q :: InBounds(g, q) && q !in touched ==> At(h, q) == At(g, q)
  }

  lemma ChainCellsAreSnake(g: Grid, s: Snake, cs: seq<Cell>)
    requires IsChain(g, s, cs)
    ensures forall p :: p in cs ==> Addressable(g, p) && IsSnake(At(g, p))
  {
    forall p | p in cs
      ensures Addressable(g, p) && IsSnake(At(g, p))
    {
      var k :| 0 <= k < |cs| && cs[k] == p;
      if 0 < k < |cs| - 1 {
        assert IsBody(At(g, cs[k]));
      }
    }
  }

  /** A chain whose cells read the same on another board of the same shape
      is a chain there too. */
  lemma ChainFrame(g: Grid, h: Grid, s: Snake, cs: seq<Cell>, touched: set<Cell>)
    requires IsChain(g, s, cs) && SameOutside(g, h, touched)
    requires forall p :: p in cs ==> p !in touched
    ensures IsChain(h, s, cs)
  {
    forall k | 0 <= k < |cs|
      ensures Addressable(h, cs[k]) && At(h, cs[k]) == At(g, cs[k])
    {
      assert cs[k] in cs;
    }
  }

  /** Rewriting only non-wall cells keeps the board enclosed. */
  lemma EnclosedKept(g: Grid, h: Grid, touched: set<Cell>)
    requires Enclosed(g) && SameOutside(g, h, touched)
    requires forall q :: q in touched ==> InBounds(g, q) && At(g, q) != '#'
    ensures Enclosed(h)
  {
    forall p | Addressable(g, p) && At(h, p) != '#'
      ensures At(g, p) != '#'
    {
    }
    EnclosedFrame(g, h);
  }

  /** An advance rewrites four cells (old head, destination, old tail and
      the cell after it), none of them a wall: the board stays enclosed. */
  lemma AdvanceKeepsEnclosed(g: Grid, h: Grid, a: Cell, b: Cell, c: Cell, e: Cell)
    requires Enclosed(g) && SameOutside(g, h, {a, b, c, e})
    requires InBounds(g, a) && At(g, a) != '#' && InBounds(g, b) && At(g, b) != '#'
    requires InBounds(g, c) && At(g, c) != '#' && InBounds(g, e) && At(g, e) != '#'
    ensures Enclosed(h)
  {
    EnclosedKept(g, h, {a, b, c, e});
  }

  lemma NotWall(g: Grid, p: Cell)
    requires InBounds(g, p) && IsSnake(At(g, p))
    ensures At(g, p) != '#'
  {
  }

  /** Collision: the head cell becomes 'x' and the body is the same chain,
      now of a dead snake. */
  lemma CollideChain(g: Grid, s: Snake, cs: seq<Cell>)
    requires IsChain(g, s, cs) && s.live
    ensures IsChain(Put(g, s.Head(), 'x'), s.(live := false), cs)
    ensures SameOutside(g, Put(g, s.Head(), 'x'), {s.Head()})
  {
    var h := Put(g, s.Head(), 'x');
    forall k | 0 <= k < |cs| - 1
      ensures At(h, cs[k]) == At(g, cs[k])
    {
      assert cs[k] != cs[|cs| - 1];
    }
  }

  /** The destination of a live head on an enclosed board is a playing
      cell, and when it holds no snake character it is not on any chain. */
  lemma DestOffChains(g: Grid, s: Snake, cs: seq<Cell>)
    requires Enclosed(g) && IsChain(g, s, cs) && s.live
    ensures HeadSafe(g, s) && Addressable(g, Dest(g, s))
    ensures !IsSnake(At(g, Dest(g, s))) ==> Dest(g, s) !in cs
  {
    ChainCellsAreSnake(g, s, cs);
    assert s.Head() in cs;
    EnclosedStep(g, s.Head(), At(g, s.Head()));
  }

  /** The cells `update_head` rewrites, when the head character moves. */
  lemma UpdateHeadCells(g: Grid, s: Snake)
    requires HeadSafe(g, s) && Dest(g, s) != s.Head()
    ensures var g2, c, d := UpdateHead(g, s).0, At(g, s.Head()), Dest(g, s);
      && SameOutside(g, g2, {s.Head(), d})
      && At(g2, s.Head()) == HeadToBody(c) && At(g2, d) == c
  {
  }

  /** A chain extended by a new head cell `d`: the old head cell now holds
      the body form of the head character, `d` holds the head character. */
  lemma {:induction false} ExtendChain(g: Grid, g2: Grid, s: Snake, cs: seq<Cell>, d: Cell)
    requires IsChain(g, s, cs) && s.live
    requires Addressable(g, d) && d !in cs && d == Toward(s.Head(), At(g, s.Head()))
    requires SameOutside(g, g2, {s.Head(), d})
    requires At(g2, s.Head()) == HeadToBody(At(g, s.Head())) && At(g2, d) == At(g, s.Head())
    ensures IsChain(g2, s.(headRow := d.0, headCol := d.1), cs + [d])
  {
    var s2 := s.(headRow := d.0, headCol := d.1);
    var cs2 := cs + [d];
    ExtendEnds(s, s2, cs, d);
    ExtendCells(g, g2, s, cs, d);
    ExtendLinks(g, g2, s, cs, d);
  }

  lemma {:induction false} ExtendEnds(s: Snake, s2: Snake, cs: seq<Cell>, d: Cell)
    requires Ends(s, cs) && d !in cs && s2.Tail() == s.Tail() && s2.Head() == d
    ensures Ends(s2, cs + [d])
  {
    var cs2 := cs + [d];
    forall a, b | 0 <= a < b < |cs2|
      ensures cs2[a] != cs2[b]
    {
      if b == |cs| {
        assert cs[a] in cs;
      }
    }
  }

  lemma {:induction false} ExtendCells(g: Grid, g2: Grid, s: Snake, cs: seq<Cell>, d: Cell)
    requires IsChain(g, s, cs) && s.live
    requires Addressable(g, d) && d !in cs
    requires SameOutside(g, g2, {s.Head(), d})
    requires At(g2, s.Head()) == HeadToBody(At(g, s.Head())) && At(g2, d) == At(g, s.Head())
    ensures OnBoard(g2, cs + [d])
    ensures forall k :: 0 <= k < |cs| - 1 ==> Addressable(g2, cs[k]) && At(g2, cs[k]) == At(g, cs[k])
    ensures Addressable(g2, s.Head())
    ensures Roles(g2, s.(headRow := d.0, headCol := d.1), cs + [d])
  {
    var n, cs2 := |cs|, cs + [d];
    forall k | 0 <= k < n - 1
      ensures Addressable(g2, cs[k]) && At(g2, cs[k]) == At(g, cs[k])
    {
      assert cs[k] != cs[n - 1];
      assert cs[k] in cs;
    }
    assert cs2[0] == cs[0];
  }

  lemma {:induction false} ExtendLinks(g: Grid, g2: Grid, s: Snake, cs: seq<Cell>, d: Cell)
    requires IsChain(g, s, cs) && s.live
    requires Addressable(g, d) && d == Toward(s.Head(), At(g, s.Head()))
    requires OnBoard(g2, cs + [d])
    requires forall k :: 0 <= k < |cs| - 1 ==> Addressable(g2, cs[k]) && At(g2, cs[k]) == At(g, cs[k])
    requires Addressable(g2, s.Head()) && At(g2, s.Head()) == HeadToBody(At(g, s.Head()))
    ensures Linked(g2, cs + [d])
  {
    var c, n, cs2 := At(g, s.Head()), |cs|, cs + [d];
    forall k | 0 <= k < n
      ensures Toward(cs2[k], At(g2, cs2[k])) == cs2[k + 1]
    {
      if k == n - 1 {
        StepIsHeading(s.headRow, s.headCol, c);
        StepIsHeading(s.headRow, s.headCol, HeadToBody(c));
      } else {
        assert cs2[k] == cs[k] && cs2[k + 1] == cs[k + 1];
      }
    }
  }

  /** A chain of at least three cells whose tail cell is blanked and whose
      second cell is turned into its tail form is a chain from that cell. */
  lemma {:induction false} DropTail(g: Grid, g4: Grid, s: Snake, cs: seq<Cell>)
    requires IsChain(g, s, cs) && 3 <= |cs|
    requires SameOutside(g, g4, {cs[0], cs[1]})
    requires At(g4, cs[1]) == BodyToTail(At(g, cs[1]))
    ensures IsChain(g4, s.(tailRow := cs[1].0, tailCol := cs[1].1), cs[1..])
  {
    var s4, cs4, t1 := s.(tailRow := cs[1].0, tailCol := cs[1].1), cs[1..], cs[1];
    var b := At(g, t1);
    assert IsBody(b);
    forall k | 1 <= k < |cs|
      ensures Addressable(g4, cs[k])
      ensures k > 1 ==> At(g4, cs[k]) == At(g, cs[k])
    {
      assert cs[k] != cs[0];
      if k > 1 { assert cs[k] != cs[1]; }
    }
    assert Ends(s4, cs4) by {
      forall x, y | 0 <= x < y < |cs4|
        ensures cs4[x] != cs4[y]
      {
        assert cs4[x] == cs[x + 1] && cs4[y] == cs[y + 1];
      }
    }
    assert OnBoard(g4, cs4) by {
      forall k | 0 <= k < |cs4|
        ensures Addressable(g4, cs4[k])
      {
        assert cs4[k] == cs[k + 1];
      }
    }
    assert Roles(g4, s4, cs4) by {
      forall k | 0 < k < |cs4| - 1
        ensures IsBody(At(g4, cs4[k]))
      {
        assert cs4[k] == cs[k + 1];
      }
      assert cs4[|cs4| - 1] == cs[|cs| - 1];
    }
    assert Linked(g4, cs4) by {
      forall k | 0 <= k < |cs4| - 1
        ensures Toward(cs4[k], At(g4, cs4[k])) == cs4[k + 1]
      {
        assert cs4[k] == cs[k + 1] && cs4[k + 1] == cs[k + 2];
        if k == 0 {
          StepIsHeading(t1.0, t1.1, b);
          StepIsHeading(t1.0, t1.1, BodyToTail(b));
        }
      }
    }
  }

  /** Growth, before the callback: the destination joins the chain as the
      new head and the old head becomes body. */
  lemma {:induction false} GrowChain(g: Grid, s: Snake, cs: seq<Cell>)
    requires Enclosed(g) && IsChain(g, s, cs) && s.live
    requires HeadSafe(g, s) && !IsSnake(At(g, Dest(g, s)))
    ensures var (g2, s2) := UpdateHead(g, s);
      && IsChain(g2, s2, cs + [Dest(g, s)])
      && SameOutside(g, g2, {s.Head(), Dest(g, s)})
  {
    DestOffChains(g, s, cs);
    assert Dest(g, s) != s.Head() by { assert s.Head() in cs; }
    UpdateHeadCells(g, s);
    ExtendChain(g, UpdateHead(g, s).0, s, cs, Dest(g, s));
  }

  /** The cells `update_tail` rewrites, when the tail character moves. */
  lemma UpdateTailCells(g: Grid, s: Snake)
    requires TailSafe(g, s) && Toward(s.Tail(), At(g, s.Tail())) != s.Tail()
    ensures var g4, n := UpdateTail(g, s).0, Toward(s.Tail(), At(g, s.Tail()));
      && SameOutside(g, g4, {s.Tail(), n})
      && At(g4, s.Tail()) == ' ' && At(g4, n) == BodyToTail(At(g, n))
  {
  }

  /** Advance: the destination joins the chain as the new head, the old
      tail leaves it, and the next cell becomes the tail; the length is
      unchanged. */
  lemma {:induction false} AdvanceChain(g: Grid, s: Snake, cs: seq<Cell>)
    requires Enclosed(g) && IsChain(g, s, cs) && s.live
    requires HeadSafe(g, s) && !IsSnake(At(g, Dest(g, s)))
    ensures var (g2, s2) := UpdateHead(g, s);
      && TailSafe(g2, s2)
      && var (g4, s4) := UpdateTail(g2, s2);
      && IsChain(g4, s4, cs[1..] + [Dest(g, s)])
      && SameOutside(g, g4, {s.Head(), Dest(g, s), cs[0], cs[1]})
  {
    GrowChain(g, s, cs);
    var d := Dest(g, s);
    var g2, s2 := UpdateHead(g, s).0, UpdateHead(g, s).1;
    var cs2 := cs + [d];
    assert cs2[0] == cs[0] && cs2[1] == cs[1];
    ShedTail(g2, s2, cs2);
    assert cs2[1..] == cs[1..] + [d];
  }

  /** `update_tail` on a chain of three or more cells drops its first cell
      and touches only the first two. */
  lemma ShedTail(g: Grid, s: Snake, cs: seq<Cell>)
    requires IsChain(g, s, cs) && 3 <= |cs|
    ensures TailSafe(g, s)
    ensures var (g4, s4) := UpdateTail(g, s);
      && IsChain(g4, s4, cs[1..])
      && SameOutside(g, g4, {cs[0], cs[1]})
  {
    assert cs[0] != cs[1];
    assert Toward(cs[0], At(g, cs[0])) == cs[1];
    UpdateTailCells(g, s);
    var g4, s4 := UpdateTail(g, s).0, UpdateTail(g, s).1;
    DropTail(g, g4, s, cs);
    assert s4 == s.(tailRow := cs[1].0, tailCol := cs[1].1);
  }

  /** How the bodies change in snake `i`'s turn. */
  ghost function StepChains(w: World, chains: seq<seq<Cell>>, i: nat): seq<seq<Cell>>
    requires Sound(w, chains) && i < |w.snakes| && HeadSafe(w.grid, w.snakes[i])
  {
    var s := w.snakes[i];
    if !s.live then chains
    else
      match Classify(NextSquare(w.grid, s))
      case Collide => chains
      case Grow => chains[i := chains[i] + [Dest(w.grid, s)]]
      case Advance => chains[i := chains[i][1..] + [Dest(w.grid, s)]]
  }

  /** No chain passes through a cell that holds no snake character. */
  lemma OffAllChains(w: World, chains: seq<seq<Cell>>, d: Cell)
    requires Sound(w, chains) && InBounds(w.grid, d) && !IsSnake(At(w.grid, d))
    ensures forall j :: 0 <= j < |chains| ==> d !in chains[j]
  {
    forall j | 0 <= j < |chains|
      ensures d !in chains[j]
    {
      ChainCellsAreSnake(w.grid, w.snakes[j], chains[j]);
    }
  }

  /** The other snakes' chains survive a change confined to snake `i`'s
      chain and one cell `d` on no other chain. */
  lemma OthersKept(w: World, chains: seq<seq<Cell>>, i: nat, g': Grid, touched: set<Cell>, d: Cell)
    requires Sound(w, chains) && i < |chains|
    requires SameOutside(w.grid, g', touched)
    requires forall p :: p in touched ==> p in chains[i] || p == d
    requires forall j :: 0 <= j < |chains| && j != i ==> d !in chains[j]
    ensures forall j :: 0 <= j < |chains| && j != i ==> IsChain(g', w.snakes[j], chains[j])
  {
    forall j | 0 <= j < |chains| && j != i
      ensures IsChain(g', w.snakes[j], chains[j])
    {
      assert Disjoint(chains[i], chains[j]);
      ChainFrame(w.grid, g', w.snakes[j], chains[j], touched);
    }
  }

  /** An advance rewrites three cells of snake `i`'s own body and the
      destination `d`, which is on no other body: the other bodies survive. */
  lemma AdvanceKeepsOthers(w: World, chains: seq<seq<Cell>>, i: nat, g': Grid, a: Cell, b: Cell, c: Cell, d: Cell)
    requires Sound(w, chains) && i < |chains|
    requires SameOutside(w.grid, g', {a, d, b, c})
    requires a in chains[i] && b in chains[i] && c in chains[i]
    requires forall j :: 0 <= j < |chains| && j != i ==> d !in chains[j]
    ensures forall j :: 0 <= j < |chains| && j != i ==> IsChain(g', w.snakes[j], chains[j])
  {
    OthersKept(w, chains, i, g', {a, d, b, c}, d);
  }

  /** The callback only fills an empty cell, which is on no chain. */
  lemma FoodKeepsChain(g: Grid, f: Feeder, s: Snake, cs: seq<Cell>)
    requires IsChain(g, s, cs)
    ensures IsChain(AddFood(g, f).0, s, cs)
  {
    if f.spots != [] {
      var p := f.spots[0];
      if Addressable(g, p) && At(g, p) == ' ' {
        ChainCellsAreSnake(g, s, cs);
        ChainFrame(g, Put(g, p, '*'), s, cs, {p});
      }
    }
  }

  lemma FoodKeepsEnclosed(g: Grid, f: Feeder)
    requires Enclosed(g)
    ensures Enclosed(AddFood(g, f).0)
  {
    AddFoodEffect(g, f);
    EnclosedFrame(g, AddFood(g, f).0);
  }

  /** A well-formed game again, after snake `i`'s chain changed within its
      old cells and one new cell `d` that is on no other chain. */
  lemma Reassemble(w: World, chains: seq<seq<Cell>>, i: nat, w': World, chains': seq<seq<Cell>>, d: Cell)
    requires Sound(w, chains) && i < |chains|
    requires |w'.snakes| == |w.snakes| && |chains'| == |chains|
    requires Enclosed(w'.grid)
    requires IsChain(w'.grid, w'.snakes[i], chains'[i])
    requires forall j :: 0 <= j < |chains| && j != i ==>
               w'.snakes[j] == w.snakes[j] && chains'[j] == chains[j] && IsChain(w'.grid, w.snakes[j], chains[j])
    requires forall p :: p in chains'[i] ==> p in chains[i] || p == d
    requires forall j :: 0 <= j < |chains| && j != i ==> d !in chains[j]
    ensures Sound(w', chains')
  {
    forall a, b | 0 <= a < |chains'| && 0 <= b < |chains'| && a != b
      ensures Disjoint(chains'[a], chains'[b])
    {
      assert Disjoint(chains[a], chains[b]);
    }
  }

  /** The cells of a chain grown or moved by one new cell `d`. */
  lemma ShiftedCells(cs: seq<Cell>, d: Cell)
    requires cs != []
    ensures forall p :: p in cs + [d] ==> p in cs || p == d
    ensures forall p :: p in cs[1..] + [d] ==> p in cs || p == d
  {
    forall p | p in cs[1..] + [d]
      ensures p in cs || p == d
    {
      if p != d {
        assert p in cs[1..];
      }
    }
  }

  /** One snake's turn in a well-formed game stays on the board and keeps
      the game well-formed. */
  lemma {:induction false} StepKeepsSound(w: World, chains: seq<seq<Cell>>, i: nat)
    requires Sound(w, chains) && i < |w.snakes|
    ensures StepSafe(w.grid, w.snakes[i])
    ensures Sound(Step(w, i), StepChains(w, chains, i))
  {
    var g, s, cs := w.grid, w.snakes[i], chains[i];
    assert IsChain(g, s, cs);
    ChainCellsAreSnake(g, s, cs);
    assert s.Head() in cs;
    EnclosedStep(g, s.Head(), At(g, s.Head()));
    assert HeadSafe(g, s);
    if !s.live {
      return;
    }
    var d := Dest(g, s);
    DestOffChains(g, s, cs);
    var o := Classify(NextSquare(g, s));
    if o == Collide {
      CollideKeepsSound(w, chains, i);
    } else if o == Grow {
      GrowKeepsSound(w, chains, i);
    } else {
      AdvanceKeepsSound(w, chains, i);
    }
  }

  lemma CollideKeepsSound(w: World, chains: seq<seq<Cell>>, i: nat)
    requires Sound(w, chains) && i < |w.snakes| && w.snakes[i].live && HeadSafe(w.grid, w.snakes[i])
    requires Classify(NextSquare(w.grid, w.snakes[i])) == Collide
    ensures StepSafe(w.grid, w.snakes[i])
    ensures Sound(Step(w, i), StepChains(w, chains, i))
  {
    var g, s, cs := w.grid, w.snakes[i], chains[i];
    assert IsChain(g, s, cs);
    var r := Step(w, i);
    CollideChain(g, s, cs);
    ChainCellsAreSnake(g, s, cs);
    assert s.Head() in cs;
    EnclosedKept(g, r.grid, {s.Head()});
    forall j | 0 <= j < |chains| && j != i
      ensures s.Head() !in chains[j]
    {
      assert Disjoint(chains[i], chains[j]);
    }
    OthersKept(w, chains, i, r.grid, {s.Head()}, s.Head());
    Reassemble(w, chains, i, r, chains, s.Head());
  }

  lemma GrowKeepsSound(w: World, chains: seq<seq<Cell>>, i: nat)
    requires Sound(w, chains) && i < |w.snakes| && w.snakes[i].live && HeadSafe(w.grid, w.snakes[i])
    requires Classify(NextSquare(w.grid, w.snakes[i])) == Grow
    ensures StepSafe(w.grid, w.snakes[i])
    ensures Sound(Step(w, i), StepChains(w, chains, i))
  {
    var d := Dest(w.grid, w.snakes[i]);
    GrowWorld(w, chains, i);
    ShiftedCells(chains[i], d);
    Reassemble(w, chains, i, Step(w, i), StepChains(w, chains, i), d);
  }

  lemma GrowWorld(w: World, chains: seq<seq<Cell>>, i: nat)
    requires Sound(w, chains) && i < |w.snakes| && w.snakes[i].live && HeadSafe(w.grid, w.snakes[i])
    requires Classify(NextSquare(w.grid, w.snakes[i])) == Grow
    ensures var r, d := Step(w, i), Dest(w.grid, w.snakes[i]);
      && Enclosed(r.grid)
      && IsChain(r.grid, r.snakes[i], chains[i] + [d])
      && (forall j :: 0 <= j < |chains| && j != i ==> IsChain(r.grid, w.snakes[j], chains[j]))
      && (forall j :: 0 <= j < |chains| && j != i ==> d !in chains[j])
  {
    var g, s, cs := w.grid, w.snakes[i], chains[i];
    var d := Dest(g, s);
    OffAllChains(w, chains, d);
    GrowSnake(g, s, cs, w.feeder);
    var g2 := UpdateHead(g, s).0;
    OthersKept(w, chains, i, g2, {s.Head(), d}, d);
    FoodKeepsOthers(w, chains, i, g2);
    StepGrow(w, i);
  }

  /** The callback leaves the other snakes' chains intact. */
  lemma FoodKeepsOthers(w: World, chains: seq<seq<Cell>>, i: nat, g2: Grid)
    requires |chains| == |w.snakes|
    requires forall j :: 0 <= j < |chains| && j != i ==> IsChain(g2, w.snakes[j], chains[j])
    ensures forall j :: 0 <= j < |chains| && j != i ==> IsChain(AddFood(g2, w.feeder).0, w.snakes[j], chains[j])
  {
    forall j | 0 <= j < |chains| && j != i
      ensures IsChain(AddFood(g2, w.feeder).0, w.snakes[j], chains[j])
    {
      FoodKeepsChain(g2, w.feeder, w.snakes[j], chains[j]);
    }
  }

  /** Growth of one snake, the callback included. */
  lemma GrowSnake(g: Grid, s: Snake, cs: seq<Cell>, f: Feeder)
    requires Enclosed(g) && IsChain(g, s, cs) && s.live
    requires HeadSafe(g, s) && !IsSnake(At(g, Dest(g, s))) && At(g, Dest(g, s)) != '#'
    ensures var (g2, s2) := UpdateHead(g, s);
      && Enclosed(AddFood(g2, f).0)
      && IsChain(AddFood(g2, f).0, s2, cs + [Dest(g, s)])
      && SameOutside(g, g2, {s.Head(), Dest(g, s)})
      && s.Head() in cs
  {
    var d := Dest(g, s);
    GrowChain(g, s, cs);
    DestOffChains(g, s, cs);
    var g2, s2 := UpdateHead(g, s).0, UpdateHead(g, s).1;
    ChainCellsAreSnake(g, s, cs);
    assert s.Head() in cs;
    EnclosedKept(g, g2, {s.Head(), d});
    FoodKeepsEnclosed(g2, f);
    FoodKeepsChain(g2, f, s2, cs + [d]);
  }

  lemma AdvanceKeepsSound(w: World, chains: seq<seq<Cell>>, i: nat)
    requires Sound(w, chains) && i < |w.snakes| && w.snakes[i].live && HeadSafe(w.grid, w.snakes[i])
    requires Classify(NextSquare(w.grid, w.snakes[i])) == Advance
    ensures StepSafe(w.grid, w.snakes[i])
    ensures Sound(Step(w, i), StepChains(w, chains, i))
  {
    var d := Dest(w.grid, w.snakes[i]);
    AdvanceWorld(w, chains, i);
    ShiftedCells(chains[i], d);
    Reassemble(w, chains, i, Step(w, i), StepChains(w, chains, i), d);
  }

  lemma AdvanceWorld(w: World, chains: seq<seq<Cell>>, i: nat)
    requires Sound(w, chains) && i < |w.snakes| && w.snakes[i].live && HeadSafe(w.grid, w.snakes[i])
    requires Classify(NextSquare(w.grid, w.snakes[i])) == Advance
    ensures StepSafe(w.grid, w.snakes[i])
    ensures var r, d := Step(w, i), Dest(w.grid, w.snakes[i]);
      && Enclosed(r.grid)
      && IsChain(r.grid, r.snakes[i], chains[i][1..] + [d])
      && (forall j :: 0 <= j < |chains| && j != i ==> IsChain(r.grid, w.snakes[j], chains[j]))
      && (forall j :: 0 <= j < |chains| && j != i ==> d !in chains[j])
  {
    var g, s, cs := w.grid, w.snakes[i], chains[i];
    var d := Dest(g, s);
    OffAllChains(w, chains, d);
    AdvanceSnake(g, s, cs);
    var g2, s2 := UpdateHead(g, s).0, UpdateHead(g, s).1;
    var g4 := UpdateTail(g2, s2).0;
    AdvanceKeepsOthers(w, chains, i, g4, s.Head(), cs[0], cs[1], d);
  }

  /** Advance of one snake. */
  lemma AdvanceSnake(g: Grid, s: Snake, cs: seq<Cell>)
    requires Enclosed(g) && IsChain(g, s, cs) && s.live
    requires HeadSafe(g, s) && !IsSnake(At(g, Dest(g, s))) && At(g, Dest(g, s)) != '#'
    ensures var (g2, s2) := UpdateHead(g, s);
      && TailSafe(g2, s2)
      && var (g4, s4) := UpdateTail(g2, s2);
      && Enclosed(g4)
      && IsChain(g4, s4, cs[1..] + [Dest(g, s)])
      && SameOutside(g, g4, {s.Head(), Dest(g, s), cs[0], cs[1]})
      && s.Head() in cs && cs[0] in cs && cs[1] in cs
  {
    var d := Dest(g, s);
    AdvanceChain(g, s, cs);
    DestOffChains(g, s, cs);
    var g2, s2 := UpdateHead(g, s).0, UpdateHead(g, s).1;
    var g4 := UpdateTail(g2, s2).0;
    ChainCellsAreSnake(g, s, cs);
    assert s.Head() in cs && cs[0] in cs && cs[1] in cs;
    NotWall(g, s.Head());
    NotWall(g, cs[0]);
    NotWall(g, cs[1]);
    AdvanceKeepsEnclosed(g, g4, s.Head(), d, cs[0], cs[1]);
  }

  /** The total length of all bodies. */
  function TotalLength(chains: seq<seq<Cell>>): nat {
    if chains == [] then 0 else TotalLength(chains[..|chains| - 1]) + |chains[|chains| - 1]|
  }

  /** Proof helper: replacing one body changes the sum of the lengths by the
      difference. */
  lemma {:induction false} TotalLengthUpdate(chains: seq<seq<Cell>>, i: nat, cs: seq<Cell>)
    requires i < |chains|
    ensures TotalLength(chains[i := cs]) + |chains[i]| == TotalLength(chains) + |cs|
    decreases |chains|
  {
    var n := |chains| - 1;
    var updated := chains[i := cs];
    assert updated[..n] == if i == n then chains[..n] else chains[..n][i := cs];
    if i < n {
      TotalLengthUpdate(chains[..n], i, cs);
    }
  }

  /** What snake `i`'s turn may do: only its own record and body change, a
      dead snake's not at all, and the body's length changes by the number
      of food callbacks the turn makes, one on growth and none otherwise. */
  ghost predicate OneTurn(w: World, chains: seq<seq<Cell>>, w1: World, c1: seq<seq<Cell>>, i: nat) {
    && |chains| == |w.snakes| && i < |chains|
    && |w1.snakes| == |w.snakes| && |c1| == |chains|
    && (forall j :: 0 <= j < |chains| && j != i ==> w1.snakes[j] == w.snakes[j] && c1[j] == chains[j])
    && (!w.snakes[i].live ==> w1.snakes[i] == w.snakes[i] && c1[i] == chains[i])
    && (w1.feeder.calls == w.feeder.calls || w1.feeder.calls == w.feeder.calls + 1)
    && |c1[i]| == |chains[i]| + (w1.feeder.calls - w.feeder.calls)
  }

  /** What the turns of snakes `i` onwards may do: the snakes before `i` and
      the dead snakes keep their records and bodies, no body shrinks or
      grows by more than one cell, and the bodies grow in total by exactly
      the number of food callbacks. */
  ghost predicate Later(w: World, chains: seq<seq<Cell>>, r: World, chains': seq<seq<Cell>>, i: nat) {
    && |chains| == |w.snakes|
    && |r.snakes| == |w.snakes| && |chains'| == |chains|
    && (forall j :: 0 <= j < |chains| && (j < i || !w.snakes[j].live) ==>
          r.snakes[j] == w.snakes[j] && chains'[j] == chains[j])
    && (forall j :: 0 <= j < |chains| ==> |chains[j]| <= |chains'[j]| <= |chains[j]| + 1)
    && r.feeder.calls >= w.feeder.calls
    && TotalLength(chains') == TotalLength(chains) + (r.feeder.calls - w.feeder.calls)
  }

  lemma StepChainsEffect(w: World, chains: seq<seq<Cell>>, i: nat)
    requires Sound(w, chains) && i < |w.snakes|
    ensures StepSafe(w.grid, w.snakes[i])
    ensures OneTurn(w, chains, Step(w, i), StepChains(w, chains, i), i)
  {
    StepKeepsSound(w, chains, i);
    var s := w.snakes[i];
    if s.live && Classify(NextSquare(w.grid, s)) == Grow {
      AddFoodEffect(UpdateHead(w.grid, s).0, w.feeder);
    }
  }

  lemma LaterAfterTurn(w: World, chains: seq<seq<Cell>>, w1: World, c1: seq<seq<Cell>>,
                       r: World, chains': seq<seq<Cell>>, i: nat)
    requires OneTurn(w, chains, w1, c1, i) && Later(w1, c1, r, chains', i + 1)
    ensures Later(w, chains, r, chains', i)
  {
    TotalLengthUpdate(chains, i, c1[i]);
    assert chains[i := c1[i]] == c1;
    forall j | 0 <= j < |chains| && (j < i || !w.snakes[j].live)
      ensures r.snakes[j] == w.snakes[j] && chains'[j] == chains[j]
    {
      if j != i {
        assert w1.snakes[j] == w.snakes[j] && c1[j] == chains[j];
      }
    }
  }

  /** The snakes' turns from `i` on, in a well-formed game: every access
      stays on the board and the game stays well-formed. */
  lemma {:induction false} RunKeepsSound(w: World, chains: seq<seq<Cell>>, i: nat) returns (chains': seq<seq<Cell>>)
    requires Sound(w, chains) && i <= |w.snakes|
    ensures Run(w, i).Some?
    ensures Sound(Run(w, i).value, chains') && Later(w, chains, Run(w, i).value, chains', i)
    decreases |w.snakes| - i
  {
    if i == |w.snakes| {
      chains' := chains;
    } else {
      StepKeepsSound(w, chains, i);
      StepChainsEffect(w, chains, i);
      var w1, c1 := Step(w, i), StepChains(w, chains, i);
      assert Run(w, i) == Run(w1, i + 1);
      chains' := RunKeepsSound(w1, c1, i + 1);
      LaterAfterTurn(w, chains, w1, c1, Run(w1, i + 1).value, chains', i);
    }
  }

  /** A tick in a well-formed game: `update_state` stays on the board and
      keeps the game well-formed; dead snakes are left alone, no body grows
      by more than one cell or shrinks, and the bodies grow in total by the
      number of food callbacks. */
  lemma UpdateStateKeepsSound(w: World, chains: seq<seq<Cell>>) returns (chains': seq<seq<Cell>>)
    requires Sound(w, chains)
    ensures UpdateState(w).Some?
    ensures var r := UpdateState(w).value;
      && Sound(r, chains') && |chains'| == |chains|
      && (forall j :: 0 <= j < |chains| && !w.snakes[j].live ==>
            r.snakes[j] == w.snakes[j] && chains'[j] == chains[j])
      && (forall j :: 0 <= j < |chains| ==> |chains[j]| <= |chains'[j]| <= |chains[j]| + 1)
      && TotalLength(chains') == TotalLength(chains) + (r.feeder.calls - w.feeder.calls)
  {
    chains' := RunKeepsSound(w, chains, 0);
  }

  /** `find_head` from any cell of a chain ends at the chain's head. */
  lemma {:induction false} ChainSuffixHead(g: Grid, s: Snake, cs: seq<Cell>, k: nat)
    requires IsChain(g, s, cs) && k < |cs|
    ensures FirstHead(g, cs[k], |cs| - 1 - k) == Some(s.Head())
    decreases |cs| - k
  {
    if k < |cs| - 1 {
      ChainSuffixHead(g, s, cs, k + 1);
      if k > 0 {
        assert IsBody(At(g, cs[k]));
      }
      assert !IsHead(At(g, cs[k]));
    }
  }

  /** In a well-formed game every record is what `find_head` would rebuild
      from its tail: the walk from the tail meets a head, and that head is
      the record's head. */
  lemma SoundRecordsLocatable(w: World, chains: seq<seq<Cell>>)
    requires Sound(w, chains)
    ensures forall j :: 0 <= j < |w.snakes| ==>
              Reaches(w.grid, w.snakes[j].Tail()) && HeadOf(w.grid, w.snakes[j].Tail()) == w.snakes[j].Head()
  {
    forall j | 0 <= j < |w.snakes|
      ensures Reaches(w.grid, w.snakes[j].Tail()) && HeadOf(w.grid, w.snakes[j].Tail()) == w.snakes[j].Head()
    {
      ChainSuffixHead(w.grid, w.snakes[j], chains[j], 0);
    }
  }
}
