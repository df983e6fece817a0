/** The tick engine as values: what one call of `update_state` does to the
    board, the snake records and the food supply.  Every board access of the
    source is in bounds only under the "safe" predicates below; outside them
    the source reads or writes outside its rows. */
module Tick {
  import opened Symbols
  import opened Board

  /** The food-placement callback's state: the cells it will try next, in
      order, and how many times it has been called. */
  datatype Feeder = Feeder(spots: seq<Cell>, calls: nat)

  /** Everything one tick reads and writes. */
  datatype World = World(grid: Grid, snakes: seq<Snake>, feeder: Feeder)

  /** What a live snake's destination character makes it do. */
  datatype Outcome = Collide | Grow | Advance

  function Classify(ch: char): Outcome {
    if ch == '#' || IsSnake(ch) then Collide
    else if ch == '*' then Grow
    else Advance
  }

  /** The head and the cell its character points to are on the board. */
  predicate HeadSafe(g: Grid, s: Snake) {
    InBounds(g, s.Head()) && InBounds(g, Toward(s.Head(), At(g, s.Head())))
  }

  /** The tail and the cell its character points to are on the board. */
  predicate TailSafe(g: Grid, s: Snake) {
    InBounds(g, s.Tail()) && InBounds(g, Toward(s.Tail(), At(g, s.Tail())))
  }

  /** The cell the head moves into. */
  function Dest(g: Grid, s: Snake): Cell
    requires InBounds(g, s.Head())
  {
    Toward(s.Head(), At(g, s.Head()))
  }

  /** `next_square`: the character in the cell the snake is moving into. */
  function NextSquare(g: Grid, s: Snake): char
    requires HeadSafe(g, s)
  {
    At(g, Dest(g, s))
  }

  /** `update_head`: the head character is copied into the destination, the
      old head cell becomes its body form, the record's head moves. */
  function UpdateHead(g: Grid, s: Snake): (Grid, Snake)
    requires HeadSafe(g, s)
  {
    var c := At(g, s.Head());
    var d := Dest(g, s);
    (Put(Put(g, d, c), s.Head(), HeadToBody(c)), s.(headRow := d.0, headCol := d.1))
  }

  /** `update_tail`: the cell after the tail becomes its tail form, the old
      tail cell is blanked, the record's tail moves. */
  function UpdateTail(g: Grid, s: Snake): (Grid, Snake)
    requires TailSafe(g, s)
  {
    var n := Toward(s.Tail(), At(g, s.Tail()));
    (Put(Put(g, n, BodyToTail(At(g, n))), s.Tail(), ' '), s.(tailRow := n.0, tailCol := n.1))
  }

  /** The food-placement callback: one call, which puts food on the next
      candidate cell when that cell is an empty playing cell. */
  function AddFood(g: Grid, f: Feeder): (Grid, Feeder) {
    if f.spots == [] then (g, f.(calls := f.calls + 1))
    else
      var p := f.spots[0];
      var g' := if Addressable(g, p) && At(g, p) == ' ' then Put(g, p, '*') else g;
      (g', Feeder(f.spots[1..], f.calls + 1))
  }

  /** Every board access of one snake's turn is in bounds.  The destination
      is read even for a dead snake. */
  predicate StepSafe(g: Grid, s: Snake) {
    HeadSafe(g, s) &&
    (s.live && Classify(NextSquare(g, s)) == Advance ==>
       TailSafe(UpdateHead(g, s).0, UpdateHead(g, s).1))
  }

  /** One iteration of `update_state`'s loop: snake `i` collides, grows or
      advances; a dead snake changes nothing. */
  function Step(w: World, i: nat): (r: World)
    requires i < |w.snakes| && StepSafe(w.grid, w.snakes[i])
    ensures SameShape(w.grid, r.grid)
    ensures |r.snakes| == |w.snakes|
    ensures forall j :: 0 <= j < |w.snakes| && j != i ==> r.snakes[j] == w.snakes[j]
  {
    var s := w.snakes[i];
    if !s.live then w
    else
      match Classify(NextSquare(w.grid, s))
      case Collide =>
        w.(grid := Put(w.grid, s.Head(), 'x'), snakes := w.snakes[i := s.(live := false)])
      case Grow =>
        var (g1, s1) := UpdateHead(w.grid, s);
        var (g2, f2) := AddFood(g1, w.feeder);
        World(g2, w.snakes[i := s1], f2)
      case Advance =>
        var (g1, s1) := UpdateHead(w.grid, s);
        var (g2, s2) := UpdateTail(g1, s1);
        World(g2, w.snakes[i := s2], w.feeder)
  }

  /** Proof helpers: the three kinds of turn of a live snake, each unfolded
      on its own. */
  lemma StepCollide(w: World, i: nat)
    requires i < |w.snakes| && StepSafe(w.grid, w.snakes[i]) && w.snakes[i].live
    requires Classify(NextSquare(w.grid, w.snakes[i])) == Collide
    ensures Step(w, i) == w.(grid := Put(w.grid, w.snakes[i].Head(), 'x'),
                             snakes := w.snakes[i := w.snakes[i].(live := false)])
  {
  }

  lemma StepGrow(w: World, i: nat)
    requires i < |w.snakes| && StepSafe(w.grid, w.snakes[i]) && w.snakes[i].live
    requires Classify(NextSquare(w.grid, w.snakes[i])) == Grow
    ensures var (g1, s1) := UpdateHead(w.grid, w.snakes[i]);
      Step(w, i) == World(AddFood(g1, w.feeder).0, w.snakes[i := s1], AddFood(g1, w.feeder).1)
  {
  }

  lemma StepAdvance(w: World, i: nat)
    requires i < |w.snakes| && StepSafe(w.grid, w.snakes[i]) && w.snakes[i].live
    requires Classify(NextSquare(w.grid, w.snakes[i])) == Advance
    ensures var (g1, s1) := UpdateHead(w.grid, w.snakes[i]);
      var (g2, s2) := UpdateTail(g1, s1);
      Step(w, i) == World(g2, w.snakes[i := s2], w.feeder)
  {
  }

  /** The rest of `update_state`'s loop from snake `i` on, in index order;
      None when some access would leave the board. */
  function Run(w: World, i: nat): (r: Option<World>)
    ensures r.Some? ==> SameShape(w.grid, r.value.grid) && |r.value.snakes| == |w.snakes|
    ensures r.Some? ==> forall j :: 0 <= j < i && j < |w.snakes| ==> r.value.snakes[j] == w.snakes[j]
    decreases |w.snakes| - i
  {
    if i >= |w.snakes| then Some(w)
    else if !StepSafe(w.grid, w.snakes[i]) then None
    else Run(Step(w, i), i + 1)
  }

  /** `update_state`: one tick for every snake. */
  function UpdateState(w: World): Option<World> {
    Run(w, 0)
  }

  /** The callback is called once and changes at most one cell, an empty
      playing cell that becomes food. */
  lemma AddFoodEffect(g: Grid, f: Feeder)
    ensures var (g', f') := AddFood(g, f);
      && f'.calls == f.calls + 1
      && SameShape(g, g')
      && (forall q :: InBounds(g, q) ==>
            At(g', q) == At(g, q) || (Addressable(g, q) && At(g, q) == ' ' && At(g', q) == '*'))
  {
  }

  /** A dead snake's turn reads its destination and changes nothing. */
  lemma DeadSnakeUnchanged(w: World, i: nat)
    requires i < |w.snakes| && StepSafe(w.grid, w.snakes[i]) && !w.snakes[i].live
    ensures Step(w, i) == w
  {
  }

  /** Collision: the destination is a wall or any snake character.  The
      snake dies where it stands, its head becomes 'x', and nothing else on
      the board or in the records changes. */
  lemma CollisionEffect(w: World, i: nat)
    requires i < |w.snakes| && StepSafe(w.grid, w.snakes[i]) && w.snakes[i].live
    requires var ch := NextSquare(w.grid, w.snakes[i]); ch == '#' || IsSnake(ch)
    ensures var s, r := w.snakes[i], Step(w, i);
      && !r.snakes[i].live
      && r.snakes[i].Head() == s.Head() && r.snakes[i].Tail() == s.Tail()
      && At(r.grid, s.Head()) == 'x'
      && (forall q :: InBounds(w.grid, q) && q != s.Head() ==> At(r.grid, q) == At(w.grid, q))
      && r.feeder == w.feeder
  {
  }

  /** Growth: the destination is food.  The head moves into it and keeps its
      character, the old head cell becomes body, the tail stays, the
      callback is called once, and every other cell is unchanged except for
      the empty cell the callback may fill with food. */
  lemma GrowthEffect(w: World, i: nat)
    requires i < |w.snakes| && StepSafe(w.grid, w.snakes[i]) && w.snakes[i].live
    requires IsLiveHead(At(w.grid, w.snakes[i].Head()))
    requires NextSquare(w.grid, w.snakes[i]) == '*'
    ensures var s, r := w.snakes[i], Step(w, i);
      var c, d := At(w.grid, s.Head()), Dest(w.grid, s);
      && r.snakes[i].live && r.snakes[i].Head() == d && r.snakes[i].Tail() == s.Tail()
      && d != s.Head()
      && At(r.grid, d) == c
      && At(r.grid, s.Head()) == HeadToBody(c)
      && (forall q :: InBounds(w.grid, q) && q != d && q != s.Head() ==>
            At(r.grid, q) == At(w.grid, q) || (At(w.grid, q) == ' ' && At(r.grid, q) == '*'))
      && r.feeder.calls == w.feeder.calls + 1
  {
    var s := w.snakes[i];
    UnitStep(s.headRow, s.headCol, At(w.grid, s.Head()));
    var (g1, s1) := UpdateHead(w.grid, s);
    AddFoodEffect(g1, w.feeder);
  }

  /** Advance: any other destination.  The head moves as in growth; the
      tail cell is blanked, the cell its character points to becomes the
      new tail, and nothing else changes. */
  lemma AdvanceEffect(w: World, i: nat)
    requires i < |w.snakes| && StepSafe(w.grid, w.snakes[i]) && w.snakes[i].live
    requires IsLiveHead(At(w.grid, w.snakes[i].Head()))
    requires Classify(NextSquare(w.grid, w.snakes[i])) == Advance
    requires var s := w.snakes[i];
      InBounds(w.grid, s.Tail()) && IsTail(At(w.grid, s.Tail())) &&
      s.Tail() != s.Head() && s.Tail() != Dest(w.grid, s)
    ensures var s, r := w.snakes[i], Step(w, i);
      var c, d := At(w.grid, s.Head()), Dest(w.grid, s);
      var n := Toward(s.Tail(), At(w.grid, s.Tail()));
      && r.snakes[i].live && r.snakes[i].Head() == d && r.snakes[i].Tail() == n
      && n != s.Tail() && d != s.Head()
      && At(r.grid, s.Tail()) == ' '
      && (n == s.Head() ==> At(r.grid, n) == BodyToTail(HeadToBody(c)) && At(r.grid, d) == c)
      && (n != s.Head() && n != d ==>
            At(r.grid, n) == BodyToTail(At(w.grid, n)) && At(r.grid, s.Head()) == HeadToBody(c) &&
            At(r.grid, d) == c)
      && (forall q :: InBounds(w.grid, q) && q != d && q != s.Head() && q != s.Tail() && q != n ==>
            At(r.grid, q) == At(w.grid, q))
      && r.feeder == w.feeder
  {
    var s := w.snakes[i];
    UnitStep(s.headRow, s.headCol, At(w.grid, s.Head()));
    UnitStep(s.tailRow, s.tailCol, At(w.grid, s.Tail()));
  }
}
