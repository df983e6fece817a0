/** Small boards worked through one tick. */
module Scenarios {
  import opened Board
  import opened Tick
  import opened Locator

  /** A snake of two cells pointing right, with room to move. */
  const Corridor: Grid := ["#####\n", "#dD #\n", "#####\n"]

  /** The snake's head moves into the empty cell, the old head cell turns
      into the new tail, the old tail cell is cleared, and the callback is
      not called. */
  lemma AdvanceOnce(f: Feeder)
    ensures var r := UpdateState(World(Corridor, [Snake(1, 2, 1, 1, true)], f));
      && r.Some? && r.value.snakes == [Snake(1, 3, 1, 2, true)] && r.value.feeder == f
      && At(r.value.grid, (1, 1)) == ' ' && At(r.value.grid, (1, 2)) == 'd'
      && At(r.value.grid, (1, 3)) == 'D'
      && forall q :: InBounds(Corridor, q) && q != (1, 1) && q != (1, 2) && q != (1, 3) ==> At(r.value.grid, q) == At(Corridor, q)
  {
    var s := Snake(1, 2, 1, 1, true);
    var w := World(Corridor, [s], f);
    assert At(Corridor, (1, 2)) == 'D' && Dest(Corridor, s) == (1, 3);
    assert NextSquare(Corridor, s) == ' ';
    var g1 := UpdateHead(Corridor, s).0;
    assert At(g1, (1, 1)) == 'd' && At(g1, (1, 2)) == '>';
    StepAdvance(w, 0);
    assert Run(w, 0) == Run(Step(w, 0), 1);
  }

  /** Two snakes meeting head on. */
  const HeadOn: Grid := ["######\n", "#dDAa#\n", "######\n"]

  /** Snake 0 moves first and dies against snake 1's head; snake 1 then
      dies against the dead head 'x'.  Nothing moves. */
  lemma BothCollide(f: Feeder)
    ensures var r := UpdateState(World(HeadOn, [Snake(1, 2, 1, 1, true), Snake(1, 3, 1, 4, true)], f));
      && r.Some? && r.value.snakes == [Snake(1, 2, 1, 1, false), Snake(1, 3, 1, 4, false)]
      && At(r.value.grid, (1, 2)) == 'x' && At(r.value.grid, (1, 3)) == 'x'
      && forall q :: InBounds(HeadOn, q) && q != (1, 2) && q != (1, 3) ==> At(r.value.grid, q) == At(HeadOn, q)
  {
    var s0, s1 := Snake(1, 2, 1, 1, true), Snake(1, 3, 1, 4, true);
    var w0 := World(HeadOn, [s0, s1], f);
    assert At(HeadOn, (1, 2)) == 'D' && Dest(HeadOn, s0) == (1, 3) && NextSquare(HeadOn, s0) == 'A';
    StepCollide(w0, 0);
    var w1 := Step(w0, 0);
    assert At(w1.grid, (1, 3)) == 'A' && Dest(w1.grid, s1) == (1, 2) && NextSquare(w1.grid, s1) == 'x';
    StepCollide(w1, 1);
    var w2 := Step(w1, 1);
    assert Run(w0, 0) == Run(w1, 1) == Run(w2, 2);
  }

  /** A snake facing food. */
  const Feast: Grid := ["#####\n", "#dD*#\n", "#   #\n", "#####\n"]

  /** The head moves onto the food, the tail stays, and the callback puts
      new food on its first candidate cell, an empty playing cell. */
  lemma GrowOnce()
    ensures var r := UpdateState(World(Feast, [Snake(1, 2, 1, 1, true)], Feeder([(2, 2)], 0)));
      && r.Some? && r.value.snakes == [Snake(1, 3, 1, 1, true)] && r.value.feeder == Feeder([], 1)
      && At(r.value.grid, (1, 1)) == 'd' && At(r.value.grid, (1, 2)) == '>'
      && At(r.value.grid, (1, 3)) == 'D' && At(r.value.grid, (2, 2)) == '*'
  {
    var s := Snake(1, 2, 1, 1, true);
    var w := World(Feast, [s], Feeder([(2, 2)], 0));
    assert At(Feast, (1, 2)) == 'D' && Dest(Feast, s) == (1, 3) && NextSquare(Feast, s) == '*';
    var g1 := UpdateHead(Feast, s).0;
    assert Addressable(g1, (2, 2)) && At(g1, (2, 2)) == ' ';
    StepGrow(w, 0);
    assert Run(w, 0) == Run(Step(w, 0), 1);
  }

  /** Locating the snakes on the corridor board finds its one tail and,
      following it, its head. */
  lemma LocateCorridor()
    ensures RowsTerminated(Corridor) && AllTailsReach(Corridor)
    ensures Locate(Corridor) == [Snake(1, 2, 1, 1, true)]
  {
    var g := Corridor;
    CorridorTails();
    CorridorHead();
    assert LocatedUpTo(g, 0, 0) == [];
    assert LocatedUpTo(g, 0, 2) == [];
    assert LocatedUpTo(g, 0, 4) == [];
    assert LocatedUpTo(g, 1, 1) == [];
    assert Record(g, (1, 1)) == Snake(1, 2, 1, 1, true);
    assert LocatedUpTo(g, 1, 2) == [Snake(1, 2, 1, 1, true)];
    assert LocatedUpTo(g, 1, 4) == [Snake(1, 2, 1, 1, true)];
    assert LocatedUpTo(g, 2, 2) == [Snake(1, 2, 1, 1, true)];
    assert LocatedRows(g, 3) == LocatedUpTo(g, 2, 4) == [Snake(1, 2, 1, 1, true)];
  }

  lemma CorridorTails()
    ensures RowsTerminated(Corridor) && Tails(Corridor) == [(1, 1)]
  {
    var g := Corridor;
    assert ScanRow(g, 0, 4) == [] && ScanRow(g, 2, 4) == [];
    assert ScanRow(g, 1, 1) == [] && ScanRow(g, 1, 2) == [(1, 1)];
    assert ScanRow(g, 1, 4) == [(1, 1)];
    assert ScanRows(g, 3) == [(1, 1)];
  }

  lemma CorridorHead()
    ensures Reaches(Corridor, (1, 1)) && HeadOf(Corridor, (1, 1)) == (1, 2)
  {
    assert FirstHead(Corridor, (1, 1), 1) == Some((1, 2));
  }
}
