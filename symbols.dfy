/** The symbol codec of the board.  Every cell of the board is one character;
    for a snake segment that character encodes both the segment's role
    (tail "wasd", body "^<v>", head "WASD", dead head "x") and the direction
    the segment points in, so that direction and adjacency are read off the
    character alone. */
module Symbols {

  /** `is_tail`: the four tail characters. */
  predicate IsTail(c: char) {
    c == 'w' || c == 'a' || c == 's' || c == 'd'
  }

  /** `is_head`: the four live heads and the dead head 'x'. */
  predicate IsHead(c: char) {
    c == 'W' || c == 'A' || c == 'S' || c == 'D' || c == 'x'
  }

  /** The body characters: the cases `is_snake` adds to heads and tails. */
  predicate IsBody(c: char) {
    c == '^' || c == '<' || c == 'v' || c == '>'
  }

  /** A head that still moves: every head character except the dead head. */
  predicate IsLiveHead(c: char) {
    IsHead(c) && c != 'x'
  }

  /** `is_snake`: a head or a tail, or else one of the body characters. */
  predicate IsSnake(c: char) {
    IsHead(c) || IsTail(c) || IsBody(c)
  }

  /** `get_next_row`: the row one step away in the direction `c` points. */
  function NextRow(row: int, c: char): int {
    match c
    case 'v' => row + 1
    case 's' => row + 1
    case 'S' => row + 1
    case '^' => row - 1
    case 'w' => row - 1
    case 'W' => row - 1
    case _ => row
  }

  /** `get_next_col`: the column one step away in the direction `c` points. */
  function NextCol(col: int, c: char): int {
    match c
    case '>' => col + 1
    case 'd' => col + 1
    case 'D' => col + 1
    case '<' => col - 1
    case 'a' => col - 1
    case 'A' => col - 1
    case _ => col
  }

  /** The displacement one step in the direction of `c`. */
  function Heading(c: char): (int, int) {
    (NextRow(0, c), NextCol(0, c))
  }

  /** `body_to_tail`: turns a body segment into the tail pointing the same
      way; anything else becomes the sentinel '?'. */
  function BodyToTail(c: char): (t: char)
    ensures IsBody(c) ==> IsTail(t) && Heading(t) == Heading(c)
    ensures !IsBody(c) ==> t == '?'
  {
    match c
    case '^' => 'w'
    case '<' => 'a'
    case 'v' => 's'
    case '>' => 'd'
    case _ => '?'
  }

  /** `head_to_body`: turns a live head into the body segment pointing the
      same way; anything else (the dead head included) becomes '?'. */
  function HeadToBody(c: char): (b: char)
    ensures IsLiveHead(c) ==> IsBody(b) && Heading(b) == Heading(c)
    ensures !IsLiveHead(c) ==> b == '?'
  {
    match c
    case 'W' => '^'
    case 'A' => '<'
    case 'S' => 'v'
    case 'D' => '>'
    case _ => '?'
  }

  /** The three role tests are exactly the character sets the source
      documents, and the roles do not overlap. */
  lemma Alphabet(c: char)
    ensures IsSnake(c) <==> c in "wasd^<v>WASDx"
    ensures IsTail(c) <==> c in "wasd"
    ensures IsHead(c) <==> c in "WASDx"
    ensures IsBody(c) <==> c in "^<v>"
    ensures !(IsTail(c) && IsHead(c)) && !(IsTail(c) && IsBody(c)) && !(IsHead(c) && IsBody(c))
  {
  }

  /** The sentinel '?' and the board's other symbols play no snake role. */
  lemma NonSnakeSymbols()
    ensures !IsSnake('?') && !IsSnake('#') && !IsSnake(' ') && !IsSnake('*') && !IsSnake('\n')
  {
  }

  /** Converting a live head to its body form and that to its tail form
      gives the lower-case letter of the head; any other character ends as
      the sentinel '?'. */
  lemma HeadBodyTailRoundTrip(h: char)
    ensures h == 'W' ==> BodyToTail(HeadToBody(h)) == 'w'
    ensures h == 'A' ==> BodyToTail(HeadToBody(h)) == 'a'
    ensures h == 'S' ==> BodyToTail(HeadToBody(h)) == 's'
    ensures h == 'D' ==> BodyToTail(HeadToBody(h)) == 'd'
    ensures !IsLiveHead(h) ==> BodyToTail(HeadToBody(h)) == '?'
  {
  }

  /** A character that moves (a tail, a body or a live head) changes exactly
      one coordinate by exactly one; every other character, the dead head
      'x' included, changes neither. */
  lemma UnitStep(row: int, col: int, c: char)
    ensures NextRow(row, c) == row + 1 <==> c in "vsS"
    ensures NextRow(row, c) == row - 1 <==> c in "^wW"
    ensures NextCol(col, c) == col + 1 <==> c in ">dD"
    ensures NextCol(col, c) == col - 1 <==> c in "<aA"
    ensures NextRow(row, c) == row || NextCol(col, c) == col
    ensures (IsTail(c) || IsBody(c) || IsLiveHead(c))
            <==> (NextRow(row, c), NextCol(col, c)) != (row, col)
  {
  }

  /** Every step is the same displacement wherever it starts. */
  lemma StepIsHeading(row: int, col: int, c: char)
    ensures NextRow(row, c) == row + Heading(c).0
    ensures NextCol(col, c) == col + Heading(c).1
  {
  }
}
