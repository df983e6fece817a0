# snek game state: a Dafny model of `src/state.c`

This project models the core of the multi-snake game in `src/state.c`.
The board is a grid of characters, one line of the board text per row, each
row ending in its newline. Every snake segment is one character that encodes
two things: its role (tail `wasd`, body `^<v>`, head `WASD`, dead head `x`)
and the direction it points in. The game state pairs that board with one
record per snake: head position, tail position and a liveness flag.

The model has six modules.

- `Symbols` (symbols.dfy): the character codec: `is_tail`, `is_head`, `is_snake`,
  `body_to_tail`, `head_to_body`, `get_next_row` and `get_next_col`.
- `Board` (board.dfy): the grid as a value (`seq<seq<char>>`), the `snake_t` record,
  cell access, and the walled-board predicate `Enclosed`.
- `Tick` (tick.dfy): one tick of `update_state` as pure functions. `Step` is
  one snake's turn and `Run` does the turns in index order. The lemmas state
  what collision, growth and advance do to the board and the records.
- `Locator` (locator.dfy): `find_head` as a fuelled walk (`FirstHead`), and
  `initialize_snakes` as a row-major scan (`LocatedRows`/`LocatedUpTo`/`Locate`).
  The lemmas pin down the scan's count, order and contents.
- `Chains` (chains.dfy): well-formed games. On a board fenced by walls, every
  snake's body is a chain of linked cells from tail to head, and no two
  chains overlap. The theorems show that a tick of such a game:
  - never leaves the board;
  - keeps the game well-formed;
  - leaves dead snakes alone;
  - lengthens a body only by eating, by exactly one cell per `add_food`
    call;
  - keeps every record rebuildable by `find_head`.
- `State` (state.dfy): the imperative form of the source.
  - The class `GameState` holds the board as `array<array<char>>`, rewritten
    in place, together with the snake records.
  - Its methods follow the C functions statement by statement. Each is
    proved against the `Tick`/`Locator` function for the same operation.
  - `FoodSupply` stands in for the `add_food` callback.
- `Scenarios` (scenarios.dfy): small concrete boards. They show one advance,
  a head-on collision of two snakes, a meal with food placement, and the
  snakes located on a loaded board.

Positions are mathematical integers. A step off row or column 0 gives -1,
which no bounds test accepts. This is where the source's unsigned counter
wraps to a huge value, which is also past every bound.

## Model

| member | source | states |
|---|---|---|
| Symbols.Alphabet | src/state.c:160-220 | `is_snake` holds for exactly the 13 characters `wasd^<v>WASDx`, `is_tail` for exactly `wasd` and `is_head` for exactly `WASDx` (the dead head included); the three roles are disjoint |
| Symbols.NonSnakeSymbols | src/state.c:202-220 | the sentinel `?`, wall, space, food and newline play no snake role |
| Symbols.BodyToTail | src/state.c:227-247 | a body character becomes the tail pointing the same way; every other character becomes `?` |
| Symbols.HeadToBody | src/state.c:254-274 | a live head becomes the body pointing the same way; every other character, `x` included, becomes `?` |
| Symbols.HeadBodyTailRoundTrip | src/state.c:227-274 | `body_to_tail(head_to_body(H))` is the lower-case letter of each live head `H`, and `?` for any other character |
| Symbols.UnitStep | src/state.c:281-322 | `v,s,S` add one row and `^,w,W` remove one, `>,d,D` add one column and `<,a,A` remove one; a moving character changes exactly one coordinate by one, and every other character (`x` included) changes nothing |
| Symbols.StepIsHeading | src/state.c:281-322 | a step is the same displacement wherever it starts |
| Board.Put | src/state.c:150-153 | writing a cell changes that cell only and keeps the board's shape |
| Board.EnclosedStep | src/state.c:281-322 | on a walled board, a step from any non-wall playing cell lands on a playing cell |
| State.GameState.BoardAt | src/state.c:144 | `get_board_at` returns the character at the position |
| State.GameState.SetBoardAt | src/state.c:150-153 | `set_board_at` rewrites one cell of the row array in place |
| State.GameState.NextSquare | src/state.c:331-339 | `next_square` changes nothing and returns the character in the cell the head's character points to |
| State.GameState.UpdateHead | src/state.c:352-364 | the destination gets the head character, then the old head cell gets its body form, and the record's head moves; no other record changes |
| State.GameState.UpdateTail | src/state.c:376-389 | the cell after the tail gets `body_to_tail` of its character, then the old tail cell is blanked, and the record's tail moves; no other record changes |
| State.GameState.Turn | src/state.c:396-414 | one loop iteration: the board, records and callback state afterwards are `Tick.Step` of those before |
| State.GameState.Die | src/state.c:400-404 | a live snake facing a wall or a snake character is marked dead and its head cell becomes `x` |
| State.GameState.Grow | src/state.c:405-409 | a live snake facing food runs `update_head`, then calls `add_food` once |
| State.GameState.Advance | src/state.c:410-414 | a live snake facing anything else runs `update_head`, then `update_tail` |
| State.GameState.UpdateState | src/state.c:392-417 | the loop over all snakes in index order leaves exactly the state `Tick.UpdateState` computes |
| Tick.Step | src/state.c:396-414 | one turn keeps the board's shape and the number of records, and changes no other snake's record |
| Tick.Run | src/state.c:394-417 | the turns from snake `i` on keep the board's shape and the number of records, and leave the records before `i` alone |
| Tick.DeadSnakeUnchanged | src/state.c:396-398 | a dead snake's turn reads its destination and changes nothing |
| Tick.CollisionEffect | src/state.c:400-404 | on a wall or any snake character (a vacating tail and the snake's own body included) the snake dies in place; its head cell becomes `x` and no other cell, coordinate or callback state changes |
| Tick.GrowthEffect | src/state.c:405-409 | on food, the head moves into the food cell with its character, the old head cell becomes body, and the tail stays; `add_food` is called exactly once and may only turn empty cells into food |
| Tick.AdvanceEffect | src/state.c:410-414 | otherwise the head moves as on food, the tail cell is blanked, and the cell the tail points to becomes the new tail; the callback is not called and no other cell changes |
| Tick.AddFoodEffect | src/state.c:408 | the callback stand-in is called once, keeps the board's shape, and changes at most empty playing cells into food |
| Chains.StepKeepsSound | src/state.c:396-414 | in a well-formed game each turn stays on the board and keeps the game well-formed, with the bodies updated as `StepChains` says |
| Chains.CollideKeepsSound | src/state.c:400-404 | a collision keeps the game well-formed; the body is unchanged and ends in `x` |
| Chains.GrowKeepsSound | src/state.c:405-409 | growth keeps the game well-formed; the body gains the destination cell at its head end |
| Chains.AdvanceKeepsSound | src/state.c:410-414 | advance keeps the game well-formed; the body loses its tail cell and gains the destination, so its length is kept |
| Chains.AdvanceChain | src/state.c:352-389 | `update_head` then `update_tail` turns the body `cs` into `cs[1..] + [destination]` and touches only four cells |
| Chains.GrowChain | src/state.c:352-364 | `update_head` extends the body by the destination cell and touches only the old head and the destination |
| Chains.ShedTail | src/state.c:376-389 | `update_tail` on a body of three or more cells drops its first cell and touches only the first two |
| Chains.StepChainsEffect | src/state.c:396-414 | a turn changes only its own snake's record and body, a dead snake's not at all, and the body grows by exactly the number of `add_food` calls (0 or 1) |
| Chains.RunKeepsSound | src/state.c:394-417 | the remaining turns of a tick, in index order, stay on the board and keep the game well-formed |
| Chains.UpdateStateKeepsSound | src/state.c:392-417 | a tick of a well-formed game never leaves the board and keeps it well-formed; dead snakes are untouched, no body shrinks or grows by more than one cell, and the bodies grow in total by the number of `add_food` calls |
| Chains.ChainSuffixHead | src/state.c:516-535 | `find_head` started anywhere on a body reaches that snake's head |
| Chains.SoundRecordsLocatable | src/state.c:516-535 | in a well-formed game every record's head is the one `find_head` finds from its tail |
| Locator.FirstHead | src/state.c:516-535 | the walk's result, when there is one, is an in-bounds head character |
| Locator.FirstHeadOnWalk | src/state.c:524-529 | `find_head` returns exactly the first head character on the walk from the tail, with every earlier step on the board and not a head |
| Locator.FirstHeadFuel | src/state.c:524-529 | a larger step bound does not change what `find_head` finds |
| Locator.HeadOf | src/state.c:516-535 | when the walk meets a head, that head is the same under every sufficient step bound |
| Locator.TailsExactly | src/state.c:551-556 | the scan finds every tail character in the scanned columns (all but each row's last character) and nothing else, in row-major order |
| Locator.LocatedExactly | src/state.c:570-574 | one live record per tail, with its tail where it was found and its head where `find_head` ends |
| Locator.LocatedUpToAreLocated | src/state.c:551-577 | the scan so far holds exactly the records of the tails scanned so far |
| Locator.LocateExactly | src/state.c:538-585 | `initialize_snakes` builds one live record per tail character in the scanned columns, in row-major order of the tails; each keeps its tail where it was found and holds the head `find_head` reaches from it |
| State.GameState.FindHead | src/state.c:516-535 | the loop follows the characters from the tail to the first head and stores it in that record only |
| State.GameState.AddSnake | src/state.c:570-574 | appends a live record with the scanned tail and the head `find_head` finds |
| State.GameState.ScanRowForTails | src/state.c:554-576 | the inner loop over a row's scanned columns appends the records of that row's tails, left to right |
| State.GameState.InitializeSnakes | src/state.c:538-585 | the nested loops leave exactly the records `Locator.Locate` describes |
| State.FoodSupply.AddFood | src/state.c:408 | the callback stand-in's effect is `Tick.AddFood` |
| Scenarios.AdvanceOnce | src/state.c:410-414 | a two-cell snake facing an empty cell moves one cell forward; its old tail cell is cleared |
| Scenarios.BothCollide | src/state.c:394-404 | two snakes meeting head on: the first dies against the other's head, then the second dies against the `x` |
| Scenarios.GrowOnce | src/state.c:405-409 | a snake eating keeps its tail, moves its head onto the food, and the callback places new food |
| Scenarios.LocateCorridor | src/state.c:538-585 | on a one-snake board the scan finds one live record with the right tail and head |

## Left out

- `create_default_state`, `free_state`, `print_board`, `save_board`,
  `read_line` and `load_board` are memory management and stream I/O.
  `State.GameState.constructor` stands for a loaded board.
- The `malloc`/`realloc` growth, the final shrink and the allocation-failure
  paths of `initialize_snakes` are left out. The records are a `seq`, so only
  the resulting list is modelled, and the `NULL` state argument is not
  modelled either.
- `add_food` comes from a header that is not part of this model. `FoodSupply`
  (`Tick.Feeder` as a value) stands in for it:
  - it takes candidate cells in order;
  - it puts food on the next one when that cell is an empty playing cell;
  - it counts its calls.

  The theorems about well-formed games are proved for this stand-in only.
  Each of its calls keeps the board's shape and turns at most one empty
  playing cell into food. A callback that fills several cells in one call,
  or rewrites anything else, is not covered.
- Bounds. The C code does no bounds checking, and a step off row or column 0
  wraps its unsigned counter. The model makes every access explicit instead:
  `Tick.HeadSafe`/`Tick.TailSafe`/`Tick.StepSafe` in the pure tick, and
  `Run` returns `None` when some access would leave the board.
  - `State.GameState.UpdateState` requires that the tick stays on the board.
    `Chains.UpdateStateKeepsSound` shows this always holds in a well-formed
    game.
  - The source has no out-of-bounds error to report, so none is modelled.
- `State.GameState.FindHead`, `State.GameState.InitializeSnakes`: both require
  that the walk from each tail meets a head (`Locator.Reaches`,
  `Locator.AllTailsReach`). On other boards the source's `while` loop runs
  forever or reads outside the board. No error is modelled for that case,
  because the source has none.
- `State.GameState.InitializeSnakes` assumes each row holds its trailing
  newline and no NUL character, so `strlen(row)` is the row's array length.
  An empty row, where `strlen(row) - 1` wraps around, is excluded by
  `Locator.RowsTerminated`.
- `State.GameState.Grow` calls the stand-in callback with the whole state.
  The real callback's freedom to rewrite anything is not modelled.
- No lemma shows that a board loaded from text is well-formed in the sense
  of `Chains.Sound`. That depends on the board file.
