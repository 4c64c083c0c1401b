# SudokuSolverLib in Dafny

This project models the engine of SudokuSolverLib, a C# library that solves sudoku variants by
constraint propagation and a depth-first search over copies of the board. The model follows the
`src/SudokuSolverLib/` tree. The older top-level `SudokuSolverLib/` tree has the same logic with
other names (`_maxValue` for `maximumValue`), and the same model describes it. Its rule and factory
take an `ILanguage`; its board and tile have none.

- **SudokuProgress** (`Signal`). The three outcomes of a propagation step, `Failed`, `NoProgress` and
  `Progress`, and `CombineSolvedState`, which merges two of them. Merging is the maximum under
  NoProgress < Progress < Failed. A board's `Simplify` is modelled as a left fold of that merge.
- **SudokuTile** (`Tiles`). A class with the tile's coordinates and its maximum, plus these mutable
  parts: a value (0 means empty), a sticky blocked flag and a set of candidate values. The value
  setter, `Block`, `ResetPossibles`, `Fix` and `RemovePossibles` are methods. Each is proved against a
  function on the value type `TileState` (`Reset`, `Fixed`, `Removed`).
- **SudokuRule** (`Rules`). A class holding its member tiles (duplicates dropped, as the source's
  hash set does) and a description.
  - `CheckValid` and `CheckComplete` read the members.
  - `RemovePossibles` (the elimination step) and `CheckForOnlyOnePossibility` (the single-position
    step) change the members through the tiles. Each is proved against a function on the members'
    states (`Eliminate`, `SinglePositionFrom`, `SolveSpec`).
  - Lemmas state what a rule's `Solve` guarantees: values are only filled, candidates only shrink,
    Progress fills a member, and NoProgress changes no value and leaves every member settled.
- **SudokuBoard** (`Boards`, `Propagation`, `Text`). A class with a two-dimensional array of tiles
  indexed `[x, y]`, a sequence of rules and the row cursor used by `AddRow`.
  - The constructors, the copy constructor, `CreateRule`, `AddBoxesCount`, `AddRow`,
    `OutputSolution`, `ResetSolutions`, `Simplify` and `Solve` are methods.
  - Propagation is proved against a function on snapshots of every tile's state. One rule's step
    reads its members, solves and writes them back.
  - `Solve` is proved to return only boards that are solved. Such a board is valid, no rule repeats a
    value, and every rule member is filled or blocked. It keeps the size, the maximum, the rules and
    every value that was already set. The search is proved to terminate: every trial fills one more
    empty cell.
  - The copy constructor copies values and rule membership but not blocked flags
    (`Boards.Board.CopyTiles`). On a samurai board the gap tiles of the first copy are therefore
    ordinary empty members of the line rules that cross the gaps, and the search fills them like any
    other tile. The model keeps that behaviour.
- **SudokuFactory** (`Positions`, `Factory`). The `Box` enumeration, and the recipes:
  - the classic 9 by 9 board with 3 by 3 boxes;
  - its hyper variant;
  - boards whose areas are drawn as rows of text;
  - the samurai board of five overlapping grids.

  For each recipe the rule list is proved equal to an explicit description, and the description has
  the shape the recipe promises:
  - the classic board has 27 rules of 9 tiles, and its boxes tile the grid;
  - the four hyper regions are disjoint 3 by 3 squares;
  - the drawn areas partition the board by character;
  - the samurai board has 41 area rules of 9 open tiles and then 102 line rules of 9 tiles.

## Model

| member | source | states |
|---|---|---|
| Signal.Combine | src/SudokuSolverLib/SudokuTile.cs:170-193 | the merged outcome is one of the two inputs, the one ranked higher under NoProgress < Progress < Failed |
| Signal.FailedAbsorbs | src/SudokuSolverLib/SudokuTile.cs:172-185 | Failed merged with anything, on either side, is Failed |
| Signal.NoProgressIsIdentity | src/SudokuSolverLib/SudokuTile.cs:177-185 | NoProgress merged with an outcome, on either side, gives that outcome |
| Signal.CombineCommutesAndAssociates | src/SudokuSolverLib/SudokuTile.cs:170-193 | the merge is commutative and associative, so folding a fixed list of step outcomes gives the same result in any order; the outcomes themselves still depend on the order the rules run in, because each rule sees the tiles the rules before it fixed |
| Signal.FoldOutcome | src/SudokuSolverLib/SudokuBoard.cs:391-399 | the aggregate from NoProgress is Failed iff some step failed, Progress iff none failed and one progressed, NoProgress iff every step made no progress |
| Signal.FoldAppend | src/SudokuSolverLib/SudokuBoard.cs:391-399 | aggregating one more outcome merges it into the aggregate so far |
| Signal.Fold | src/SudokuSolverLib/SudokuBoard.cs:396-398 | the aggregate from NoProgress is NoProgress or one of the aggregated outcomes |
| Seqs.Dedup | src/SudokuSolverLib/SudokuRule.cs:27-31 | the hash set of a sequence: no element twice, every element of the sequence kept, nothing else added |
| Seqs.DedupKeeps | src/SudokuSolverLib/SudokuRule.cs:27-31 | a sequence without repetitions becomes a set unchanged |
| Tiles.ResetCandidates | src/SudokuSolverLib/SudokuTile.cs:198-208 | after a reset an empty tile has candidates 1..max and a filled tile exactly its value; value and blocked flag stay; the tile is coherent |
| Tiles.FixedMeaning | src/SudokuSolverLib/SudokuTile.cs:215-225 | fixing v in 1..max leaves value v and candidates {v}, blocked flag and maximum unchanged |
| Tiles.RemovedOutcome | src/SudokuSolverLib/SudokuTile.cs:232-260 | removing values from an unblocked tile fails iff no candidate remains, progresses iff exactly one remains and then fixes the tile to it, and otherwise just narrows the candidates |
| Tiles.TheOnly | src/SudokuSolverLib/SudokuTile.cs:243-250 | the element taken from a one-element candidate set is its only element |
| Tiles.Tile.constructor | src/SudokuSolverLib/SudokuTile.cs:55-64 | a new tile at (x, y) with the given maximum is empty, unblocked and has no candidates |
| Tiles.Tile.SetValue | src/SudokuSolverLib/SudokuTile.cs:69-91 | the setter succeeds iff 0 <= v <= maximum and then stores v; where it throws, the tile is unchanged |
| Tiles.Tile.Block | src/SudokuSolverLib/SudokuTile.cs:126-129 | only the blocked flag changes, to true |
| Tiles.Tile.ResetPossibles | src/SudokuSolverLib/SudokuTile.cs:198-208 | the new state is the reset of the old one and is coherent |
| Tiles.Tile.Fix | src/SudokuSolverLib/SudokuTile.cs:215-225 | the new state is the old one with the value stored and the candidates reset |
| Tiles.Tile.RemovePossibles | src/SudokuSolverLib/SudokuTile.cs:232-260 | the new state and the outcome are those of removing the existing numbers; a blocked tile is untouched |
| Tiles.Tile.HasValue | src/SudokuSolverLib/SudokuTile.cs:96 | on a well-formed tile, true exactly when the value is one of 1..maximum; when false, a reset gives the tile every value of 1..maximum as a candidate |
| Tiles.Tile.PossibleCountMeaning | src/SudokuSolverLib/SudokuTile.cs:121 | the count is never negative; a blocked tile counts one; otherwise it is zero exactly when no candidate is left, and one on a coherent tile that holds a value |
| Tiles.Tile.IsValuePossible | src/SudokuSolverLib/SudokuTile.cs:159-162 | on a well-formed tile only values of 1..maximum are candidates; on a coherent tile holding a value, that value is the only candidate |
| Rules.GroupsAreSingletonsIff | src/SudokuSolverLib/SudokuRule.cs:60-65 | grouping the filled members by value gives only singleton groups iff no two filled members share a value |
| Rules.EliminatePointwise | src/SudokuSolverLib/SudokuRule.cs:102-117 | the elimination loop treats each member on its own (filled ones skipped) and its outcome is the merge of the members' outcomes |
| Rules.EliminatedFacts | src/SudokuSolverLib/SudokuRule.cs:114-116 | one member's elimination keeps it well formed, only fills its value and shrinks its candidates; Progress fills it, NoProgress leaves it settled |
| Rules.EliminateFacts | src/SudokuSolverLib/SudokuRule.cs:102-117 | the elimination step only fills values and shrinks candidates; Progress fills some empty member; NoProgress changes no value and leaves every member settled |
| Rules.Holders | src/SudokuSolverLib/SudokuRule.cs:138 | exactly the indices of the empty members that still have v as a candidate |
| Rules.HoldersAscending | src/SudokuSolverLib/SudokuRule.cs:138 | the holders are listed in member order, strictly increasing, so none twice |
| Rules.SinglePositionFacts | src/SudokuSolverLib/SudokuRule.cs:124-153 | the single-position step keeps members well formed and only fixes empty members to one of their own candidates; NoProgress changes nothing; Progress fills an empty member (the failure on a value with no holder and the fix of a value with one holder are Rules.NoHolderFails and Rules.SingleHolderFixed) |
| Rules.NoHolderFails | src/SudokuSolverLib/SudokuRule.cs:133-143 | a value from v to n that the rule lacks and no empty member can take makes the step return Failed |
| Rules.SingleHolderFixed | src/SudokuSolverLib/SudokuRule.cs:133-149 | a value from v to n that the rule lacks and exactly one empty member can take is fixed on that member, unless the step fails |
| Rules.FilledKept | src/SudokuSolverLib/SudokuRule.cs:138-149 | a member that already has a value is never changed by the step |
| Rules.SolveFacts | src/SudokuSolverLib/SudokuRule.cs:90-96 | a rule's Solve keeps members well formed (and coherent), only fills values and shrinks candidates; Progress fills a member; NoProgress changes no value and settles every member |
| Rules.Eliminate | src/SudokuSolverLib/SudokuRule.cs:102-117 | the elimination step yields one new state per member; what it does to them is stated by Rules.EliminatePointwise and Rules.EliminateFacts |
| Rules.SinglePositionFrom | src/SudokuSolverLib/SudokuRule.cs:130-150 | the single-position loop yields one new state per member; Rules.SinglePositionFacts, Rules.NoHolderFails, Rules.SingleHolderFixed and Rules.FilledKept state what it does to them |
| Rules.SolveSpec | src/SudokuSolverLib/SudokuRule.cs:90-96 | a rule's Solve yields one new state per member; what it does to them is stated by Rules.SolveFacts |
| Rules.Rule.constructor | src/SudokuSolverLib/SudokuRule.cs:27-31 | the members are the given tiles with duplicates dropped; the description is kept |
| Rules.Rule.CheckValid | src/SudokuSolverLib/SudokuRule.cs:60-65 | true iff no two filled members share a value |
| Rules.Rule.CheckComplete | src/SudokuSolverLib/SudokuRule.cs:71-74 | true exactly when every member has a value and no value repeats among the members |
| Rules.Rule.EliminateAt | src/SudokuSolverLib/SudokuRule.cs:114-116 | member i alone goes through the elimination; every other member is unchanged |
| Rules.Rule.EliminateNext | src/SudokuSolverLib/SudokuRule.cs:114-116 | one step of the aggregate: after member i, the members and the outcome so far are the elimination step over the first i + 1 members, the rest untouched |
| Rules.Rule.RemovePossibles | src/SudokuSolverLib/SudokuRule.cs:102-117 | the members' new states and the outcome are the elimination step with the values already present |
| Rules.Rule.FixMember | src/SudokuSolverLib/SudokuRule.cs:145-149 | only member k changes, to the fixed state |
| Rules.Rule.SinglePositionNext | src/SudokuSolverLib/SudokuRule.cs:130-150 | one value of the loop: a missing value with no holder fails, one with a single holder fixes it, others change nothing |
| Rules.Rule.CheckForOnlyOnePossibility | src/SudokuSolverLib/SudokuRule.cs:124-153 | the members' new states and the outcome are the single-position step over the values 1..member count |
| Rules.Rule.Solve | src/SudokuSolverLib/SudokuRule.cs:90-96 | the new states and the outcome are elimination then the single-position step, outcomes merged |
| Text.NumericValue | src/SudokuSolverLib/SudokuBoard.cs:272 | a decimal digit reads as its value in 0..9, any other character as -1 |
| Text.Decimal | src/SudokuSolverLib/SudokuTile.cs:135-138 | a value prints as at least one character, a value 0..9 as its single digit, a non-negative value as digits only |
| Text.DecimalRoundTrip | src/SudokuSolverLib/SudokuTile.cs:135-138 | reading back the digits printed for a non-negative value gives the value |
| Text.ApplyCell | src/SudokuSolverLib/SudokuBoard.cs:266-273 | '/' blocks the tile and keeps its value; any other character is accepted iff its value fits 0..max and is then stored; candidates never change |
| Text.ApplyRowFrame | src/SudokuSolverLib/SudokuBoard.cs:259-277 | reading a row changes only the cells the string reaches, and never a cell's maximum or candidates |
| Text.RenderPrefix | src/SudokuSolverLib/SudokuBoard.cs:169-184 | the output of the first y + 1 rows is that of the first y rows followed by row y and a newline |
| Text.RenderRowDigits | src/SudokuSolverLib/SudokuBoard.cs:175-178 | with values 0..9 a row prints as one digit per cell, in x order |
| Text.RowRoundTrip | src/SudokuSolverLib/SudokuBoard.cs:169-184 | a printed row of single-digit values read back by AddRow raises nothing and restores exactly those values |
| Propagation.ScatterAt | src/SudokuSolverLib/SudokuRule.cs:102-117 | with distinct members, each member's tile receives that member's new state |
| Propagation.StepRule | src/SudokuSolverLib/SudokuBoard.cs:391-399 | one rule's step is defined on every tile of the snapshot |
| Propagation.SimplifyRulesNext | src/SudokuSolverLib/SudokuBoard.cs:391-399 | folding one more rule is the fold so far followed by that rule's step |
| Propagation.ResetAll | src/SudokuSolverLib/SudokuBoard.cs:379-385 | resetting is defined on exactly the board's tiles |
| Propagation.ResetAllFacts | src/SudokuSolverLib/SudokuBoard.cs:379-385 | resetting keeps every value and blocked flag and leaves every tile well formed and coherent |
| Propagation.StepRuleFacts | src/SudokuSolverLib/SudokuBoard.cs:391-399 | one rule's step only fills values and shrinks candidates, Progress fills a tile, NoProgress keeps values and settles its members; other tiles are untouched |
| Propagation.SimplifyRulesFacts | src/SudokuSolverLib/SudokuBoard.cs:391-399 | the fold over all rules only fills values and shrinks candidates, Progress fills a tile, NoProgress keeps every value and settles every member of every rule |
| Propagation.SimplifyRulesGrow | src/SudokuSolverLib/SudokuBoard.cs:391-399 | by induction over the rules: well-formedness and coherence kept, values only filled, Progress fills a tile |
| Propagation.SimplifyRulesSettle | src/SudokuSolverLib/SudokuBoard.cs:391-399 | by induction over the rules: a NoProgress fold keeps every value and leaves every rule's members settled |
| Propagation.SimplifyFacts | src/SudokuSolverLib/SudokuBoard.cs:391-399 | Simplify fails and changes nothing on a board where a rule repeats a value; otherwise the fold's guarantees hold, and NoProgress leaves every rule valid |
| Propagation.EmptyCountShrinks | src/SudokuSolverLib/SudokuBoard.cs:195-198 | filling never adds an empty tile, and filling one removes one, so the Simplify loop ends |
| Positions.Column | src/SudokuSolverLib/SudokuBoard.cs:359-365 | column x lists (x, 0) .. (x, sizeY - 1) in order |
| Positions.BoxOrder | src/SudokuSolverLib/SudokuFactory.cs:48-57 | Box lists sizeX * sizeY positions in the rectangle, x outer and y inner |
| Positions.BoxDistinct | src/SudokuSolverLib/SudokuFactory.cs:48-57 | no position is listed twice |
| Positions.BoxCovers | src/SudokuSolverLib/SudokuFactory.cs:48-57 | every position of the rectangle is listed, (x, y) at index x * sizeY + y |
| Positions.BoxAt | src/SudokuSolverLib/SudokuFactory.cs:48-57 | position i of the enumeration is (i / sizeY, i % sizeY) |
| Positions.BoxContains | src/SudokuSolverLib/SudokuFactory.cs:48-57 | every position of the rectangle is in Box |
| Positions.BoxInside | src/SudokuSolverLib/SudokuFactory.cs:48-57 | every position of Box lies in the rectangle |
| Boards.ColumnShapes | src/SudokuSolverLib/SudokuBoard.cs:315-319 | one "Row x" rule per x over the whole column x |
| Boards.RowShapes | src/SudokuSolverLib/SudokuBoard.cs:321-325 | one "Col y" rule per y over the whole row y |
| Boards.RectCoords | src/SudokuSolverLib/SudokuBoard.cs:336-339 | the tiles of a box are its sizeX * sizeY positions from the corner, in Box order |
| Boards.RectInside | src/SudokuSolverLib/SudokuBoard.cs:336-339 | a box that fits on the board names board positions, none twice |
| Boards.BoxPlacement | src/SudokuSolverLib/SudokuBoard.cs:284-296 | a box position scaled by the box size stays on a board at least box-size squared wide and high |
| Boards.ZeroCountMonotone | src/SudokuSolverLib/SudokuBoard.cs:190-239 | a grid that keeps every set value has no more empty cells |
| Boards.ZeroCountFill | src/SudokuSolverLib/SudokuBoard.cs:223-238 | fixing an empty cell removes exactly one empty cell and keeps every set value, so the search terminates |
| Boards.FirstMinimal | src/SudokuSolverLib/SudokuBoard.cs:206-212 | none iff no count exceeds 1; otherwise the first entry above 1 with the least count (a stable order by count) |
| Boards.FlattenMembers | src/SudokuSolverLib/SudokuBoard.cs:206-207 | the flattened query visits exactly the members of the rules |
| Boards.MinimalMember | src/SudokuSolverLib/SudokuBoard.cs:206-212 | the query's pick has more than one candidate and no more than any rule member with more than one |
| Boards.AnswerCarries | src/SudokuSolverLib/SudokuBoard.cs:234-237 | an answer for a board whose values extend the entry values is an answer for the entry |
| Boards.Board.PlacedDistinct | src/SudokuSolverLib/SudokuBoard.cs:301-307 | two different tiles of a valid board sit at different positions |
| Boards.Board.CreateTiles | src/SudokuSolverLib/SudokuBoard.cs:301-307 | a fresh tile at every position, knowing its coordinates, empty, unblocked, without candidates |
| Boards.Board.CopyTiles | src/SudokuSolverLib/SudokuBoard.cs:92-99 | fresh tiles holding the copied board's values, not its blocked flags or candidates |
| Boards.Board.CopiedTile | src/SudokuSolverLib/SudokuBoard.cs:94-98 | a new tile at (x, y) whose value is the copied board's value there |
| Boards.Board.constructor | src/SudokuSolverLib/SudokuBoard.cs:55-67 | a width by height board of fresh empty tiles; line rules exactly when the maximum equals the width or the height |
| Boards.Board.WithSides | src/SudokuSolverLib/SudokuBoard.cs:75-77 | the maximum is the larger side and the line rules are always added |
| Boards.Board.Clone | src/SudokuSolverLib/SudokuBoard.cs:84-113 | the copy has fresh tiles with the same values and the same rules (descriptions and positions), in the same order |
| Boards.Board.CopyRules | src/SudokuSolverLib/SudokuBoard.cs:102-112 | every rule of the copied board is rebuilt over this board's tiles at the same positions |
| Boards.Board.CopyRule | src/SudokuSolverLib/SudokuBoard.cs:102-112 | one rule of the copied board, rebuilt over this board's tiles at the same positions with its description, is appended; the rules before it are kept |
| Boards.Board.SamePositions | src/SudokuSolverLib/SudokuBoard.cs:104-109 | this board's tiles at a rule's member positions, in member order, none twice |
| Boards.Board.AddBoxesCount | src/SudokuSolverLib/SudokuBoard.cs:284-296 | one box rule per position of Box(sizeX, sizeY), box size Width / boxesX by Height / boxesY, appended after the existing rules |
| Boards.Board.AddBox | src/SudokuSolverLib/SudokuBoard.cs:291-295 | the rule of box i, over the sizeX by sizeY rectangle at its position, is appended after the boxes before it |
| Boards.Board.TilesAt | src/SudokuSolverLib/SudokuBoard.cs:336-339 | the tiles at the given positions, in order |
| Boards.Board.TilesAtDistinct | src/SudokuSolverLib/SudokuBoard.cs:150-163 | tiles at distinct positions are distinct, so the rule's hash set keeps them all in order |
| Boards.Board.CreateRule | src/SudokuSolverLib/SudokuBoard.cs:150-163 | a fresh rule over the given tiles, duplicates dropped, is appended; nothing else changes |
| Boards.Board.CreateRuleAt | src/SudokuSolverLib/SudokuBoard.cs:150-163 | the appended rule has the given description and exactly the given positions |
| Boards.Board.SetupLineRules | src/SudokuSolverLib/SudokuBoard.cs:312-326 | a "Row x" rule per column, then a "Col y" rule per row, appended |
| Boards.Board.AddColumnRules | src/SudokuSolverLib/SudokuBoard.cs:315-319 | the column loop appends the column rules |
| Boards.Board.AddColumnRule | src/SudokuSolverLib/SudokuBoard.cs:315-319 | the rule of column x, with every tile of that column, is appended after the columns before it |
| Boards.Board.AddRowRules | src/SudokuSolverLib/SudokuBoard.cs:321-325 | the row loop appends the row rules |
| Boards.Board.AddRowRule | src/SudokuSolverLib/SudokuBoard.cs:321-325 | the rule of row y, with every tile of that row, is appended after the rows before it |
| Boards.Board.RowStates | src/SudokuSolverLib/SudokuBoard.cs:346-352 | the states of row y in x order, empty for a row off the grid |
| Boards.Board.Values | src/SudokuSolverLib/SudokuBoard.cs:169-184 | the grid's values row by row |
| Boards.Board.AddCell | src/SudokuSolverLib/SudokuBoard.cs:264-273 | one character changes only its own cell, as ApplyCell says; false where the setter throws |
| Boards.Board.AddRow | src/SudokuSolverLib/SudokuBoard.cs:259-277 | the row at the cursor becomes what ApplyRowFrom gives, with the exception it raises; other rows are untouched; the cursor moves on only without an exception |
| Boards.Board.AddRowCell | src/SudokuSolverLib/SudokuBoard.cs:262-274 | one character of the row moves the loop one step towards the row ApplyRowFrom gives, or ends it with the out-of-range error; other rows are untouched |
| Boards.Board.FillRow | src/SudokuSolverLib/SudokuBoard.cs:262-274 | the character loop of AddRow over row y |
| Boards.Board.RowText | src/SudokuSolverLib/SudokuBoard.cs:175-178 | row y's values printed in x order |
| Boards.Board.OutputSolution | src/SudokuSolverLib/SudokuBoard.cs:169-184 | every row's values printed, each row followed by a newline |
| Boards.Board.AppendRow | src/SudokuSolverLib/SudokuBoard.cs:173-181 | one row of the output loop extends the output by that row and a newline |
| Boards.Board.Snap | src/SudokuSolverLib/SudokuBoard.cs:36 | the state of every tile of the board, and of nothing else |
| Boards.Board.Members | src/SudokuSolverLib/SudokuBoard.cs:31 | the members of every rule, in rule order |
| Boards.Board.SnapFacts | src/SudokuSolverLib/SudokuBoard.cs:391-399 | on a valid board every tile is well formed and each rule reads its members' states from the snapshot |
| Boards.Board.CheckValid | src/SudokuSolverLib/SudokuBoard.cs:371-374 | true iff every rule's CheckValid holds |
| Boards.Board.ResetSolutions | src/SudokuSolverLib/SudokuBoard.cs:379-385 | every tile's candidates are reset, and nothing else changes |
| Boards.Board.SnapIs | src/SudokuSolverLib/SudokuBoard.cs:36 | a map holding every tile's current state is the snapshot |
| Boards.Board.ResetColumn | src/SudokuSolverLib/SudokuBoard.cs:381-384 | the tiles of column x are reset, the rest stay |
| Boards.Board.ResetAt | src/SudokuSolverLib/SudokuBoard.cs:383 | the tile at (x, y) is reset, the rest stay |
| Boards.Board.SolveRule | src/SudokuSolverLib/SudokuBoard.cs:396-398 | rule i's Solve on the shared tiles is one step of the fold |
| Boards.Board.SnapScattered | src/SudokuSolverLib/SudokuBoard.cs:396-398 | after a rule's step the snapshot holds the members' new states and every other tile's old one |
| Boards.Board.Simplify | src/SudokuSolverLib/SudokuBoard.cs:391-399 | the new tile states and the outcome are Failed on a board some rule already breaks, else the fold of every rule's Solve |
| Boards.Board.SimplifyStep | src/SudokuSolverLib/SudokuBoard.cs:396-398 | one more rule of the fold |
| Boards.Board.Propagate | src/SudokuSolverLib/SudokuBoard.cs:192-203 | reset, then Simplify until it stops progressing: never ends in Progress, keeps every value that was set, and NoProgress leaves a valid board on which every rule member is settled |
| Boards.Board.SimplifyLoop | src/SudokuSolverLib/SudokuBoard.cs:193-198 | the Simplify loop only fills values, terminates, and ends in Failed or in NoProgress on a valid settled board |
| Boards.Board.SimplifyRound | src/SudokuSolverLib/SudokuBoard.cs:197 | one Simplify round never adds an empty tile, and Progress removes one |
| Boards.Board.ValuesOfSnap | src/SudokuSolverLib/SudokuBoard.cs:169-184 | each grid value is the snapshot's value of the tile at that position |
| Boards.Board.Chosen | src/SudokuSolverLib/SudokuBoard.cs:205-212 | none iff no rule member has more than one candidate; otherwise a board tile with more than one, and no more than any other such member |
| Boards.Board.FixAt | src/SudokuSolverLib/SudokuBoard.cs:232 | Fix on the copy's tile at (x, y) sets that cell to v and no other cell |
| Boards.Board.ValuesAt | src/SudokuSolverLib/SudokuBoard.cs:169-184 | each grid value is the value of the tile at that position |
| Boards.Board.Branch | src/SudokuSolverLib/SudokuBoard.cs:231-232 | a fresh valid copy with the same size, maximum and rules, whose values are this board's with (x, y) set to v |
| Boards.Board.Copy | src/SudokuSolverLib/SudokuBoard.cs:84-113 | the copy has the values and the rule shapes of this board |
| Boards.Board.Solve | src/SudokuSolverLib/SudokuBoard.cs:190-239 | every board returned is solved, has this board's size, maximum and rules, and keeps every value this board had; the propagation outcome is never Progress; when it is Failed nothing is returned; when it is NoProgress and no member has two or more candidates, the board itself is the one answer |
| Boards.Board.Search | src/SudokuSolverLib/SudokuBoard.cs:205-238 | after a NoProgress propagation, every board returned is an answer; when no member has two or more candidates, the board is solved and is the only answer |
| Boards.Board.UndecidedEmpty | src/SudokuSolverLib/SudokuBoard.cs:206-212 | the chosen tile, having two or more candidates, holds no value, so fixing it fills an empty cell |
| Boards.Board.SettledSolved | src/SudokuSolverLib/SudokuBoard.cs:214-219 | when no member has two or more candidates, a settled valid board is solved |
| Boards.Board.TryCandidates | src/SudokuSolverLib/SudokuBoard.cs:223-238 | every board the candidate loop returns is an answer; this board is unchanged |
| Boards.Board.TryValue | src/SudokuSolverLib/SudokuBoard.cs:225-237 | one candidate value adds only answers, and this board is unchanged |
| Boards.Board.SolveCopy | src/SudokuSolverLib/SudokuBoard.cs:231-237 | the boards found from the copy with (x, y) fixed to v are answers for this board's values |
| Factory.RectMember | src/SudokuSolverLib/SudokuBoard.cs:336-339 | a position lies in a box iff it is within its bounds |
| Factory.SizeAndBoxes | src/SudokuSolverLib/SudokuFactory.cs:188-194 | a fresh board, maximum the larger side, with its line rules and then its box rules |
| Factory.ClassicWith3X3Boxes | src/SudokuSolverLib/SudokuFactory.cs:126-130 | a 9 by 9 board, maximum 9, whose rules are the 9 column, 9 row and 9 box rules |
| Factory.ClassicRules | src/SudokuSolverLib/SudokuFactory.cs:126-130 | the classic board has 27 rules of 9 tiles, and every tile lies in exactly one box, the one at 3 * (x / 3) + y / 3 |
| Factory.BoxInSquare | src/SudokuSolverLib/SudokuBoard.cs:284-296 | tile (x, y) is in the i-th classic box iff i == 3 * (x / 3) + y / 3 |
| Factory.ClassicWith3X3BoxesAndHyperRegions | src/SudokuSolverLib/SudokuFactory.cs:137-149 | the classic rules followed by the four hyper regions |
| Factory.AddHyperRegions | src/SudokuSolverLib/SudokuFactory.cs:144-147 | the four hyper regions are appended in order |
| Factory.HyperRegions | src/SudokuSolverLib/SudokuFactory.cs:141-147 | four regions of 9 distinct tiles, region i being the 3 by 3 square at (1, 1), (5, 1), (1, 5) or (5, 5) |
| Factory.HyperDisjoint | src/SudokuSolverLib/SudokuFactory.cs:141-147 | the hyper regions lie on the 9 by 9 board and no tile is in two of them |
| Factory.JoinLength | src/SudokuSolverLib/SudokuFactory.cs:163 | rows all w wide join into rows * w characters |
| Factory.JoinAt | src/SudokuSolverLib/SudokuFactory.cs:163 | character x of row y is character y * w + x of the joined string |
| Factory.Matches | src/SudokuSolverLib/SudokuFactory.cs:170-171 | exactly the indices holding the character, ascending |
| Factory.CellAt | src/SudokuSolverLib/SudokuFactory.cs:170-172 | joined index y * w + x names tile (x, y) |
| Factory.CellInside | src/SudokuSolverLib/SudokuFactory.cs:170-172 | every joined index names a board tile |
| Factory.CellInjective | src/SudokuSolverLib/SudokuFactory.cs:170-172 | different indices name different tiles |
| Factory.WrittenCell | src/SudokuSolverLib/SudokuFactory.cs:172 | the column is the intended one; the row is the index divided by the height, which is the intended row only when the drawing is square |
| Factory.WrittenCellSquare | src/SudokuSolverLib/SudokuFactory.cs:172 | on a square drawing the mapping as written is the intended one |
| Factory.WrittenCellWrong | src/SudokuSolverLib/SudokuFactory.cs:172 | on a 3 wide, 2 high drawing index 5 is mapped to (2, 2) instead of (2, 1); on a 2 wide, 3 high drawing indices 0 and 2 are mapped to the same tile |
| Factory.AreaCoords | src/SudokuSolverLib/SudokuFactory.cs:170-172 | one tile per occurrence of the character |
| Factory.AreaCoordsFacts | src/SudokuSolverLib/SudokuFactory.cs:170-172 | the area of a character lies on the board, lists no tile twice, and holds a tile iff the character is drawn there |
| Factory.SpecialShapes | src/SudokuSolverLib/SudokuFactory.cs:164-174 | one area rule per distinct character of the drawing |
| Factory.AreaRuleFits | src/SudokuSolverLib/SudokuFactory.cs:167-174 | each area rule lies on the board and lists no tile twice |
| Factory.ClassicWithSpecialBoxes | src/SudokuSolverLib/SudokuFactory.cs:157-177 | a board the size of the drawing with its line rules, then one area rule per distinct character in order of first appearance |
| Factory.AddAreas | src/SudokuSolverLib/SudokuFactory.cs:167-174 | the character loop appends the area rules |
| Factory.AddArea | src/SudokuSolverLib/SudokuFactory.cs:169-173 | one character's area rule is appended |
| Factory.SpecialAreasPartition | src/SudokuSolverLib/SudokuFactory.cs:157-177 | the area rules partition the board: tile (x, y) is in a rule iff that rule's character is drawn at (x, y) |
| Factory.GapCoordsInside | src/SudokuSolverLib/SudokuFactory.cs:70-76 | the blocked rectangles lie on the 21 by 21 board |
| Factory.GapCoordsExact | src/SudokuSolverLib/SudokuFactory.cs:70-76 | the tiles of the four blocked rectangles are exactly the gap tiles |
| Factory.BlockAt | src/SudokuSolverLib/SudokuFactory.cs:78-81 | only the tile at (x, y) changes, and only its blocked flag |
| Factory.BlockGaps | src/SudokuSolverLib/SudokuFactory.cs:70-81 | afterwards every tile is empty without candidates and blocked exactly in the gaps |
| Factory.BlockNext | src/SudokuSolverLib/SudokuFactory.cs:78-81 | one more gap tile is blocked |
| Factory.AddAreaRules | src/SudokuSolverLib/SudokuFactory.cs:84-95 | an area rule is appended for every area of the 7 by 7 area grid whose first tile is not blocked |
| Factory.AddAreaRule | src/SudokuSolverLib/SudokuFactory.cs:86-94 | area i gets its rule exactly when its first tile is not blocked |
| Factory.GapAt | src/SudokuSolverLib/SudokuFactory.cs:89 | on the gapped board a tile is blocked iff it is in a gap |
| Factory.AddLineRules | src/SudokuSolverLib/SudokuFactory.cs:100-116 | the line rules of every posSet 0..20 are appended |
| Factory.AddLineGroup | src/SudokuSolverLib/SudokuFactory.cs:102-115 | the four outer lines, and the two middle lines for 6 <= posSet < 15, are appended |
| Factory.AddOuterLines | src/SudokuSolverLib/SudokuFactory.cs:102-106 | upper and lower column, left and right row, in that order |
| Factory.AddMiddleLines | src/SudokuSolverLib/SudokuFactory.cs:114-115 | the middle grid's column and row |
| Factory.Samurai | src/SudokuSolverLib/SudokuFactory.cs:64-119 | a fresh 21 by 21 board, maximum 9, blocked exactly in the gaps, whose rules are the area rules then the line rules |
| Factory.SamuraiAreaShapesAppend | src/SudokuSolverLib/SudokuFactory.cs:84-95 | the area rules of a concatenation are the concatenation of the area rules |
| Factory.SamuraiAreasCovered | src/SudokuSolverLib/SudokuFactory.cs:84-95 | every area whose first tile is outside the gaps gets its rule |
| Factory.AreaTiles | src/SudokuSolverLib/SudokuFactory.cs:86-94 | an area rule has 9 distinct tiles on the board, none of them in a gap |
| Factory.SamuraiAreaTiles | src/SudokuSolverLib/SudokuFactory.cs:84-95 | every area rule of the area grid has 9 distinct open tiles |
| Factory.SamuraiAreaCount | src/SudokuSolverLib/SudokuFactory.cs:84-95 | 41 of the 49 areas get a rule |
| Factory.ColumnAreaCount | src/SudokuSolverLib/SudokuFactory.cs:84-95 | area column 3 gets 3 rules, columns 2 and 4 get 7, the others 6 |
| Factory.ColumnPrefixCount | src/SudokuSolverLib/SudokuFactory.cs:84-95 | the first n areas of an area column get the closed-form count of open areas |
| Factory.LineGroupLines | src/SudokuSolverLib/SudokuFactory.cs:100-116 | posSet p gets 6 line rules when 6 <= p < 15 and 4 otherwise, each of 9 distinct board tiles |
| Factory.SamuraiLines | src/SudokuSolverLib/SudokuFactory.cs:100-116 | posSet 0..n-1 give 4 lines each plus 2 per middle posSet, each of 9 distinct board tiles |
| Factory.SamuraiGridAreas | src/SudokuSolverLib/SudokuFactory.cs:84-95 | every area rule of an area grid up to 7 by 7 has 9 distinct open tiles |
| Factory.SamuraiRules | src/SudokuSolverLib/SudokuFactory.cs:64-119 | the samurai board has 143 rules: 41 area rules of 9 distinct open tiles, then 102 line rules of 9 distinct tiles |
| Factory.SamuraiAreasPresent | src/SudokuSolverLib/SudokuFactory.cs:84-95 | every area of the grid outside the gaps has its rule |

## Left out

- The `ILanguage` word table and console logging are not modelled. Rule descriptions use fixed English
  words ("Row ", "Col ", "Box at (", "Area ", "HyperA", "Column upper " and so on). The trace line
  printed by `Fix` and the `Console.WriteLine` of the chosen tile in `Solve` are left out.
- A language object is assumed to be present, as every recipe supplies one. When the tiles' static
  language is null, the source's value setter ignores every value, `Fix` does nothing,
  `RemovePossibles` reports Failed as soon as one candidate remains, and `CombineSolvedState` returns
  Failed for an undefined enum value. These null-language paths are not modelled.
- `ToString`, `OutputTiles`, `Tile(x, y)` as a public accessor (it is used through array indexing),
  `OutputRulesToDialog` and the enumerator of a rule are left out. They only expose or print state.
- Hash set order is modelled as first-occurrence order, for a rule's members and for the board's
  rules. The source leaves that order unspecified. That order does matter. Each rule's `Solve` sees
  the tiles fixed by the rules before it, so one round of `Simplify` can end in different states and
  outcomes in different orders. For example, take maximum 2, a tile a holding 1, empty tiles b and c,
  and rules {a, b}, {b, c} and {a, c}. The order {a, b}, {a, c}, {b, c} gives Failed, while the order
  {b, c}, {a, b}, {a, c} gives Progress. `Signal.CombineCommutesAndAssociates` only shows that merging
  a fixed list of outcomes does not depend on their order. The soundness of `Solve` holds for every
  order: each returned board is an answer whatever order the rules run in. The model only runs the
  first-occurrence order. The choice of tile in `Solve` also depends on the order.
- `Solve` returns a sequence of boards instead of a lazy `yield` enumeration. Its contract says every
  returned board is an answer; it does not claim that the answers are complete or distinct.
- Boards.Board.Solve: does not state that the returned boards other than this one are fresh objects.
- Exceptions are results. The value setter's `ArgumentOutOfRangeException` is `ok == false`. In
  `AddRow` the out-of-range exceptions are `RowError` values: a string longer than the row, or a row
  cursor past the last row.
- `char.GetNumericValue` is modelled for ASCII digits only; other characters read as -1, which the
  setter refuses. Non-ASCII numeric characters (for example other scripts' digits or fractions) are
  not modelled.
- Integers are unbounded. The source's 32-bit `int` cannot overflow on boards of realistic size.
- The factory's constants (default size 9, 7 by 7 samurai areas, box size 3, hyper margin 1) are
  written as numbers in the recipes.
- The legacy top-level tree is described by the same members; its differences are names and line
  positions. Its `SudokuRule.Solve` and `CheckForOnlyOnePossibility` take the language as an argument
  (SudokuSolverLib/SudokuRule.cs:59 and :81), yet its board calls `rule.Solve()` without one
  (SudokuSolverLib/SudokuBoard.cs:196). Its board constructor takes three integers
  (SudokuSolverLib/SudokuBoard.cs:36), yet its factory passes a language to it
  (SudokuSolverLib/SudokuFactory.cs:27, :83 and :118). So that tree does not build as written. The
  model follows the logic, which is the same as in the newer tree.
- Factory.ClassicWithSpecialBoxes: models the corrected index-to-tile mapping (see Findings), not the
  one at line 172.
- Factory.ClassicWithSpecialBoxes: requires a non-empty drawing whose rows all have the same length.
  The source throws `IndexOutOfRangeException` at `areas[0]` on an empty array. It does not check
  ragged rows: the joined string then no longer lines up with the rows, so a character can be put on
  another row's tile or on a tile off the board, where `Tile` throws. Neither path is modelled.
- Tiles.Tile.constructor: requires a maximum of at least 0. The source accepts a negative maximum and fails
  only later, when `ResetPossibles` calls `Enumerable.Range(1, maximumValue)` (SudokuTile.cs:201), which
  throws. Every caller passes 9 or Max(width, height), which are never negative.
- Boards.Board.constructor: requires a maximum of at least 0 for the same reason, and takes the width and
  height as natural numbers, where the source's array allocation throws on a negative size. Every
  recipe passes 9, 21 or the size of a drawing.
- Boards.Board.AddBoxesCount: requires each box to fit the board as a grid, i.e. Width / boxesX boxes
  of width Width / boxesX. The source iterates Box(sizeX, sizeY), the box size, not Box(boxesX,
  boxesY); the two agree only when sizeX == boxesX and sizeY == boxesY. Its only caller passes
  (9, 9, 3, 3), which meets the requirement.

## Findings

| source | as written | input that shows it | evidently intended | confidence | as-written member | corrected member |
|---|---|---|---|---|---|---|
| src/SudokuSolverLib/SudokuFactory.cs:172 | the joined index i is mapped to tile (i % sizeX, i / sizeY), dividing by the drawing's height (the same at line 128 of the older SudokuSolverLib/SudokuFactory.cs) | a drawing 3 wide and 2 high: index 5 (row 1, column 2) is mapped to (2, 2), off the 3 by 2 board; for 2 wide and 3 high, indices 0 and 2 both map to (0, 0) | (i % sizeX, i / sizeX), so that each character's area is where it is drawn | not executed | Factory.WrittenCellWrong | Factory.SpecialAreasPartition |
