/** The board: a grid of tiles indexed [x, y], the rules over them, text input and output,
    propagation to a fixpoint and the depth-first search over clones. */
module Boards {
  import opened Signal
  import opened Tiles
  import opened Seqs
  import opened Rules
  import opened Text
  import opened Positions
  import opened Propagation

  /** A rule as the board's recipes describe it: its description and its members' coordinates. */
  type Shape = (string, seq<Coord>)

  /** The coordinates of a sequence of tiles. */
  function Coords(ts: seq<Tile>): (r: seq<Coord>)
    ensures |r| == |ts| && forall k :: 0 <= k < |ts| ==> r[k] == (ts[k].x, ts[k].y)
  {
    seq(|ts|, k requires 0 <= k < |ts| => (ts[k].x, ts[k].y))
  }

  function ShapesOf(rs: seq<Rule>): (r: seq<Shape>)
    ensures |r| == |rs| && forall i :: 0 <= i < |rs| ==> r[i] == (rs[i].description, Coords(rs[i].tiles))
  {
    seq(|rs|, i requires 0 <= i < |rs| => (rs[i].description, Coords(rs[i].tiles)))
  }

  /** The positions (x, y) of row y, x = 0..width-1. */
  function RowCoords(y: int, width: nat): (r: seq<Coord>)
    ensures |r| == width && forall x :: 0 <= x < width ==> r[x] == (x, y)
  {
    seq(width, x requires 0 <= x < width => (x, y))
  }

  /** SetupLineRules' first loop: one rule per x over the whole column, described "Row x". */
  function ColumnShapes(width: nat, height: nat): (r: seq<Shape>)
    ensures |r| == width && forall x :: 0 <= x < width ==> r[x] == ("Row " + Decimal(x), Column(x, height))
  {
    seq(width, x requires 0 <= x < width => ("Row " + Decimal(x), Column(x, height)))
  }

  /** SetupLineRules' second loop: one rule per y over the whole row, described "Col y". */
  function RowShapes(width: nat, height: nat): (r: seq<Shape>)
    ensures |r| == height && forall y :: 0 <= y < height ==> r[y] == ("Col " + Decimal(y), RowCoords(y, width))
  {
    seq(height, y requires 0 <= y < height => ("Col " + Decimal(y), RowCoords(y, width)))
  }

  function LineShapes(width: nat, height: nat): seq<Shape>
  {
    ColumnShapes(width, height) + RowShapes(width, height)
  }

  /** TileBox: the positions of the sizeX by sizeY rectangle at (startX, startY), in Box order. */
  function RectCoords(startX: int, startY: int, sizeX: nat, sizeY: nat): (r: seq<Coord>)
    ensures |r| == |Box(sizeX, sizeY)|
    ensures forall k :: 0 <= k < |r| ==> r[k] == (startX + Box(sizeX, sizeY)[k].0, startY + Box(sizeX, sizeY)[k].1)
  {
    var b := Box(sizeX, sizeY);
    seq(|b|, k requires 0 <= k < |b| => (startX + b[k].0, startY + b[k].1))
  }

  /** The description AddBoxesCount gives the box at box position (x, y). */
  function BoxDescription(x: int, y: int): string
  {
    "Box at (" + Decimal(x) + ", " + Decimal(y) + ")"
  }

  /** AddBoxesCount's rules: for each position p of Box(sizeX, sizeY), the box of that size at (p.0 * sizeX, p.1 * sizeY). */
  function BoxShapes(sizeX: nat, sizeY: nat): (r: seq<Shape>)
    ensures |r| == |Box(sizeX, sizeY)|
    ensures forall i :: 0 <= i < |r| ==>
      var p := Box(sizeX, sizeY)[i];
      r[i] == (BoxDescription(p.0, p.1), RectCoords(p.0 * sizeX, p.1 * sizeY, sizeX, sizeY))
  {
    var b := Box(sizeX, sizeY);
    seq(|b|, i requires 0 <= i < |b| => (BoxDescription(b[i].0, b[i].1), RectCoords(b[i].0 * sizeX, b[i].1 * sizeY, sizeX, sizeY)))
  }

  /** A rectangle that fits on the board gives positions on the board, none twice. */
  lemma RectInside(startX: int, startY: int, sizeX: nat, sizeY: nat, width: nat, height: nat)
    requires 0 <= startX && startX + sizeX <= width && 0 <= startY && startY + sizeY <= height
    ensures var r := RectCoords(startX, startY, sizeX, sizeY);
      && (forall k :: 0 <= k < |r| ==> 0 <= r[k].0 < width && 0 <= r[k].1 < height)
      && NoDuplicates(r)
  {
    BoxOrder(sizeX, sizeY);
  }

  /** Box position p of Box(sizeX, sizeY) scaled by the box size stays within a board at least sizeX * sizeX wide. */
  lemma BoxPlacement(px: int, py: int, sizeX: nat, sizeY: nat, width: nat, height: nat)
    requires 0 <= px < sizeX && 0 <= py < sizeY
    requires sizeX * sizeX <= width && sizeY * sizeY <= height
    ensures 0 <= px * sizeX && px * sizeX + sizeX <= width
    ensures 0 <= py * sizeY && py * sizeY + sizeY <= height
  {
    assert (px + 1) * sizeX == px * sizeX + sizeX;
    if px + 1 < sizeX {
      MulMonotone(px + 1, sizeX, sizeX);
    }
    assert (py + 1) * sizeY == py * sizeY + sizeY;
    if py + 1 < sizeY {
      MulMonotone(py + 1, sizeY, sizeY);
    }
  }

  /** The values of a sequence of tile states. */
  function ValuesOf(ms: seq<TileState>): (r: seq<int>)
    ensures |r| == |ms| && forall k :: 0 <= k < |ms| ==> r[k] == ms[k].value
  {
    seq(|ms|, k requires 0 <= k < |ms| => ms[k].value)
  }

  /** `after` has the shape of `before` and keeps every value `before` has set. */
  ghost predicate ValuesExtend(before: seq<seq<int>>, after: seq<seq<int>>)
  {
    |after| == |before| &&
    forall y :: 0 <= y < |before| ==>
      |after[y]| == |before[y]| &&
      forall x :: 0 <= x < |before[y]| && before[y][x] != 0 ==> after[y][x] == before[y][x]
  }

  lemma ValuesExtendTransitive(a: seq<seq<int>>, b: seq<seq<int>>, c: seq<seq<int>>)
    requires ValuesExtend(a, b) && ValuesExtend(b, c)
    ensures ValuesExtend(a, c)
  {
  }

  /** The number of empty cells of one row. */
  function RowZeros(row: seq<int>): nat
  {
    if row == [] then 0 else RowZeros(row[..|row| - 1]) + (if row[|row| - 1] == 0 then 1 else 0)
  }

  /** The number of empty cells of the grid: the search's measure of remaining work. */
  function ZeroCount(rows: seq<seq<int>>): nat
  {
    if rows == [] then 0 else ZeroCount(rows[..|rows| - 1]) + RowZeros(rows[|rows| - 1])
  }

  lemma {:induction false} RowZerosMonotone(a: seq<int>, b: seq<int>)
    requires |a| == |b| && forall x :: 0 <= x < |a| && a[x] != 0 ==> b[x] == a[x]
    ensures RowZeros(b) <= RowZeros(a)
  {
    if a != [] {
      var n := |a| - 1;
      assert forall x :: 0 <= x < n ==> a[..n][x] == a[x] && b[..n][x] == b[x];
      RowZerosMonotone(a[..n], b[..n]);
    }
  }

  /** Filling cells never adds empty cells. */
  lemma {:induction false} ZeroCountMonotone(a: seq<seq<int>>, b: seq<seq<int>>)
    requires ValuesExtend(a, b)
    ensures ZeroCount(b) <= ZeroCount(a)
  {
    if a != [] {
      var n := |a| - 1;
      assert forall y :: 0 <= y < n ==> a[..n][y] == a[y] && b[..n][y] == b[y];
      ZeroCountMonotone(a[..n], b[..n]);
      RowZerosMonotone(a[n], b[n]);
    }
  }

  lemma {:induction false} RowZerosFill(row: seq<int>, x: int, v: int)
    requires 0 <= x < |row| && row[x] == 0 && v != 0
    ensures RowZeros(row[x := v]) + 1 == RowZeros(row)
  {
    var n := |row| - 1;
    var row' := row[x := v];
    if x < n {
      assert row'[..n] == row[..n][x := v];
      RowZerosFill(row[..n], x, v);
    } else {
      assert row'[..n] == row[..n];
    }
  }

  /** Filling one empty cell removes exactly one empty cell and keeps every set value. */
  lemma {:induction false} ZeroCountFill(rows: seq<seq<int>>, x: int, y: int, v: int)
    requires 0 <= y < |rows| && 0 <= x < |rows[y]| && rows[y][x] == 0 && v != 0
    ensures ZeroCount(rows[y := rows[y][x := v]]) + 1 == ZeroCount(rows)
    ensures ValuesExtend(rows, rows[y := rows[y][x := v]])
  {
    var n := |rows| - 1;
    var rows' := rows[y := rows[y][x := v]];
    if y < n {
      assert rows'[..n] == rows[..n][y := rows[y][x := v]];
      ZeroCountFill(rows[..n], x, y, v);
    } else {
      assert rows'[..n] == rows[..n];
      RowZerosFill(rows[y], x, v);
    }
  }

  /** The query in Solve: the index of the first entry with the least count among those above 1
      (OrderBy is stable and FirstOrDefault takes the first); None when no count is above 1. */
  function FirstMinimal(counts: seq<int>): (r: Option<nat>)
    ensures r.None? <==> forall j :: 0 <= j < |counts| ==> counts[j] <= 1
    ensures r.Some? ==> r.value < |counts| && counts[r.value] > 1
    ensures r.Some? ==> forall j :: 0 <= j < |counts| && counts[j] > 1 ==> counts[r.value] <= counts[j]
    ensures r.Some? ==> forall j :: 0 <= j < r.value && counts[j] > 1 ==> counts[r.value] < counts[j]
  {
    if counts == [] then None
    else
      var n := |counts| - 1;
      assert forall j :: 0 <= j < n ==> counts[..n][j] == counts[j];
      var r := FirstMinimal(counts[..n]);
      if counts[n] <= 1 then r
      else if r.None? || counts[n] < counts[r.value] then Some(n)
      else r
  }

  /** The members of all rules, rule after rule, in member order. */
  function Flatten(rs: seq<seq<Tile>>): seq<Tile>
  {
    if rs == [] then [] else Flatten(rs[..|rs| - 1]) + rs[|rs| - 1]
  }

  /** The flattened members are exactly the members of the rules. */
  lemma {:induction false} FlattenMembers(rs: seq<seq<Tile>>)
    ensures forall j :: 0 <= j < |Flatten(rs)| ==> exists i :: 0 <= i < |rs| && Flatten(rs)[j] in rs[i]
    ensures forall i, k :: 0 <= i < |rs| && 0 <= k < |rs[i]| ==> rs[i][k] in Flatten(rs)
  {
    if rs != [] {
      var n := |rs| - 1;
      var front := rs[..n];
      FlattenMembers(front);
      var r := Flatten(rs);
      assert r == Flatten(front) + rs[n];
      forall j | 0 <= j < |r| ensures exists i :: 0 <= i < |rs| && r[j] in rs[i] {
        if j < |Flatten(front)| {
          var i :| 0 <= i < |front| && Flatten(front)[j] in front[i];
          assert r[j] in rs[i];
        } else {
          assert r[j] == rs[n][j - |Flatten(front)|];
          assert r[j] in rs[n];
        }
      }

      forall i, k | 0 <= i < |rs| && 0 <= k < |rs[i]| ensures rs[i][k] in r {
        if i < n {
          assert rs[i][k] == front[i][k];
        } else {
          assert rs[i][k] == r[|Flatten(front)| + k];
        }
      }
    } else {
      assert Flatten(rs) == [];
    }
  }

  /** Every tile's PossibleCount, in order. */
  function CountsOf(ts: seq<Tile>): (r: seq<int>)
    reads ts
    ensures |r| == |ts| && forall j :: 0 <= j < |ts| ==> r[j] == ts[j].PossibleCount()
  {
    seq(|ts|, j requires 0 <= j < |ts| reads ts => ts[j].PossibleCount())
  }

  /** The first minimal count over the flattened members picks, among the members of all rules with
      more than one candidate, one with the fewest; there is none exactly when no member has more than one. */
  lemma MinimalMember(rs: seq<seq<Tile>>)
    ensures var members := Flatten(rs);
      var c := FirstMinimal(CountsOf(members));
      && (c.None? <==> forall i, k :: 0 <= i < |rs| && 0 <= k < |rs[i]| ==> rs[i][k].PossibleCount() <= 1)
      && (c.Some? ==> members[c.value].PossibleCount() > 1)
      && (c.Some? ==> exists i :: 0 <= i < |rs| && members[c.value] in rs[i])
      && (c.Some? ==> forall i, k :: 0 <= i < |rs| && 0 <= k < |rs[i]| && rs[i][k].PossibleCount() > 1 ==>
            members[c.value].PossibleCount() <= rs[i][k].PossibleCount())
  {
    FlattenMembers(rs);
    var members := Flatten(rs);
    var c := FirstMinimal(CountsOf(members));
    if c.None? {
      forall i, k | 0 <= i < |rs| && 0 <= k < |rs[i]| ensures rs[i][k].PossibleCount() <= 1 {
        var j :| 0 <= j < |members| && members[j] == rs[i][k];
      }
    } else {
      var m := c.value;
      forall i, k | 0 <= i < |rs| && 0 <= k < |rs[i]| && rs[i][k].PossibleCount() > 1
        ensures members[m].PossibleCount() <= rs[i][k].PossibleCount()
      {
        var j :| 0 <= j < |members| && members[j] == rs[i][k];
      }
      var i :| 0 <= i < |rs| && members[m] in rs[i];
      var k :| 0 <= k < |rs[i]| && rs[i][k] == members[m];
    }
  }

  /** A board Solve may return for a board of the given size, maximum, rules and values: solved,
      with the same size, maximum and rules, and keeping every value that was set. */
  ghost predicate Answer(b: Board, width: nat, height: nat, maximumValue: int, shapes: seq<Shape>, vals: seq<seq<int>>)
    reads b, b.tiles, b.TileSet
  {
    b.Solved() && b.Width() == width && b.Height() == height && b.maximumValue == maximumValue &&
    b.Shapes() == shapes && ValuesExtend(vals, b.Values())
  }

  /** An answer for a board with values `later` is one for the same board with values `earlier`
      that `later` extends. */
  lemma AnswerCarries(b: Board, width: nat, height: nat, maximumValue: int, shapes: seq<Shape>,
                      earlier: seq<seq<int>>, later: seq<seq<int>>)
    requires Answer(b, width, height, maximumValue, shapes, later) && ValuesExtend(earlier, later)
    ensures Answer(b, width, height, maximumValue, shapes, earlier)
  {
    ValuesExtendTransitive(earlier, later, b.Values());
  }

  lemma AnswersCarry(bs: seq<Board>, width: nat, height: nat, maximumValue: int, shapes: seq<Shape>,
                     earlier: seq<seq<int>>, later: seq<seq<int>>)
    requires forall b :: b in bs ==> Answer(b, width, height, maximumValue, shapes, later)
    requires ValuesExtend(earlier, later)
    ensures forall b :: b in bs ==> Answer(b, width, height, maximumValue, shapes, earlier)
  {
    forall b | b in bs ensures Answer(b, width, height, maximumValue, shapes, earlier) {
      AnswerCarries(b, width, height, maximumValue, shapes, earlier, later);
    }
  }

  /** A board none of whose objects changed keeps its validity and values. */
  twostate lemma BoardStays(b: Board)
    requires old(b.Valid()) && unchanged(b) && unchanged(b.tiles) && unchanged(b.TileSet)
    ensures b.Valid() && b.Values() == old(b.Values()) && b.Shapes() == old(b.Shapes())
  {
  }

  /** Answers none of whose objects changed stay answers. */
  twostate lemma AnswersStay(bs: seq<Board>)
    requires forall a :: a in bs ==> old(allocated(a)) && unchanged(a) && unchanged(a.tiles) && unchanged(a.TileSet)
    ensures forall a :: a in bs && old(a.Valid()) ==>
      a.Valid() && a.Values() == old(a.Values()) && a.Shapes() == old(a.Shapes()) && (old(a.Solved()) ==> a.Solved())
  {
  }

  /** Grid `a` is grid `b` with the cell at column x of row y set to v when the two have the same shape,
      agree everywhere else and `a` holds v there. */
  lemma GridUpdate(a: seq<seq<int>>, b: seq<seq<int>>, x: int, y: int, v: int)
    requires |a| == |b| && 0 <= y < |b| && 0 <= x < |b[y]|
    requires forall r :: 0 <= r < |a| ==> |a[r]| == |b[r]|
    requires forall r, c :: 0 <= r < |a| && 0 <= c < |a[r]| && (r != y || c != x) ==> a[r][c] == b[r][c]
    requires a[y][x] == v
    ensures a == b[y := b[y][x := v]]
  {
    forall r | 0 <= r < |a| ensures a[r] == b[y := b[y][x := v]][r] {
      if r == y {
        assert a[r] == b[y][x := v];
      } else {
        assert a[r] == b[r];
      }
    }
  }

  /** Two grids of the same shape that agree at every cell are equal. */
  lemma GridSame(a: seq<seq<int>>, b: seq<seq<int>>)
    requires |a| == |b| && forall r :: 0 <= r < |a| ==> |a[r]| == |b[r]|
    requires forall r, c :: 0 <= r < |a| && 0 <= c < |a[r]| ==> a[r][c] == b[r][c]
    ensures a == b
  {
    forall r | 0 <= r < |a| ensures a[r] == b[r] {
      assert |a[r]| == |b[r]|;
    }
  }

  /** A board whose grid and rules stay as they were stays valid as long as every tile stays well formed. */
  twostate lemma StillValid(b: Board)
    requires old(b.Valid()) && unchanged(b) && unchanged(b.tiles)
    requires forall t :: t in b.TileSet ==> t.Valid()
    ensures b.Valid()
  {
    forall t | t in b.TileSet ensures b.Placed(t) {
      assert old(b.Placed(t));
    }
  }

  class Board {
    const maximumValue: int
    const tiles: array2<Tile>
    /** The tile objects of the grid, one per position. */
    ghost const TileSet: set<Tile>
    var rules: seq<Rule>
    var rowAddIndex: int

    function Width(): nat
    {
      tiles.Length0
    }

    function Height(): nat
    {
      tiles.Length1
    }

    /** Tile t sits at its own coordinates and shares the board's maximum. */
    ghost predicate Placed(t: Tile)
      reads tiles, t
    {
      0 <= t.x < tiles.Length0 && 0 <= t.y < tiles.Length1 && tiles[t.x, t.y] == t &&
      t.maximumValue == maximumValue && t.Valid()
    }

    /** Every position holds a tile of TileSet that knows its own position. */
    ghost predicate Grid()
      reads tiles
    {
      forall x, y :: 0 <= x < tiles.Length0 && 0 <= y < tiles.Length1 ==>
        tiles[x, y] in TileSet && tiles[x, y].x == x && tiles[x, y].y == y
    }

    ghost predicate Valid()
      reads this, tiles, TileSet
    {
      && maximumValue >= 0
      && rowAddIndex >= 0
      && Grid()
      && (forall t :: t in TileSet ==> Placed(t))
      && (forall i, k :: 0 <= i < |rules| && 0 <= k < |rules[i].tiles| ==> rules[i].tiles[k] in TileSet)
      && (forall i :: 0 <= i < |rules| ==> rules[i].Valid())
    }

    /** The rules' descriptions and member coordinates, in the order they were added. */
    function Shapes(): seq<Shape>
      reads this
    {
      ShapesOf(rules)
    }

    /** Two different tiles of a valid board sit at different positions. */
    lemma PlacedDistinct(s: Tile, t: Tile)
      requires Valid() && s in TileSet && t in TileSet && s != t
      ensures (s.x, s.y) != (t.x, t.y)
    {
    }

    /** CreateTiles: a fresh tile at every position, empty, unblocked and without candidates. */
    static method CreateTiles(width: nat, height: nat, maximumValue: int) returns (a: array2<Tile>, ghost ts: set<Tile>)
      requires maximumValue >= 0
      ensures fresh(a) && fresh(ts)
      ensures a.Length0 == width && a.Length1 == height
      ensures forall x, y :: 0 <= x < width && 0 <= y < height ==> a[x, y] in ts && a[x, y].x == x && a[x, y].y == y
      ensures forall t :: t in ts ==>
        0 <= t.x < width && 0 <= t.y < height && a[t.x, t.y] == t && t.maximumValue == maximumValue &&
        t.State() == TileState(maximumValue, 0, false, {})
    {
      var blank := new Tile(0, 0, maximumValue);
      a := new Tile[width, height]((_, _) => blank);
      ts := {};
      var x := 0;
      while x < width
        invariant 0 <= x <= width
        invariant fresh(ts)
        invariant forall i, j :: 0 <= i < x && 0 <= j < height ==> a[i, j] in ts && a[i, j].x == i && a[i, j].y == j
        invariant forall t :: t in ts ==>
          0 <= t.x < x && 0 <= t.y < height && a[t.x, t.y] == t && t.maximumValue == maximumValue &&
          t.State() == TileState(maximumValue, 0, false, {})
      {
        ts := CreateColumn(a, x, maximumValue, ts);
        x := x + 1;
      }
    }

    /** CreateTiles' inner loop: column x of `a` filled with fresh empty tiles. */
    static method CreateColumn(a: array2<Tile>, x: int, maximumValue: int, ghost ts: set<Tile>) returns (ghost ts': set<Tile>)
      requires maximumValue >= 0 && 0 <= x < a.Length0
      requires forall i, j :: 0 <= i < x && 0 <= j < a.Length1 ==> a[i, j] in ts && a[i, j].x == i && a[i, j].y == j
      requires forall t :: t in ts ==>
        0 <= t.x < x && 0 <= t.y < a.Length1 && a[t.x, t.y] == t && t.maximumValue == maximumValue &&
        t.State() == TileState(maximumValue, 0, false, {})
      modifies a
      ensures ts <= ts' && fresh(ts' - ts)
      ensures forall i, j :: 0 <= i < x + 1 && 0 <= j < a.Length1 ==> a[i, j] in ts' && a[i, j].x == i && a[i, j].y == j
      ensures forall t :: t in ts' ==>
        0 <= t.x < x + 1 && 0 <= t.y < a.Length1 && a[t.x, t.y] == t && t.maximumValue == maximumValue &&
        t.State() == TileState(maximumValue, 0, false, {})
    {
      ts' := ts;
      var y := 0;
      while y < a.Length1
        invariant 0 <= y <= a.Length1
        invariant ts <= ts' && fresh(ts' - ts)
        invariant forall i, j :: ((0 <= i < x && 0 <= j < a.Length1) || (i == x && 0 <= j < y)) ==>
          a[i, j] in ts' && a[i, j].x == i && a[i, j].y == j
        invariant forall t :: t in ts' ==>
          ((0 <= t.x < x && 0 <= t.y < a.Length1) || (t.x == x && 0 <= t.y < y)) && a[t.x, t.y] == t &&
          t.maximumValue == maximumValue && t.State() == TileState(maximumValue, 0, false, {})
      {
        var t := new Tile(x, y, maximumValue);
        a[x, y] := t;
        ts' := ts' + {t};
        y := y + 1;
      }
    }

    /** The copy constructor's tiles: CreateTiles, then every position gets a fresh tile whose Value
        is set to the copied board's value there; blocked flags and candidates are not copied. */
    static method CopyTiles(copy: Board) returns (a: array2<Tile>, ghost ts: set<Tile>)
      requires copy.Valid()
      ensures fresh(a) && fresh(ts)
      ensures a.Length0 == copy.Width() && a.Length1 == copy.Height()
      ensures forall x, y :: 0 <= x < a.Length0 && 0 <= y < a.Length1 ==> a[x, y] in ts && a[x, y].x == x && a[x, y].y == y
      ensures forall t :: t in ts ==>
        0 <= t.x < a.Length0 && 0 <= t.y < a.Length1 && a[t.x, t.y] == t && t.maximumValue == copy.maximumValue &&
        t.State() == TileState(copy.maximumValue, copy.tiles[t.x, t.y].value, false, {})
    {
      var width, height := copy.Width(), copy.Height();
      a, ts := CreateTiles(width, height, copy.maximumValue);
      ts := {};
      var x := 0;
      while x < width
        invariant 0 <= x <= width
        invariant fresh(ts)
        invariant forall i, j :: 0 <= i < x && 0 <= j < height ==> a[i, j] in ts && a[i, j].x == i && a[i, j].y == j
        invariant forall t :: t in ts ==>
          0 <= t.x < x && 0 <= t.y < height && a[t.x, t.y] == t && t.maximumValue == copy.maximumValue &&
          t.State() == TileState(copy.maximumValue, copy.tiles[t.x, t.y].value, false, {})
      {
        ts := CopyColumn(copy, a, x, ts);
        x := x + 1;
      }
    }

    /** The copy constructor's inner loop: column x of `a` filled with copied tiles. */
    static method CopyColumn(copy: Board, a: array2<Tile>, x: int, ghost ts: set<Tile>) returns (ghost ts': set<Tile>)
      requires copy.Valid() && a != copy.tiles
      requires a.Length0 == copy.Width() && a.Length1 == copy.Height() && 0 <= x < a.Length0
      requires forall i, j :: 0 <= i < x && 0 <= j < a.Length1 ==> a[i, j] in ts && a[i, j].x == i && a[i, j].y == j
      requires forall t :: t in ts ==>
        0 <= t.x < x && 0 <= t.y < a.Length1 && a[t.x, t.y] == t && t.maximumValue == copy.maximumValue &&
        t.State() == TileState(copy.maximumValue, copy.tiles[t.x, t.y].value, false, {})
      modifies a
      ensures ts <= ts' && fresh(ts' - ts)
      ensures forall i, j :: 0 <= i < x + 1 && 0 <= j < a.Length1 ==> a[i, j] in ts' && a[i, j].x == i && a[i, j].y == j
      ensures forall t :: t in ts' ==>
        0 <= t.x < x + 1 && 0 <= t.y < a.Length1 && a[t.x, t.y] == t && t.maximumValue == copy.maximumValue &&
        t.State() == TileState(copy.maximumValue, copy.tiles[t.x, t.y].value, false, {})
    {
      ts' := ts;
      var y := 0;
      while y < a.Length1
        invariant 0 <= y <= a.Length1
        invariant ts <= ts' && fresh(ts' - ts)
        invariant forall i, j :: ((0 <= i < x && 0 <= j < a.Length1) || (i == x && 0 <= j < y)) ==>
          a[i, j] in ts' && a[i, j].x == i && a[i, j].y == j
        invariant forall t :: t in ts' ==>
          ((0 <= t.x < x && 0 <= t.y < a.Length1) || (t.x == x && 0 <= t.y < y)) && a[t.x, t.y] == t &&
          t.maximumValue == copy.maximumValue &&
          t.State() == TileState(copy.maximumValue, copy.tiles[t.x, t.y].value, false, {})
      {
        ts' := PlaceCopy(copy, a, x, y, ts');
        y := y + 1;
      }
    }

    /** One iteration of CopyColumn: a copied tile stored at (x, y). */
    static method PlaceCopy(copy: Board, a: array2<Tile>, x: int, y: int, ghost ts: set<Tile>)
      returns (ghost ts': set<Tile>)
      requires copy.Valid() && a != copy.tiles
      requires a.Length0 == copy.Width() && a.Length1 == copy.Height() && 0 <= x < a.Length0 && 0 <= y < a.Length1
      requires forall i, j :: ((0 <= i < x && 0 <= j < a.Length1) || (i == x && 0 <= j < y)) ==>
        a[i, j] in ts && a[i, j].x == i && a[i, j].y == j
      requires forall t :: t in ts ==>
        ((0 <= t.x < x && 0 <= t.y < a.Length1) || (t.x == x && 0 <= t.y < y)) && a[t.x, t.y] == t &&
        t.maximumValue == copy.maximumValue &&
        t.State() == TileState(copy.maximumValue, copy.tiles[t.x, t.y].value, false, {})
      modifies a
      ensures ts <= ts' && fresh(ts' - ts)
      ensures forall i, j :: ((0 <= i < x && 0 <= j < a.Length1) || (i == x && 0 <= j < y + 1)) ==>
        a[i, j] in ts' && a[i, j].x == i && a[i, j].y == j
      ensures forall t :: t in ts' ==>
        ((0 <= t.x < x && 0 <= t.y < a.Length1) || (t.x == x && 0 <= t.y < y + 1)) && a[t.x, t.y] == t &&
        t.maximumValue == copy.maximumValue &&
        t.State() == TileState(copy.maximumValue, copy.tiles[t.x, t.y].value, false, {})
    {
      var t := CopiedTile(copy, x, y);
      a[x, y] := t;
      ts' := ts + {t};
    }

    /** One tile of the copy constructor: a new tile at (x, y) whose Value is set to the copied board's value there. */
    static method CopiedTile(copy: Board, x: int, y: int) returns (t: Tile)
      requires copy.Valid() && 0 <= x < copy.Width() && 0 <= y < copy.Height()
      ensures fresh(t) && t.x == x && t.y == y && t.maximumValue == copy.maximumValue
      ensures t.State() == TileState(copy.maximumValue, copy.tiles[x, y].value, false, {})
    {
      t := new Tile(x, y, copy.maximumValue);
      assert copy.Placed(copy.tiles[x, y]);
      var ok := t.SetValue(copy.tiles[x, y].value);
    }

    /** A width by height board of empty tiles with the given maximum. Line rules are added
        exactly when the maximum equals the width or the height. */
    constructor (width: nat, height: nat, maximumValue: int)
      requires maximumValue >= 0
      ensures Valid() && fresh(TileSet)
      ensures Width() == width && Height() == height && this.maximumValue == maximumValue
      ensures forall t :: t in TileSet ==> t.State() == TileState(maximumValue, 0, false, {})
      ensures Shapes() == if maximumValue == width || maximumValue == height then LineShapes(width, height) else []
      ensures rowAddIndex == 0
    {
      this.maximumValue := maximumValue;
      var a, ts := CreateTiles(width, height, maximumValue);
      tiles := a;
      TileSet := ts;
      rules := [];
      rowAddIndex := 0;
      new;
      if maximumValue == width || maximumValue == height {
        SetupLineRules();
      }
    }

    /** The constructor without a maximum: the maximum is the larger side, so line rules are always added. */
    constructor WithSides(width: nat, height: nat)
      ensures Valid() && fresh(TileSet)
      ensures Width() == width && Height() == height
      ensures maximumValue == if width >= height then width else height
      ensures forall t :: t in TileSet ==> t.State() == TileState(maximumValue, 0, false, {})
      ensures Shapes() == LineShapes(width, height)
      ensures rowAddIndex == 0
    {
      maximumValue := if width >= height then width else height;
      var a, ts := CreateTiles(width, height, if width >= height then width else height);
      tiles := a;
      TileSet := ts;
      rules := [];
      rowAddIndex := 0;
      new;
      SetupLineRules();
    }

    /** The copy constructor: fresh tiles with the copied values (not the blocked flags or candidates),
        and every rule rebuilt over the new tiles at the same positions, with the same description. */
    constructor Clone(copy: Board)
      requires copy.Valid()
      ensures Valid() && fresh(TileSet)
      ensures maximumValue == copy.maximumValue && Width() == copy.Width() && Height() == copy.Height()
      ensures forall t :: t in TileSet ==> t.State() == TileState(maximumValue, copy.tiles[t.x, t.y].value, false, {})
      ensures Shapes() == copy.Shapes()
      ensures rowAddIndex == 0
    {
      maximumValue := copy.maximumValue;
      var a, ts := CopyTiles(copy);
      tiles := a;
      TileSet := ts;
      rules := [];
      rowAddIndex := 0;
      new;
      CopyRules(copy);
    }

    /** The copy constructor's loop over the rules of `copy`. */
    method CopyRules(copy: Board)
      requires Valid() && copy.Valid() && copy != this && rules == []
      requires Width() == copy.Width() && Height() == copy.Height()
      modifies this
      ensures Valid() && rowAddIndex == old(rowAddIndex)
      ensures Shapes() == copy.Shapes()
    {
      var i := 0;
      while i < |copy.rules|
        invariant 0 <= i <= |copy.rules|
        invariant Valid() && rowAddIndex == old(rowAddIndex)
        invariant copy.Valid()
        invariant Shapes() == copy.Shapes()[..i]
      {
        CopyRule(copy, i);
        i := i + 1;
      }
      assert copy.rules[..i] == copy.rules;
    }

    /** One iteration of CopyRules: rule i of `copy` rebuilt over this board's tiles. */
    method CopyRule(copy: Board, i: int)
      requires Valid() && copy.Valid() && copy != this && 0 <= i < |copy.rules|
      requires Width() == copy.Width() && Height() == copy.Height()
      requires Shapes() == copy.Shapes()[..i]
      modifies this
      ensures Valid() && rowAddIndex == old(rowAddIndex) && copy.Valid()
      ensures Shapes() == copy.Shapes()[..i + 1]
    {
      var rule := copy.rules[i];
      var ruleTiles := SamePositions(copy, rule);
      DedupKeeps(ruleTiles);
      CreateRule(rule.description, ruleTiles);
      BoardStays(copy);
      TakeNext(copy.Shapes(), i);
    }

    /** The copy constructor's inner loop: the tiles of this board at the positions of a rule of `copy`.
        Different members sit at different positions, so no tile is added twice. */
    method SamePositions(copy: Board, rule: Rule) returns (ruleTiles: seq<Tile>)
      requires Valid() && copy.Valid() && rule in copy.rules
      requires Width() == copy.Width() && Height() == copy.Height()
      ensures Coords(ruleTiles) == Coords(rule.tiles)
      ensures forall j :: 0 <= j < |ruleTiles| ==> ruleTiles[j] in TileSet
      ensures NoDuplicates(ruleTiles)
    {
      ruleTiles := [];
      var k := 0;
      while k < |rule.tiles|
        invariant 0 <= k <= |rule.tiles|
        invariant |ruleTiles| == k
        invariant forall j :: 0 <= j < k ==> ruleTiles[j] in TileSet && (ruleTiles[j].x, ruleTiles[j].y) == (rule.tiles[j].x, rule.tiles[j].y)
      {
        var tile := rule.tiles[k];
        assert tile in copy.TileSet && copy.Placed(tile);
        ruleTiles := ruleTiles + [tiles[tile.x, tile.y]];
        k := k + 1;
      }
      forall j1, j2 | 0 <= j1 < j2 < |ruleTiles| ensures ruleTiles[j1] != ruleTiles[j2] {
        assert copy.Placed(rule.tiles[j1]) && copy.Placed(rule.tiles[j2]);
      }
    }

    /** AddBoxesCount: box size Width / boxesX by Height / boxesY, and one box rule for every position of
        Box(sizeX, sizeY) (the source iterates the box size here, not the box counts). */
    method AddBoxesCount(boxesX: int, boxesY: int)
      requires Valid()
      requires boxesX > 0 && boxesY > 0
      requires (Width() / boxesX) * (Width() / boxesX) <= Width() && (Height() / boxesY) * (Height() / boxesY) <= Height()
      modifies this
      ensures Valid()
      ensures Shapes() == old(Shapes()) + BoxShapes(Width() / boxesX, Height() / boxesY)
      ensures rowAddIndex == old(rowAddIndex)
    {
      var sizeX := Width() / boxesX;
      var sizeY := Height() / boxesY;
      var boxes := Box(sizeX, sizeY);
      ghost var shapes0 := Shapes();
      var i := 0;
      while i < |boxes|
        invariant 0 <= i <= |boxes|
        invariant Valid() && rowAddIndex == old(rowAddIndex)
        invariant Shapes() == shapes0 + BoxShapes(sizeX, sizeY)[..i]
      {
        AddBox(boxes, i, sizeX, sizeY, shapes0);
        i := i + 1;
      }
      assert BoxShapes(sizeX, sizeY)[..i] == BoxShapes(sizeX, sizeY);
    }

    /** One iteration of AddBoxesCount: the rule of the i-th box. */
    method AddBox(boxes: seq<Coord>, i: int, sizeX: nat, sizeY: nat, ghost shapes0: seq<Shape>)
      requires Valid() && sizeX * sizeX <= Width() && sizeY * sizeY <= Height()
      requires boxes == Box(sizeX, sizeY) && 0 <= i < |boxes|
      requires Shapes() == shapes0 + BoxShapes(sizeX, sizeY)[..i]
      modifies this
      ensures Valid() && rowAddIndex == old(rowAddIndex)
      ensures Shapes() == shapes0 + BoxShapes(sizeX, sizeY)[..i + 1]
    {
      BoxOrder(sizeX, sizeY);
      var position := boxes[i];
      BoxPlacement(position.0, position.1, sizeX, sizeY, Width(), Height());
      RectInside(position.0 * sizeX, position.1 * sizeY, sizeX, sizeY, Width(), Height());
      CreateRuleAt(BoxDescription(position.0, position.1), RectCoords(position.0 * sizeX, position.1 * sizeY, sizeX, sizeY));
      TakeNext(BoxShapes(sizeX, sizeY), i);
    }

    /** The tiles of `positions`, in order; the positions must lie on the board. */
    function TilesAt(positions: seq<Coord>): (r: seq<Tile>)
      requires forall k :: 0 <= k < |positions| ==> 0 <= positions[k].0 < tiles.Length0 && 0 <= positions[k].1 < tiles.Length1
      reads tiles
      ensures |r| == |positions| && forall k :: 0 <= k < |positions| ==> r[k] == tiles[positions[k].0, positions[k].1]
    {
      seq(|positions|, k requires 0 <= k < |positions| && 0 <= positions[k].0 < tiles.Length0 && 0 <= positions[k].1 < tiles.Length1
                         reads tiles => tiles[positions[k].0, positions[k].1])
    }

    /** The tiles at distinct positions of a valid board are distinct, in the positions' order. */
    lemma TilesAtDistinct(positions: seq<Coord>)
      requires Valid()
      requires forall k :: 0 <= k < |positions| ==> 0 <= positions[k].0 < tiles.Length0 && 0 <= positions[k].1 < tiles.Length1
      requires NoDuplicates(positions)
      ensures NoDuplicates(TilesAt(positions))
      ensures Coords(TilesAt(positions)) == positions
      ensures Dedup(TilesAt(positions)) == TilesAt(positions)
    {
      var r := TilesAt(positions);
      forall k | 0 <= k < |positions| ensures r[k] in TileSet && (r[k].x, r[k].y) == positions[k] {
        assert Placed(r[k]);
      }
      DedupKeeps(r);
    }

    /** CreateRule: a new rule over the given board tiles is added after the existing ones. */
    method CreateRule(description: string, members: seq<Tile>)
      requires Valid()
      requires forall k :: 0 <= k < |members| ==> members[k] in TileSet
      modifies this
      ensures Valid()
      ensures |rules| == |old(rules)| + 1 && rules == old(rules) + [rules[|old(rules)|]]
      ensures fresh(rules[|old(rules)|])
      ensures rules[|old(rules)|].tiles == Dedup(members) && rules[|old(rules)|].description == description
      ensures Shapes() == old(Shapes()) + [(description, Coords(Dedup(members)))]
      ensures rowAddIndex == old(rowAddIndex)
    {
      var r := new Rule(members, description);
      rules := rules + [r];
      assert ShapesOf(rules) == ShapesOf(old(rules)) + [(description, Coords(Dedup(members)))];
    }

    /** CreateRule over positions: the added shape is the description with the positions, duplicates dropped. */
    method CreateRuleAt(description: string, positions: seq<Coord>)
      requires Valid()
      requires forall k :: 0 <= k < |positions| ==> 0 <= positions[k].0 < tiles.Length0 && 0 <= positions[k].1 < tiles.Length1
      requires NoDuplicates(positions)
      modifies this
      ensures Valid()
      ensures Shapes() == old(Shapes()) + [(description, positions)]
      ensures rowAddIndex == old(rowAddIndex)
    {
      TilesAtDistinct(positions);
      var members := TilesAt(positions);
      CreateRule(description, members);
    }

    /** SetupLineRules: a "Row x" rule per column x, then a "Col y" rule per row y. */
    method SetupLineRules()
      requires Valid()
      modifies this
      ensures Valid()
      ensures Shapes() == old(Shapes()) + LineShapes(Width(), Height())
      ensures rowAddIndex == old(rowAddIndex)
    {
      ghost var shapes0 := Shapes();
      AddColumnRules();
      AddRowRules();
      AppendTwice(shapes0, ColumnShapes(Width(), Height()), RowShapes(Width(), Height()));
    }

    /** SetupLineRules' loop over x. */
    method AddColumnRules()
      requires Valid()
      modifies this
      ensures Valid()
      ensures Shapes() == old(Shapes()) + ColumnShapes(Width(), Height())
      ensures rowAddIndex == old(rowAddIndex)
    {
      ghost var shapes0 := Shapes();
      var x := 0;
      while x < Width()
        invariant 0 <= x <= Width()
        invariant Valid() && rowAddIndex == old(rowAddIndex)
        invariant Shapes() == shapes0 + ColumnShapes(Width(), Height())[..x]
      {
        AddColumnRule(x, shapes0);
        x := x + 1;
      }
      assert ColumnShapes(Width(), Height())[..Width()] == ColumnShapes(Width(), Height());
    }

    /** One iteration of AddColumnRules: the rule of column x. */
    method AddColumnRule(x: int, ghost shapes0: seq<Shape>)
      requires Valid() && 0 <= x < Width() && Shapes() == shapes0 + ColumnShapes(Width(), Height())[..x]
      modifies this
      ensures Valid() && rowAddIndex == old(rowAddIndex)
      ensures Shapes() == shapes0 + ColumnShapes(Width(), Height())[..x + 1]
    {
      CreateRuleAt("Row " + Decimal(x), Column(x, Height()));
      TakeNext(ColumnShapes(Width(), Height()), x);
    }

    /** SetupLineRules' loop over y. */
    method AddRowRules()
      requires Valid()
      modifies this
      ensures Valid()
      ensures Shapes() == old(Shapes()) + RowShapes(Width(), Height())
      ensures rowAddIndex == old(rowAddIndex)
    {
      ghost var shapes0 := Shapes();
      var y := 0;
      while y < Height()
        invariant 0 <= y <= Height()
        invariant Valid() && rowAddIndex == old(rowAddIndex)
        invariant Shapes() == shapes0 + RowShapes(Width(), Height())[..y]
      {
        AddRowRule(y, shapes0);
        y := y + 1;
      }
      assert RowShapes(Width(), Height())[..Height()] == RowShapes(Width(), Height());
    }

    /** One iteration of AddRowRules: the rule of row y. */
    method AddRowRule(y: int, ghost shapes0: seq<Shape>)
      requires Valid() && 0 <= y < Height() && Shapes() == shapes0 + RowShapes(Width(), Height())[..y]
      modifies this
      ensures Valid() && rowAddIndex == old(rowAddIndex)
      ensures Shapes() == shapes0 + RowShapes(Width(), Height())[..y + 1]
    {
      CreateRuleAt("Col " + Decimal(y), RowCoords(y, Width()));
      TakeNext(RowShapes(Width(), Height()), y);
    }

    /** The states of row y in x order; no tiles for a row outside the grid. */
    ghost function RowStates(y: int): (r: seq<TileState>)
      requires Grid()
      reads tiles, TileSet
      ensures |r| == if 0 <= y < Height() then Width() else 0
      ensures 0 <= y < Height() ==> forall x :: 0 <= x < Width() ==> r[x] == tiles[x, y].State()
    {
      if 0 <= y < Height() then
        seq(Width(), x requires 0 <= x < Width() && 0 <= y < Height() && Grid() reads tiles, TileSet => tiles[x, y].State())
      else []
    }

    /** The grid's values, row by row (outer index y, inner index x). */
    ghost function Values(): (r: seq<seq<int>>)
      requires Grid()
      reads tiles, TileSet
      ensures |r| == Height() && forall y :: 0 <= y < Height() ==> r[y] == ValuesOf(RowStates(y))
    {
      seq(Height(), y requires 0 <= y < Height() && Grid() reads tiles, TileSet => ValuesOf(RowStates(y)))
    }

    /** One character of AddRow at position (x, y): '/' blocks the tile, anything else goes through the
        Value setter; `ok` is false where the setter throws. */
    method AddCell(x: int, y: int, c: char) returns (ok: bool)
      requires Valid() && 0 <= x < Width() && 0 <= y < Height()
      modifies tiles[x, y]
      ensures Valid()
      ensures var cell := ApplyCell(old(RowStates(y))[x], c);
        ok == cell.Some? && RowStates(y) == if ok then old(RowStates(y))[x := cell.value] else old(RowStates(y))
    {
      ghost var before := RowStates(y);
      var tile := tiles[x, y];
      assert Placed(tile);
      if c == '/' {
        tile.Block();
        ok := true;
      } else {
        var value := if c == '.' then 0 else NumericValue(c);
        ok := tile.SetValue(value);
      }
      forall i | 0 <= i < Width() && i != x ensures tiles[i, y].State() == before[i] {
        assert tiles[i, y].x != tile.x;
      }
      RowAfter(x, y, before);
      if !ok {
        assert before[x := before[x]] == before;
      }
    }

    /** A row whose tiles other than the one at column x hold `before`'s states is `before` with that tile's state at x. */
    lemma RowAfter(x: int, y: int, before: seq<TileState>)
      requires Valid() && 0 <= x < Width() && 0 <= y < Height() && |before| == Width()
      requires forall i :: 0 <= i < Width() && i != x ==> tiles[i, y].State() == before[i]
      ensures RowStates(y) == before[x := tiles[x, y].State()]
    {
    }

    /** AddRow: reads s into row rowAddIndex as ApplyRowFrom describes; only that row changes, and
        rowAddIndex moves on by one unless an exception ends the call. */
    method AddRow(s: string) returns (err: Option<RowError>)
      requires Valid()
      modifies TileSet, this`rowAddIndex
      ensures Valid()
      ensures (RowStates(old(rowAddIndex)), err) == ApplyRowFrom(old(RowStates(rowAddIndex)), s, 0)
      ensures rowAddIndex == if err == None then old(rowAddIndex) + 1 else old(rowAddIndex)
      ensures forall t :: t in TileSet && t.y != old(rowAddIndex) ==> t.State() == old(t.State())
    {
      var y := rowAddIndex;
      err := FillRow(y, s, RowStates(y), Snap());
      if err == None {
        ghost var last := RowStates(y);
        rowAddIndex := rowAddIndex + 1;
        assert RowStates(y) == last;
      }
    }

    /** AddRow's loop over the characters of s, into row y; the tiles of other rows keep their states. */
    method FillRow(y: int, s: string, ghost row0: seq<TileState>, ghost s0: Snapshot) returns (err: Option<RowError>)
      requires Valid() && 0 <= y && row0 == RowStates(y) && s0 == Snap()
      modifies TileSet
      ensures Valid()
      ensures (RowStates(y), err) == ApplyRowFrom(row0, s, 0)
      ensures forall t :: t in TileSet && t.y != y ==> t.State() == s0[t]
    {
      ghost var target := ApplyRowFrom(row0, s, 0);
      var i := 0;
      while i < |s|
        invariant 0 <= i <= |s|
        invariant Valid() && s0.Keys == TileSet
        invariant ApplyRowFrom(RowStates(y), s, i) == target
        invariant forall t :: t in TileSet && t.y != y ==> t.State() == s0[t]
      {
        if i >= Width() || y >= Height() {
          return Some(IndexOutOfRange);
        }
        var ok := AddRowCell(y, s, i, target, s0);
        if !ok {
          return Some(ValueOutOfRange);
        }
        i := i + 1;
      }
      err := None;
    }

    /** One iteration of AddRow: character i of s into the tile at (i, y); false where the setter throws. */
    method AddRowCell(y: int, s: string, i: int, ghost target: (seq<TileState>, Option<RowError>), ghost s0: Snapshot)
      returns (ok: bool)
      requires Valid() && 0 <= i < |s| && 0 <= i < Width() && 0 <= y < Height() && s0.Keys == TileSet
      requires ApplyRowFrom(RowStates(y), s, i) == target
      requires forall t :: t in TileSet && t.y != y ==> t.State() == s0[t]
      modifies tiles[i, y]
      ensures Valid()
      ensures ok ==> ApplyRowFrom(RowStates(y), s, i + 1) == target
      ensures !ok ==> (RowStates(y), Some(ValueOutOfRange)) == target
      ensures forall t :: t in TileSet && t.y != y ==> t.State() == s0[t]
    {
      ok := AddCell(i, y, s[i]);
      forall t | t in TileSet && t.y != y ensures t.State() == s0[t] {
        assert t != tiles[i, y];
      }
    }

    /** OutputSolution's inner loop: row y's values in decimal, x ascending. */
    method RowText(y: int, ghost grid: seq<seq<int>>) returns (line: string)
      requires Valid() && grid == Values() && 0 <= y < Height()
      ensures line == RenderRow(grid[y])
    {
      ghost var vals := grid[y];
      assert vals == ValuesOf(RowStates(y));
      line := "";
      var x := 0;
      while x < Width()
        invariant 0 <= x <= Width()
        invariant line == RenderRow(vals[..x])
      {
        assert vals[..x + 1][..x] == vals[..x];
        line := line + Decimal(tiles[x, y].value);
        x := x + 1;
      }
      assert vals[..x] == vals;
    }

    /** OutputSolution: every row's values in decimal, x ascending, each row followed by a newline. */
    method OutputSolution() returns (solution: string)
      requires Valid()
      ensures solution == Render(Values())
    {
      ghost var grid := Values();
      solution := "";
      var y := 0;
      while y < Height()
        invariant 0 <= y <= Height()
        invariant grid == Values()
        invariant solution == Render(grid[..y])
      {
        solution := AppendRow(y, grid, solution);
        BoardStays(this);
        y := y + 1;
      }
      assert grid[..y] == grid;
    }

    /** One iteration of OutputSolution: row y's text and a newline after the rows before it. */
    method AppendRow(y: int, ghost grid: seq<seq<int>>, solution: string) returns (solution': string)
      requires Valid() && grid == Values() && 0 <= y < Height() && solution == Render(grid[..y])
      ensures solution' == Render(grid[..y + 1])
    {
      var line := RowText(y, grid);
      RenderPrefix(grid, y);
      solution' := solution + line + Newline;
    }

    // -------------------------------------------------------------------------
    // Propagation and search.
    // -------------------------------------------------------------------------

    /** The states of the board's tiles, by tile. */
    ghost function Snap(): (s: Snapshot)
      reads TileSet
      ensures s.Keys == TileSet && forall t :: t in TileSet ==> s[t] == t.State()
    {
      map t | t in TileSet :: t.State()
    }

    /** The members of every rule, in rule order. */
    function Members(): (ms: seq<seq<Tile>>)
      reads this
      ensures |ms| == |rules| && forall i :: 0 <= i < |rules| ==> ms[i] == rules[i].tiles
    {
      seq(|rules|, i requires 0 <= i < |rules| reads this => rules[i].tiles)
    }

    /** On a valid board every tile is well formed, the rules range over the board's tiles,
        and a rule's member states are what the snapshot holds for its members. */
    lemma SnapFacts()
      requires Valid()
      ensures SnapWellFormed(Snap()) && RulesOver(Snap(), Members())
      ensures forall i :: 0 <= i < |rules| ==> rules[i].States() == Gather(Snap(), Members()[i])
    {
      forall t | t in TileSet ensures WellFormed(Snap()[t]) {
        assert Placed(t);
      }
      forall i | 0 <= i < |rules| ensures rules[i].States() == Gather(Snap(), Members()[i]) {
        assert Covers(Snap(), Members()[i]);
      }
    }

    /** CheckValid: every rule's CheckValid holds. */
    function CheckValid(): (ok: bool)
      requires Valid()
      reads this, tiles, TileSet
      ensures ok <==> RulesValid(Snap(), Members())
    {
      SnapFacts();
      forall i :: 0 <= i < |rules| ==> rules[i].CheckValid()
    }

    /** What Solve promises of a board it returns: valid, no rule repeats a value, and every member of
        a rule that is not blocked is filled. */
    ghost predicate Solved()
      reads this, tiles, TileSet
    {
      Valid() && CheckValid() &&
      forall i, k :: 0 <= i < |rules| && 0 <= k < |rules[i].tiles| ==>
        rules[i].tiles[k].isBlocked || rules[i].tiles[k].value != 0
    }

    /** ResetSolutions: every tile resets its candidates, x outer and y inner. */
    method ResetSolutions()
      requires Valid()
      modifies TileSet
      ensures Valid()
      ensures Snap() == ResetAll(old(Snap()))
    {
      ghost var s0 := Snap();
      var x := 0;
      while x < Width()
        invariant 0 <= x <= Width()
        invariant Valid()
        invariant forall t :: t in TileSet ==> t.State() == if t.x < x then Reset(s0[t]) else s0[t]
      {
        ResetColumn(x, s0);
        x := x + 1;
      }
      SnapIs(ResetAll(s0));
    }

    /** A map that holds every tile's current state, and nothing else, is the snapshot. */
    lemma SnapIs(m: Snapshot)
      requires m.Keys == TileSet && forall t :: t in TileSet ==> t.State() == m[t]
      ensures Snap() == m
    {
    }

    /** ResetSolutions' inner loop: every tile of column x reset. */
    method ResetColumn(x: int, ghost s0: Snapshot)
      requires Valid() && 0 <= x < Width() && s0.Keys == TileSet
      requires forall t :: t in TileSet ==> t.State() == if t.x < x then Reset(s0[t]) else s0[t]
      modifies TileSet
      ensures Valid()
      ensures forall t :: t in TileSet ==> t.State() == if t.x < x + 1 then Reset(s0[t]) else s0[t]
    {
      var y := 0;
      while y < Height()
        invariant 0 <= y <= Height()
        invariant Valid()
        invariant forall t :: t in TileSet ==>
          t.State() == if t.x < x || (t.x == x && t.y < y) then Reset(s0[t]) else s0[t]
      {
        ResetAt(x, y, s0);
        y := y + 1;
      }
    }

    /** One iteration of ResetColumn: the tile at (x, y) reset. */
    method ResetAt(x: int, y: int, ghost s0: Snapshot)
      requires Valid() && 0 <= x < Width() && 0 <= y < Height() && s0.Keys == TileSet
      requires forall t :: t in TileSet ==>
        t.State() == if t.x < x || (t.x == x && t.y < y) then Reset(s0[t]) else s0[t]
      modifies tiles[x, y]
      ensures Valid()
      ensures forall t :: t in TileSet ==>
        t.State() == if t.x < x || (t.x == x && t.y < y + 1) then Reset(s0[t]) else s0[t]
    {
      var t := tiles[x, y];
      assert Placed(t);
      t.ResetPossibles();
      forall s | s in TileSet && s != t ensures (s.x, s.y) != (x, y) {
        PlacedDistinct(s, t);
      }
    }

    /** One rule's Solve over the board's shared tiles. */
    method SolveRule(i: int) returns (p: SudokuProgress)
      requires Valid() && 0 <= i < |rules|
      modifies TileSet
      ensures Valid()
      ensures RulesOver(old(Snap()), Members())
      ensures (Snap(), p) == StepRule(old(Snap()), Members()[i])
    {
      SnapFacts();
      ghost var before := Snap();
      var rule := rules[i];
      assert rule.TilesValid() by {
        forall k | 0 <= k < |rule.tiles| ensures rule.tiles[k].Valid() {
          assert Placed(rule.tiles[k]);
        }
      }
      p := rule.Solve();
      ghost var ms := SolveSpec(Gather(before, rule.tiles)).0;
      forall t | t in TileSet && t !in rule.tiles ensures t.State() == before[t] && t.Valid() {
        assert old(Placed(t));
      }
      StillValid(this);
      SnapScattered(before, rule.tiles, ms);
    }

    /** The snapshot after a rule's step: its members hold the new states, every other tile its old one. */
    lemma SnapScattered(before: Snapshot, ts: seq<Tile>, ms: seq<TileState>)
      requires before.Keys == TileSet && |ms| == |ts| && NoDuplicates(ts) && Covers(before, ts)
      requires forall k :: 0 <= k < |ts| ==> ts[k].State() == ms[k]
      requires forall t :: t in TileSet && t !in ts ==> t.State() == before[t]
      ensures Snap() == Scatter(before, ts, ms)
    {
      ghost var after := Scatter(before, ts, ms);
      ScatterAt(before, ts, ms);
      forall t | t in TileSet ensures Snap()[t] == after[t] {
        if t in ts {
          var k :| 0 <= k < |ts| && ts[k] == t;
        }
      }
    }

    /** Simplify: Failed when a rule already repeats a value, else every rule's Solve in turn,
        outcomes combined from NoProgress. */
    method Simplify() returns (p: SudokuProgress)
      requires Valid()
      modifies TileSet
      ensures Valid()
      ensures RulesOver(old(Snap()), Members())
      ensures (Snap(), p) == SimplifySpec(old(Snap()), Members())
    {
      SnapFacts();
      var valid := CheckValid();
      if !valid {
        return Failed;
      }
      ghost var s0 := Snap();
      p := NoProgress;
      var i := 0;
      while i < |rules|
        invariant 0 <= i <= |rules|
        invariant Valid() && RulesOver(s0, Members())
        invariant (Snap(), p) == SimplifyRules(s0, Members()[..i])
      {
        p := SimplifyStep(i, s0, p);
        i := i + 1;
      }
      assert Members()[..i] == Members();
    }

    /** One iteration of Simplify: rule i's Solve, its outcome combined into p. */
    method SimplifyStep(i: int, ghost s0: Snapshot, p: SudokuProgress) returns (p': SudokuProgress)
      requires Valid() && 0 <= i < |rules| && RulesOver(s0, Members())
      requires (Snap(), p) == SimplifyRules(s0, Members()[..i])
      modifies TileSet
      ensures Valid() && RulesOver(s0, Members())
      ensures (Snap(), p') == SimplifyRules(s0, Members()[..i + 1])
    {
      ghost var before := Snap();
      var q := SolveRule(i);
      SimplifyRulesNext(s0, Members(), i, before, p);
      p' := Combine(p, q);
    }

    /** The first half of Solve: reset every tile's candidates, then Simplify until it stops making
        progress. Values only get filled; on NoProgress every rule holds and every member is settled. */
    method Propagate() returns (simplify: SudokuProgress)
      requires Valid()
      modifies TileSet
      ensures Valid() && SnapCoherent(Snap())
      ensures simplify != Progress
      ensures ValuesExtend(old(Values()), Values())
      ensures simplify == NoProgress ==> CheckValid() && MembersSettled(Snap(), Members())
    {
      ghost var entry := Snap();
      ghost var vals0 := Values();
      ValuesOfSnap();
      SnapFacts();
      ResetAllFacts(entry);
      ResetSolutions();
      simplify := SimplifyLoop();
      ValuesKept(entry, ResetAll(entry), Snap());
      KeptValues(vals0, entry);
    }

    /** The grid extends `vals0` when every value `entry` holds for a placed tile is still there. */
    lemma KeptValues(vals0: seq<seq<int>>, entry: Snapshot)
      requires Valid() && entry.Keys == TileSet
      requires |vals0| == Height()
      requires forall y :: 0 <= y < Height() ==> |vals0[y]| == Width()
      requires forall y, x :: 0 <= y < Height() && 0 <= x < Width() ==>
        tiles[x, y] in TileSet && vals0[y][x] == entry[tiles[x, y]].value
      requires forall t :: t in entry && entry[t].value != 0 ==> Snap()[t].value == entry[t].value
      ensures ValuesExtend(vals0, Values())
    {
      ValuesOfSnap();
    }

    /** Solve's loop: Simplify while it makes progress. Every round that makes progress fills a tile,
        so the loop ends. */
    method SimplifyLoop() returns (simplify: SudokuProgress)
      requires Valid() && SnapCoherent(Snap())
      modifies TileSet
      ensures Valid() && SnapCoherent(Snap())
      ensures simplify != Progress
      ensures SnapExtends(old(Snap()), Snap())
      ensures simplify == NoProgress ==> CheckValid() && MembersSettled(Snap(), Members())
    {
      ghost var s0 := Snap();
      simplify := Progress;
      while simplify == Progress
        invariant Valid() && SnapCoherent(Snap())
        invariant SnapExtends(s0, Snap())
        invariant simplify == NoProgress ==> RulesValid(Snap(), Members()) && MembersSettled(Snap(), Members())
        decreases EmptyCount(Snap()) + (if simplify == Progress then 1 else 0)
      {
        simplify := SimplifyRound(s0);
      }
    }

    /** One round of Solve's loop: Simplify, which fills a tile whenever it reports Progress. */
    method SimplifyRound(ghost s0: Snapshot) returns (simplify: SudokuProgress)
      requires Valid() && SnapCoherent(Snap()) && SnapExtends(s0, Snap())
      modifies TileSet
      ensures Valid() && SnapCoherent(Snap()) && SnapExtends(s0, Snap())
      ensures simplify == NoProgress ==> RulesValid(Snap(), Members()) && MembersSettled(Snap(), Members())
      ensures EmptyCount(Snap()) <= old(EmptyCount(Snap()))
      ensures simplify == Progress ==> EmptyCount(Snap()) < old(EmptyCount(Snap()))
    {
      ghost var before := Snap();
      SnapFacts();
      SimplifyFacts(before, Members());
      simplify := Simplify();
      SnapExtendsTransitive(s0, before, Snap());
      EmptyCountShrinks(before, Snap());
    }

    /** A value of the grid is the value the snapshot holds for the tile at that position. */
    lemma ValuesOfSnap()
      requires Valid()
      ensures forall y, x :: 0 <= y < Height() && 0 <= x < Width() ==>
        tiles[x, y] in TileSet && Values()[y][x] == Snap()[tiles[x, y]].value
    {
    }

    /** The query in Solve, over the rules' members rule after rule: the first member with the fewest
        candidates among those with more than one; None when no member has more than one. */
    function Chosen(): (c: Option<Tile>)
      requires Valid()
      reads this, tiles, TileSet
      ensures c.None? <==> forall i, k :: 0 <= i < |rules| && 0 <= k < |rules[i].tiles| ==>
        rules[i].tiles[k].PossibleCount() <= 1
      ensures c.Some? ==> c.value in TileSet && c.value.PossibleCount() > 1
      ensures c.Some? ==> forall i, k ::
        (0 <= i < |rules| && 0 <= k < |rules[i].tiles| && rules[i].tiles[k].PossibleCount() > 1) ==>
        c.value.PossibleCount() <= rules[i].tiles[k].PossibleCount()
    {
      FlattenMembers(Members());
      MinimalMember(Members());
      var members := Flatten(Members());
      match FirstMinimal(CountsOf(members))
      case None => None
      case Some(j) => Some(members[j])
    }

    /** Fix on the tile at (x, y): that cell takes the value v, no other cell changes. */
    method FixAt(x: int, y: int, v: int)
      requires Valid() && 0 <= x < Width() && 0 <= y < Height() && 0 <= v <= maximumValue
      modifies tiles[x, y]
      ensures Valid()
      ensures Values() == old(Values())[y := old(Values())[y][x := v]]
    {
      ghost var before := Values();
      ValuesAt();
      var t := tiles[x, y];
      assert Placed(t);
      t.Fix(v);
      ValuesAt();
      GridUpdate(Values(), before, x, y, v);
    }

    /** A value of the grid is the value of the tile at that position. */
    lemma ValuesAt()
      requires Valid()
      ensures forall y, x :: 0 <= y < Height() && 0 <= x < Width() ==> Values()[y][x] == tiles[x, y].value
    {
    }

    /** One trial of the search: a copy of this board (whose values are `vals` and whose rules have
        the shapes `shapes`) with the tile at (x, y) fixed to v. */
    method Branch(x: int, y: int, v: int, ghost vals: seq<seq<int>>, ghost shapes: seq<Shape>) returns (copy: Board)
      requires Valid() && vals == Values() && shapes == Shapes()
      requires 0 <= x < Width() && 0 <= y < Height() && 0 <= v <= maximumValue
      ensures fresh(copy) && fresh(copy.TileSet) && copy.Valid()
      ensures copy.Width() == Width() && copy.Height() == Height() && copy.maximumValue == maximumValue
      ensures copy.Shapes() == shapes
      ensures copy.Values() == vals[y := vals[y][x := v]]
    {
      copy := Copy(vals, shapes);
      copy.FixAt(x, y, v);
    }

    /** The copy constructor seen from the search: the copy has the values and the rule shapes of this board. */
    method Copy(ghost vals: seq<seq<int>>, ghost shapes: seq<Shape>) returns (copy: Board)
      requires Valid() && vals == Values() && shapes == Shapes()
      ensures fresh(copy) && fresh(copy.TileSet) && copy.Valid()
      ensures copy.Width() == Width() && copy.Height() == Height() && copy.maximumValue == maximumValue
      ensures copy.Shapes() == shapes && copy.Values() == vals
    {
      ValuesAt();
      copy := new Board.Clone(this);
      copy.ValuesAt();
      forall yy, xx | 0 <= yy < Height() && 0 <= xx < Width() ensures copy.Values()[yy][xx] == vals[yy][xx] {
        assert copy.tiles[xx, yy] in copy.TileSet;
      }
      GridSame(copy.Values(), vals);
    }

    /** Solve: propagate; on Failed there is no answer; a board with no member left to choose is the
        answer; otherwise every candidate of the chosen tile, in increasing order, is fixed on a copy
        and the copy's answers are collected. */
    method Solve() returns (results: seq<Board>, ghost outcome: SudokuProgress)
      requires Valid()
      modifies TileSet
      ensures Valid()
      ensures forall b :: b in results ==> Answer(b, Width(), Height(), maximumValue, old(Shapes()), old(Values()))
      ensures outcome != Progress
      ensures outcome == Failed ==> results == []
      ensures outcome == NoProgress && Chosen().None? ==> results == [this]
      decreases ZeroCount(Values()), 4
    {
      ghost var entry := Values();
      var simplify := Propagate();
      outcome := simplify;
      if simplify == Failed {
        results := [];
        return;
      }
      results := Search(entry, Shapes());
    }

    /** Solve after a propagation that made no progress: the board itself when no rule member has two
        or more candidates left, otherwise the answers of the member with the fewest. */
    method Search(ghost entry: seq<seq<int>>, ghost shapes: seq<Shape>) returns (results: seq<Board>)
      requires Valid() && SnapCoherent(Snap()) && CheckValid() && MembersSettled(Snap(), Members())
      requires ValuesExtend(entry, Values()) && shapes == Shapes()
      ensures Valid()
      ensures forall b :: b in results ==> Answer(b, Width(), Height(), maximumValue, shapes, entry)
      ensures Chosen().None? ==> Solved() && results == [this]
      decreases ZeroCount(entry), 3
    {
      var chosen := Chosen();
      if chosen.None? {
        SettledSolved();
        return [this];
      }
      var t := chosen.value;
      UndecidedEmpty(t);
      ZeroCountMonotone(entry, Values());
      results := TryCandidates(t, entry, shapes);
    }

    /** A tile with two or more candidates on a coherent board holds no value. */
    lemma UndecidedEmpty(t: Tile)
      requires Valid() && SnapCoherent(Snap()) && t in TileSet && t.PossibleCount() > 1
      ensures Values()[t.y][t.x] == 0
    {
      assert Placed(t) && Coherent(Snap()[t]);
      ValuesOfSnap();
    }

    /** After a propagation that made no progress, a board where no rule member has two or more
        candidates left is solved. */
    lemma SettledSolved()
      requires Valid() && CheckValid() && MembersSettled(Snap(), Members())
      requires forall i, k :: 0 <= i < |rules| && 0 <= k < |rules[i].tiles| ==>
        rules[i].tiles[k].PossibleCount() <= 1
      ensures Solved()
    {
      forall i, k | 0 <= i < |rules| && 0 <= k < |rules[i].tiles|
        ensures rules[i].tiles[k].isBlocked || rules[i].tiles[k].value != 0
      {
        assert Members()[i][k] == rules[i].tiles[k] && rules[i].tiles[k] in Snap();
      }
    }

    /** Solve's loop: every candidate of the chosen empty tile t, in increasing order, tried on a copy
        of this board; the answers are collected and this board is left unchanged. */
    method TryCandidates(t: Tile, ghost entry: seq<seq<int>>, ghost shapes: seq<Shape>) returns (results: seq<Board>)
      requires Valid() && t in TileSet && Values()[t.y][t.x] == 0 && shapes == Shapes()
      requires ValuesExtend(entry, Values()) && ZeroCount(Values()) <= ZeroCount(entry)
      ensures Valid()
      ensures forall b :: b in results ==> Answer(b, Width(), Height(), maximumValue, shapes, entry)
      decreases ZeroCount(entry), 2
    {
      ghost var grid := Values();
      results := [];
      var v := 1;
      while v <= maximumValue
        invariant Valid() && Values() == grid && Shapes() == shapes
        invariant forall b :: b in results ==> Answer(b, Width(), Height(), maximumValue, shapes, entry)
      {
        if t.IsValuePossible(v) {
          var sub := TryValue(t.x, t.y, v, grid, shapes, results, entry);
          results := results + sub;
        }
        v := v + 1;
      }
    }

    /** One candidate of Solve's loop: the answers found from a copy of this board (whose values are
        `vals`) with the tile at (x, y) fixed to v, added to the answers `found` before. This board and
        those answers are left unchanged. */
    method TryValue(x: int, y: int, v: int, ghost vals: seq<seq<int>>, ghost shapes: seq<Shape>,
                    ghost found: seq<Board>, ghost entry: seq<seq<int>>) returns (sub: seq<Board>)
      requires Valid() && vals == Values() && shapes == Shapes()
      requires 0 <= x < Width() && 0 <= y < Height() && 1 <= v <= maximumValue && vals[y][x] == 0
      requires ValuesExtend(entry, vals) && ZeroCount(vals) <= ZeroCount(entry)
      requires forall b :: b in found ==> Answer(b, Width(), Height(), maximumValue, shapes, entry)
      ensures Valid() && Values() == vals && Shapes() == shapes
      ensures forall b :: b in found + sub ==> Answer(b, Width(), Height(), maximumValue, shapes, entry)
      decreases ZeroCount(entry), 1
    {
      sub := SolveCopy(x, y, v, vals, shapes);
      BoardStays(this);
      AnswersStay(found);
      AnswersCarry(sub, Width(), Height(), maximumValue, shapes, entry, vals);
    }

    /** The answers of a copy of this board (whose values are `vals`) with the tile at (x, y) fixed to
        v; the copy has one empty tile fewer, which bounds the search. */
    method SolveCopy(x: int, y: int, v: int, ghost vals: seq<seq<int>>, ghost shapes: seq<Shape>) returns (sub: seq<Board>)
      requires Valid() && vals == Values() && shapes == Shapes()
      requires 0 <= x < Width() && 0 <= y < Height() && 1 <= v <= maximumValue && vals[y][x] == 0
      ensures forall b :: b in sub ==> Answer(b, Width(), Height(), maximumValue, shapes, vals)
      decreases ZeroCount(vals), 0
    {
      var copy := Branch(x, y, v, vals, shapes);
      ghost var copyValues := copy.Values();
      ZeroCountFill(vals, x, y, v);
      ghost var outcome;
      sub, outcome := copy.Solve();
      AnswersCarry(sub, Width(), Height(), maximumValue, shapes, vals, copyValues);
    }
  }
}
