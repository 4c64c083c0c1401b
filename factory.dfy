/** The board recipes: the classic 9 by 9 board with 3 by 3 boxes, its hyper variant, boards whose
    areas are drawn as text, and the samurai board of five overlapping grids. */
module Factory {
  import opened Seqs
  import opened Positions
  import opened Tiles
  import opened Text
  import opened Boards

  // The recipes' constants appear as numbers: the default size 9, the 7 by 7 samurai areas,
  // the box size 3 and the hyper margin 1. Sums of them are written out (12 is 9 + 3, 15 is
  // 9 * 2 - 3 or 3 * 2 + 9, 21 is 7 * 3).

  /** A position lies in a rectangle exactly when it is within its bounds. */
  lemma RectMember(startX: int, startY: int, sizeX: nat, sizeY: nat, x: int, y: int)
    ensures (x, y) in RectCoords(startX, startY, sizeX, sizeY) <==>
      startX <= x < startX + sizeX && startY <= y < startY + sizeY
  {
    var r := RectCoords(startX, startY, sizeX, sizeY);
    BoxOrder(sizeX, sizeY);
    if startX <= x < startX + sizeX && startY <= y < startY + sizeY {
      BoxCovers(sizeX, sizeY, x - startX, y - startY);
      assert r[(x - startX) * sizeY + (y - startY)] == (x, y);
    }
  }

  /** Every tile of a board that nothing has touched yet: empty, not blocked, no candidates. */
  ghost predicate Fresh(board: Board)
    reads board.TileSet
  {
    forall t :: t in board.TileSet ==> t.State() == TileState(board.maximumValue, 0, false, {})
  }

  // ---------------------------------------------------------------- classic boards

  /** SizeAndBoxes: a board with the given sides (the maximum is the larger one, so it has its line
      rules) and the boxes of AddBoxesCount. */
  method SizeAndBoxes(width: nat, height: nat, boxCountX: int, boxCountY: int) returns (board: Board)
    requires boxCountX > 0 && boxCountY > 0
    requires (width / boxCountX) * (width / boxCountX) <= width
    requires (height / boxCountY) * (height / boxCountY) <= height
    ensures fresh(board) && board.Valid() && Fresh(board)
    ensures board.Width() == width && board.Height() == height
    ensures board.maximumValue == if width >= height then width else height
    ensures board.Shapes() == LineShapes(width, height) + BoxShapes(width / boxCountX, height / boxCountY)
  {
    board := new Board.WithSides(width, height);
    board.AddBoxesCount(boxCountX, boxCountY);
  }

  /** The rules of the classic board: its 9 column and 9 row rules, then its 9 boxes. */
  function ClassicShapes(): seq<Shape>
  {
    LineShapes(9, 9) + BoxShapes(3, 3)
  }

  method ClassicWith3X3Boxes() returns (board: Board)
    ensures fresh(board) && board.Valid() && Fresh(board)
    ensures board.Width() == 9 && board.Height() == 9 && board.maximumValue == 9
    ensures board.Shapes() == ClassicShapes()
  {
    board := SizeAndBoxes(9, 9, 3, 3);
  }

  /** The classic board has 27 rules of 9 tiles each, and its boxes split the grid into 3 by 3
      squares: tile (x, y) is in box i exactly when i is 3 * (x / 3) + y / 3. */
  lemma ClassicRules()
    ensures |ClassicShapes()| == 27
    ensures forall i :: 0 <= i < 27 ==> |ClassicShapes()[i].1| == 9
    ensures forall i, x, y :: 0 <= i < 9 && 0 <= x < 9 && 0 <= y < 9 ==>
      ((x, y) in BoxShapes(3, 3)[i].1 <==> i == 3 * (x / 3) + y / 3)
  {
    BoxOrder(3, 3);
    var s := ClassicShapes();
    forall i | 0 <= i < 27 ensures |s[i].1| == 9 {
      if i >= 18 {
        assert s[i] == BoxShapes(3, 3)[i - 18];
      } else if i >= 9 {
        assert s[i] == RowShapes(9, 9)[i - 9];
      } else {
        assert s[i] == ColumnShapes(9, 9)[i];
      }
    }
    forall i, x, y | 0 <= i < 9 && 0 <= x < 9 && 0 <= y < 9
      ensures (x, y) in BoxShapes(3, 3)[i].1 <==> i == 3 * (x / 3) + y / 3
    {
      BoxInSquare(i, x, y);
    }
  }

  /** Tile (x, y) lies in the box at position Box(3, 3)[i] exactly when i is 3 * (x / 3) + y / 3. */
  lemma BoxInSquare(i: int, x: int, y: int)
    requires 0 <= i < 9 && 0 <= x < 9 && 0 <= y < 9
    ensures |Box(3, 3)| == 9
    ensures var p := Box(3, 3)[i];
      (x, y) in RectCoords(p.0 * 3, p.1 * 3, 3, 3) <==> i == 3 * (x / 3) + y / 3
  {
    BoxOrder(3, 3);
    var p := Box(3, 3)[i];
    var a, b := x / 3, y / 3;
    RectMember(p.0 * 3, p.1 * 3, 3, 3, x, y);
    assert x == 3 * a + x % 3 && y == 3 * b + y % 3;
    assert p.0 * 3 <= x < p.0 * 3 + 3 <==> p.0 == a;
    assert p.1 * 3 <= y < p.1 * 3 + 3 <==> p.1 == b;
    assert i == 3 * p.0 + p.1;
    if i == 3 * a + b {
      DivUnique(i, 3, a, b);
      DivUnique(i, 3, p.0, p.1);
    }
  }

  /** The four hyper regions, 3 by 3 squares at (1, 1), (5, 1), (1, 5) and (5, 5). */
  function HyperShapes(): seq<Shape>
  {
    var second := 1 + 3 + 1;
    [ ("HyperA", RectCoords(1, 1, 3, 3)),
      ("HyperB", RectCoords(second, 1, 3, 3)),
      ("HyperC", RectCoords(1, second, 3, 3)),
      ("HyperD", RectCoords(second, second, 3, 3)) ]
  }

  method ClassicWith3X3BoxesAndHyperRegions() returns (board: Board)
    ensures fresh(board) && board.Valid() && Fresh(board)
    ensures board.Width() == 9 && board.Height() == 9 && board.maximumValue == 9
    ensures board.Shapes() == ClassicShapes() + HyperShapes()
  {
    board := ClassicWith3X3Boxes();
    AddHyperRegions(board);
  }

  /** The four CreateRule calls of ClassicWith3X3BoxesAndHyperRegions. */
  method AddHyperRegions(board: Board)
    requires board.Valid() && board.Width() == 9 && board.Height() == 9
    modifies board
    ensures board.Valid() && board.Shapes() == old(board.Shapes()) + HyperShapes()
  {
    var second := 1 + 3 + 1;
    RectInside(1, 1, 3, 3, 9, 9);
    RectInside(second, 1, 3, 3, 9, 9);
    RectInside(1, second, 3, 3, 9, 9);
    RectInside(second, second, 3, 3, 9, 9);
    board.CreateRuleAt("HyperA", RectCoords(1, 1, 3, 3));
    board.CreateRuleAt("HyperB", RectCoords(second, 1, 3, 3));
    board.CreateRuleAt("HyperC", RectCoords(1, second, 3, 3));
    board.CreateRuleAt("HyperD", RectCoords(second, second, 3, 3));
    var h := HyperShapes();
    AppendFour(old(board.Shapes()), h[0], h[1], h[2], h[3]);
  }

  /** The top-left corners of the hyper regions. */
  function HyperCorner(i: int): Coord
    requires 0 <= i < 4
  {
    [(1, 1), (5, 1), (1, 5), (5, 5)][i]
  }

  /** The hyper regions are four 9-tile squares of the 9 by 9 board, the i-th one the 3 by 3 square
      whose top-left corner is HyperCorner(i). */
  lemma HyperRegions()
    ensures |HyperShapes()| == 4
    ensures forall i :: 0 <= i < 4 ==> |HyperShapes()[i].1| == 9 && NoDuplicates(HyperShapes()[i].1)
    ensures forall i, x, y :: 0 <= i < 4 ==>
      ((x, y) in HyperShapes()[i].1 <==> HyperCorner(i).0 <= x < HyperCorner(i).0 + 3 && HyperCorner(i).1 <= y < HyperCorner(i).1 + 3)
  {
    var h := HyperShapes();
    BoxOrder(3, 3);
    forall i | 0 <= i < 4 ensures |h[i].1| == 9 && NoDuplicates(h[i].1) {
      RectInside(HyperCorner(i).0, HyperCorner(i).1, 3, 3, 9, 9);
    }
    forall i, x, y | 0 <= i < 4
      ensures (x, y) in h[i].1 <==> HyperCorner(i).0 <= x < HyperCorner(i).0 + 3 && HyperCorner(i).1 <= y < HyperCorner(i).1 + 3
    {
      RectMember(HyperCorner(i).0, HyperCorner(i).1, 3, 3, x, y);
    }
  }

  /** No tile lies in two hyper regions, and every hyper region lies on the 9 by 9 board. */
  lemma HyperDisjoint()
    ensures forall i, x, y :: 0 <= i < 4 && (x, y) in HyperShapes()[i].1 ==> 0 <= x < 9 && 0 <= y < 9
    ensures forall i, j, x, y :: 0 <= i < j < 4 ==> !((x, y) in HyperShapes()[i].1 && (x, y) in HyperShapes()[j].1)
  {
    HyperRegions();
    var h := HyperShapes();
    forall i, x, y | 0 <= i < 4 && (x, y) in h[i].1 ensures 0 <= x < 9 && 0 <= y < 9 {
      assert 1 <= HyperCorner(i).0 <= 5 && 1 <= HyperCorner(i).1 <= 5;
    }
    forall i, j, x, y | 0 <= i < j < 4 ensures !((x, y) in h[i].1 && (x, y) in h[j].1) {
      assert HyperCorner(i).0 + 4 == HyperCorner(j).0 || HyperCorner(i).1 + 4 == HyperCorner(j).1;
    }
  }

  // ---------------------------------------------------------------- boards drawn as text

  /** Every row of the drawing is as wide as the first. */
  ghost predicate Rectangular(rows: seq<string>)
  {
    forall r :: 0 <= r < |rows| ==> |rows[r]| == |rows[0]|
  }

  /** The rows of the drawing joined into one string. */
  function Join(rows: seq<string>): string
  {
    if rows == [] then [] else Join(rows[..|rows| - 1]) + rows[|rows| - 1]
  }

  /** Rows all `width` wide join into |rows| * width characters. */
  lemma {:induction false} JoinLength(rows: seq<string>, width: nat)
    requires forall r :: 0 <= r < |rows| ==> |rows[r]| == width
    ensures |Join(rows)| == |rows| * width
  {
    if rows != [] {
      var n := |rows| - 1;
      JoinLength(rows[..n], width);
      assert (n + 1) * width == n * width + width;
    }
  }

  /** In rows all `width` wide, character x of row y is character y * width + x of the joined string. */
  lemma {:induction false} JoinAt(rows: seq<string>, width: nat, x: int, y: int)
    requires forall r :: 0 <= r < |rows| ==> |rows[r]| == width
    requires 0 <= y < |rows| && 0 <= x < width
    ensures 0 <= y * width + x < |Join(rows)| && Join(rows)[y * width + x] == rows[y][x]
  {
    var n := |rows| - 1;
    var front := rows[..n];
    JoinLength(front, width);
    if y < n {
      JoinAt(front, width, x, y);
      assert front[y] == rows[y];
      MulMonotone(y, n, width);
    }
  }

  /** The indices of `s` that hold ch, ascending. */
  function Matches(s: string, ch: char): (r: seq<nat>)
    ensures forall k: int :: k in r <==> 0 <= k < |s| && s[k] == ch
    ensures forall a, b :: 0 <= a < b < |r| ==> r[a] < r[b]
  {
    if s == [] then []
    else
      var n := |s| - 1;
      var front := Matches(s[..n], ch);
      assert forall k :: 0 <= k < n ==> s[..n][k] == s[k];
      assert forall a :: 0 <= a < |front| ==> front[a] < n by {
        forall a | 0 <= a < |front| ensures front[a] < n {
          assert front[a] in front;
        }
      }
      front + if s[n] == ch then [n] else []
  }

  /** The tile of joined index i in a drawing `width` wide: column i % width of row i / width. */
  function Cell(i: nat, width: nat): Coord
    requires width > 0
  {
    (i % width, i / width)
  }

  /** The tile ClassicWithSpecialBoxes picks for joined index i: it divides by the height, not the width. */
  function WrittenCell(i: nat, width: nat, height: nat): (r: Coord)
    requires width > 0 && height > 0
    ensures r.0 == Cell(i, width).0 && 0 <= r.0 < width
    ensures 0 <= r.1 && r.1 * height <= i < r.1 * height + height
    ensures height == width ==> r == Cell(i, width)
  {
    (i % width, i / height)
  }

  /** Joined index y * width + x is tile (x, y). */
  lemma CellAt(x: int, y: int, width: nat)
    requires 0 <= x < width && 0 <= y
    ensures y * width + x >= 0 && Cell(y * width + x, width) == (x, y)
  {
    DivUnique(y * width + x, width, y, x);
  }

  /** The indices of a width by height drawing name tiles of a width by height board, each one once. */
  lemma CellInside(i: nat, width: nat, height: nat)
    requires width > 0 && i < width * height
    ensures 0 <= Cell(i, width).0 < width && 0 <= Cell(i, width).1 < height
    ensures i == Cell(i, width).1 * width + Cell(i, width).0
  {
    var q := i / width;
    if q >= height {
      MulMonotone(height, q + 1, width);
    }
  }

  /** Different indices are different tiles. */
  lemma CellInjective(i: nat, j: nat, width: nat)
    requires width > 0 && i != j
    ensures Cell(i, width) != Cell(j, width)
  {
    assert i == (i / width) * width + i % width;
    assert j == (j / width) * width + j % width;
  }

  /** For square drawings the source's mapping is the intended one. */
  lemma WrittenCellSquare(i: nat, size: nat)
    requires size > 0
    ensures WrittenCell(i, size, size) == Cell(i, size)
  {
  }

  /** For drawings that are not square the source's mapping goes wrong: in a 3 wide, 2 high drawing
      index 5 (column 2 of row 1) lands on row 2, which does not exist, and in a 2 wide, 3 high one
      indices 0 and 2 land on the same tile. */
  lemma WrittenCellWrong()
    ensures Cell(5, 3) == (2, 1) && WrittenCell(5, 3, 2) == (2, 2)
    ensures WrittenCell(0, 2, 3) == WrittenCell(2, 2, 3) && Cell(0, 2) != Cell(2, 2)
  {
  }

  /** The positions of the area drawn with ch: the tiles whose character is ch, in joined order. */
  function AreaCoords(joined: string, ch: char, width: nat): (r: seq<Coord>)
    requires width > 0
    ensures |r| == |Matches(joined, ch)|
  {
    var m := Matches(joined, ch);
    seq(|m|, k requires 0 <= k < |m| => Cell(m[k], width))
  }

  /** The area of ch lies on the board, lists no tile twice, and holds exactly the tiles of the joined
      indices that hold ch. */
  lemma AreaCoordsFacts(joined: string, ch: char, width: nat, height: nat)
    requires width > 0 && |joined| == width * height
    ensures var r := AreaCoords(joined, ch, width);
      && (forall k :: 0 <= k < |r| ==> 0 <= r[k].0 < width && 0 <= r[k].1 < height)
      && NoDuplicates(r)
      && (forall i :: 0 <= i < |joined| ==> (Cell(i, width) in r <==> joined[i] == ch))
  {
    var m := Matches(joined, ch);
    var r := AreaCoords(joined, ch, width);
    forall k | 0 <= k < |r| ensures 0 <= r[k].0 < width && 0 <= r[k].1 < height {
      assert m[k] in m;
      CellInside(m[k], width, height);
    }
    forall a, b | 0 <= a < b < |r| ensures r[a] != r[b] {
      CellInjective(m[a], m[b], width);
    }
    forall i | 0 <= i < |joined| ensures Cell(i, width) in r <==> joined[i] == ch {
      if joined[i] == ch {
        assert i in m;
        var k :| 0 <= k < |m| && m[k] == i;
        assert r[k] == Cell(i, width);
      }
      if Cell(i, width) in r {
        var k :| 0 <= k < |r| && r[k] == Cell(i, width);
        assert m[k] in m;
        if m[k] != i {
          CellInjective(m[k], i, width);
        }
      }
    }
  }

  /** The rule of the k-th distinct character of a drawing: described "Area " and the character,
      over the tiles drawn with it. */
  function AreaRule(rows: seq<string>, k: int): Shape
    requires |rows| > 0 && |rows[0]| > 0 && 0 <= k < |Dedup(Join(rows))|
  {
    var ch := Dedup(Join(rows))[k];
    ("Area " + [ch], AreaCoords(Join(rows), ch, |rows[0]|))
  }

  /** The area rules of a drawing: one per distinct character, in order of first appearance. */
  function SpecialShapes(rows: seq<string>): (r: seq<Shape>)
    requires |rows| > 0
    ensures |rows[0]| > 0 ==> |r| == |Dedup(Join(rows))|
  {
    if |rows[0]| == 0 then []
    else seq(|Dedup(Join(rows))|, k requires 0 <= k < |Dedup(Join(rows))| => AreaRule(rows, k))
  }

  /** The k-th area rule lies on the board and lists no tile twice. */
  lemma AreaRuleFits(rows: seq<string>, k: int)
    requires |rows| > 0 && Rectangular(rows) && |rows[0]| > 0 && 0 <= k < |Dedup(Join(rows))|
    ensures var p := AreaRule(rows, k).1;
      (forall j :: 0 <= j < |p| ==> 0 <= p[j].0 < |rows[0]| && 0 <= p[j].1 < |rows|) && NoDuplicates(p)
  {
    JoinLength(rows, |rows[0]|);
    AreaCoordsFacts(Join(rows), Dedup(Join(rows))[k], |rows[0]|, |rows|);
  }

  /** ClassicWithSpecialBoxes, with the row of joined index i taken as i / width. */
  method ClassicWithSpecialBoxes(areas: seq<string>) returns (board: Board)
    requires |areas| > 0 && Rectangular(areas)
    ensures fresh(board) && board.Valid() && Fresh(board)
    ensures board.Width() == |areas[0]| && board.Height() == |areas|
    ensures board.maximumValue == if |areas[0]| >= |areas| then |areas[0]| else |areas|
    ensures board.Shapes() == LineShapes(|areas[0]|, |areas|) + SpecialShapes(areas)
  {
    board := new Board.WithSides(|areas[0]|, |areas|);
    if |areas[0]| == 0 {
      assert SpecialShapes(areas) == [];
    } else {
      AddAreas(board, areas);
    }
  }

  /** ClassicWithSpecialBoxes' loop over the distinct characters of the drawing. */
  method AddAreas(board: Board, areas: seq<string>)
    requires |areas| > 0 && Rectangular(areas) && |areas[0]| > 0
    requires board.Valid() && board.Width() == |areas[0]| && board.Height() == |areas| && Fresh(board)
    modifies board
    ensures board.Valid() && Fresh(board)
    ensures board.Shapes() == old(board.Shapes()) + SpecialShapes(areas)
  {
    var grouped := Dedup(Join(areas));
    ghost var shapes0 := board.Shapes();
    var k := 0;
    while k < |grouped|
      invariant 0 <= k <= |grouped|
      invariant board.Valid() && board.Width() == |areas[0]| && board.Height() == |areas|
      invariant board.Shapes() == shapes0 + SpecialShapes(areas)[..k]
    {
      AddArea(board, areas, k, shapes0);
      k := k + 1;
    }
    assert SpecialShapes(areas)[..k] == SpecialShapes(areas);
  }

  /** One iteration of ClassicWithSpecialBoxes: the rule of the k-th distinct character. */
  method AddArea(board: Board, areas: seq<string>, k: int, ghost shapes0: seq<Shape>)
    requires |areas| > 0 && Rectangular(areas) && |areas[0]| > 0
    requires board.Valid() && board.Width() == |areas[0]| && board.Height() == |areas|
    requires 0 <= k < |Dedup(Join(areas))|
    requires board.Shapes() == shapes0 + SpecialShapes(areas)[..k]
    modifies board
    ensures board.Valid() && board.Shapes() == shapes0 + SpecialShapes(areas)[..k + 1]
  {
    var rule := AreaRule(areas, k);
    AreaRuleFits(areas, k);
    board.CreateRuleAt(rule.0, rule.1);
    TakeNext(SpecialShapes(areas), k);
  }

  /** The area rules split the board: tile (x, y) belongs to the rule of the character drawn there
      and to no other area rule, and every area rule lies on the board. */
  lemma SpecialAreasPartition(areas: seq<string>)
    requires |areas| > 0 && Rectangular(areas) && |areas[0]| > 0
    ensures var s := SpecialShapes(areas);
      && (forall k, j :: 0 <= k < |s| && 0 <= j < |s[k].1| ==>
            0 <= s[k].1[j].0 < |areas[0]| && 0 <= s[k].1[j].1 < |areas|)
      && (forall k, x, y :: 0 <= k < |s| && 0 <= x < |areas[0]| && 0 <= y < |areas| ==>
            ((x, y) in s[k].1 <==> Dedup(Join(areas))[k] == areas[y][x]))
      && (forall x, y :: 0 <= x < |areas[0]| && 0 <= y < |areas| ==> areas[y][x] in Dedup(Join(areas)))
  {
    var width := |areas[0]|;
    var joined := Join(areas);
    var chars := Dedup(joined);
    var s := SpecialShapes(areas);
    JoinLength(areas, width);
    forall k | 0 <= k < |s|
      ensures forall j :: 0 <= j < |s[k].1| ==> 0 <= s[k].1[j].0 < width && 0 <= s[k].1[j].1 < |areas|
      ensures forall x, y :: 0 <= x < width && 0 <= y < |areas| ==> ((x, y) in s[k].1 <==> chars[k] == areas[y][x])
    {
      AreaCoordsFacts(joined, chars[k], width, |areas|);
      forall x, y | 0 <= x < width && 0 <= y < |areas| ensures (x, y) in s[k].1 <==> chars[k] == areas[y][x] {
        CellAt(x, y, width);
        JoinAt(areas, width, x, y);
      }
    }
    forall x, y | 0 <= x < width && 0 <= y < |areas| ensures areas[y][x] in chars {
      JoinAt(areas, width, x, y);
    }
  }

  // ---------------------------------------------------------------- the samurai board

  /** The four rectangles of the 21 by 21 samurai board that belong to none of its five grids. */
  predicate SamuraiGap(x: int, y: int)
  {
    || (9 <= x < 12 && 0 <= y < 6)
    || (9 <= x < 12 && 15 <= y < 21)
    || (0 <= x < 6 && 9 <= y < 12)
    || (15 <= x < 21 && 9 <= y < 12)
  }

  /** Every tile of the board is empty and without candidates, and blocked exactly in the gaps. */
  ghost predicate Gapped(board: Board)
    reads board.TileSet
  {
    forall t :: t in board.TileSet ==> t.State() == TileState(board.maximumValue, 0, SamuraiGap(t.x, t.y), {})
  }

  /** The tiles Samurai blocks, rectangle after rectangle. */
  function GapCoords(): seq<Coord>
  {
    RectCoords(9, 0, 3, 6)
    + RectCoords(9, 15, 3, 6)
    + RectCoords(0, 9, 6, 3)
    + RectCoords(15, 9, 6, 3)
  }

  /** The gap tiles all lie on the board. */
  lemma GapCoordsInside()
    ensures forall k :: 0 <= k < |GapCoords()| ==> 0 <= GapCoords()[k].0 < 21 && 0 <= GapCoords()[k].1 < 21
  {
    RectInside(9, 0, 3, 6, 21, 21);
    RectInside(9, 15, 3, 6, 21, 21);
    RectInside(0, 9, 6, 3, 21, 21);
    RectInside(15, 9, 6, 3, 21, 21);
  }

  /** The blocked tiles are exactly the gaps. */
  lemma GapCoordsExact()
    ensures forall x, y :: (x, y) in GapCoords() <==> SamuraiGap(x, y)
  {
    forall x, y ensures (x, y) in GapCoords() <==> SamuraiGap(x, y) {
      RectMember(9, 0, 3, 6, x, y);
      RectMember(9, 15, 3, 6, x, y);
      RectMember(0, 9, 6, 3, x, y);
      RectMember(15, 9, 6, 3, x, y);
    }
  }

  /** Blocks the tile at (x, y) of the board, as `board.Tile(x, y).Block()` does. */
  method BlockAt(board: Board, x: int, y: int)
    requires board.Valid() && 0 <= x < board.Width() && 0 <= y < board.Height()
    modifies board.TileSet
    ensures board.Valid()
    ensures forall t :: t in board.TileSet ==>
      t.State() == if (t.x, t.y) == (x, y) then old(t.State()).(blocked := true) else old(t.State())
  {
    var tile := board.tiles[x, y];
    assert board.Placed(tile);
    tile.Block();
    forall t | t in board.TileSet ensures t.Valid() {
      assert old(board.Placed(t));
    }
    StillValid(board);
    forall t | t in board.TileSet && t != tile ensures (t.x, t.y) != (x, y) {
      board.PlacedDistinct(t, tile);
    }
  }

  /** The tiles blocked so far: empty tiles without candidates, blocked exactly at the first i gap tiles. */
  ghost predicate BlockedUpTo(board: Board, gaps: seq<Coord>, i: int)
    requires 0 <= i <= |gaps|
    reads board.TileSet
  {
    forall t :: t in board.TileSet ==> t.State() == TileState(board.maximumValue, 0, (t.x, t.y) in gaps[..i], {})
  }

  /** Samurai's first loop: every tile of the gaps is blocked. */
  method BlockGaps(board: Board)
    requires board.Valid() && board.Width() == 21 && board.Height() == 21 && Fresh(board)
    modifies board.TileSet
    ensures board.Valid() && Gapped(board)
  {
    var gaps := GapCoords();
    GapCoordsInside();
    var i := 0;
    while i < |gaps|
      invariant 0 <= i <= |gaps|
      invariant board.Valid() && BlockedUpTo(board, gaps, i)
    {
      BlockNext(board, gaps, i);
      i := i + 1;
    }
    assert gaps[..i] == gaps;
    GapCoordsExact();
  }

  /** One iteration of BlockGaps. */
  method BlockNext(board: Board, gaps: seq<Coord>, i: int)
    requires 0 <= i < |gaps| && 0 <= gaps[i].0 < board.Width() && 0 <= gaps[i].1 < board.Height()
    requires board.Valid() && BlockedUpTo(board, gaps, i)
    modifies board.TileSet
    ensures board.Valid() && BlockedUpTo(board, gaps, i + 1)
  {
    BlockAt(board, gaps[i].0, gaps[i].1);
    TakeNext(gaps, i);
  }

  /** The rule of the 3 by 3 area at area position (ax, ay). */
  function AreaShape(ax: int, ay: int): Shape
  {
    ("Area " + Decimal(ax) + ", " + Decimal(ay), RectCoords(ax * 3, ay * 3, 3, 3))
  }

  /** The area rules Samurai creates for the given area positions: one for each area whose top-left
      tile is not in a gap. */
  function SamuraiAreaShapes(areas: seq<Coord>): seq<Shape>
  {
    if areas == [] then []
    else
      var area := areas[|areas| - 1];
      SamuraiAreaShapes(areas[..|areas| - 1])
      + if SamuraiGap(area.0 * 3, area.1 * 3) then [] else [AreaShape(area.0, area.1)]
  }

  /** Samurai's second loop: an area rule for every area whose first tile is not blocked. */
  method AddAreaRules(board: Board)
    requires board.Valid() && board.Width() == 21 && board.Height() == 21 && Gapped(board)
    modifies board
    ensures board.Valid() && board.Shapes() == old(board.Shapes()) + SamuraiAreaShapes(Box(board.Width() / 3, board.Height() / 3))
    ensures Gapped(board)
  {
    var areas := Box(7, 7);
    ghost var shapes0 := board.Shapes();
    var i := 0;
    while i < |areas|
      invariant 0 <= i <= |areas|
      invariant board.Valid() && board.Width() == 21 && board.Height() == 21
      invariant board.Shapes() == shapes0 + SamuraiAreaShapes(areas[..i])
    {
      BoxAt(7, 7, i);
      AddAreaRule(board, areas, i, shapes0);
      i := i + 1;
    }
    assert areas[..i] == areas == Box(board.Width() / 3, board.Height() / 3);
  }

  /** One iteration of AddAreaRules: the rule of area i, unless its first tile is blocked. */
  method AddAreaRule(board: Board, areas: seq<Coord>, i: int, ghost shapes0: seq<Shape>)
    requires board.Valid() && board.Width() == 21 && board.Height() == 21 && Gapped(board)
    requires 0 <= i < |areas| && 0 <= areas[i].0 < 7 && 0 <= areas[i].1 < 7
    requires board.Shapes() == shapes0 + SamuraiAreaShapes(areas[..i])
    modifies board
    ensures board.Valid() && board.Shapes() == shapes0 + SamuraiAreaShapes(areas[..i + 1])
  {
    var area := areas[i];
    GapAt(board, area.0 * 3, area.1 * 3);
    assert areas[..i + 1][..i] == areas[..i];
    if !board.tiles[area.0 * 3, area.1 * 3].isBlocked {
      RectInside(area.0 * 3, area.1 * 3, 3, 3, 21, 21);
      board.CreateRuleAt("Area " + Decimal(area.0) + ", " + Decimal(area.1), RectCoords(area.0 * 3, area.1 * 3, 3, 3));
      AppendTwice(shapes0, SamuraiAreaShapes(areas[..i]), [AreaShape(area.0, area.1)]);
    }
  }

  /** On a board with the samurai gaps blocked, the tile at (x, y) is blocked exactly in a gap. */
  lemma GapAt(board: Board, x: int, y: int)
    requires board.Valid() && Gapped(board) && 0 <= x < board.Width() && 0 <= y < board.Height()
    ensures board.tiles[x, y].isBlocked <==> SamuraiGap(x, y)
  {
    var t := board.tiles[x, y];
    assert t in board.TileSet && t.x == x && t.y == y;
  }

  /** The line rules Samurai creates for every posSet p: the upper and lower column and the left
      and right row. */
  function OuterLines(p: int): seq<Shape>
  {
    var n := Decimal(p);
    [ ("Column upper " + n, RectCoords(p, 0, 1, 9)),
      ("Column lower " + n, RectCoords(p, 12, 1, 9)),
      ("Row left " + n, RectCoords(0, p, 9, 1)),
      ("Row right " + n, RectCoords(12, p, 9, 1)) ]
  }

  /** The line rules of the middle grid, for 6 <= posSet < 15. */
  function MiddleLines(p: int): seq<Shape>
  {
    var n := Decimal(p);
    [ ("Column middle " + n, RectCoords(p, 6, 1, 9)),
      ("Row middle " + n, RectCoords(6, p, 9, 1)) ]
  }

  /** The line rules Samurai creates for posSet p. */
  function LineGroup(p: int): seq<Shape>
  {
    OuterLines(p) + if p < 6 || p >= 15 then [] else MiddleLines(p)
  }

  /** The line rules of posSet 0..n-1. */
  function SamuraiLineShapes(n: nat): seq<Shape>
  {
    if n == 0 then [] else SamuraiLineShapes(n - 1) + LineGroup(n - 1)
  }

  /** Samurai's last loop, over posSet 0..20. */
  method AddLineRules(board: Board)
    requires board.Valid() && board.Width() == 21 && board.Height() == 21 && Gapped(board)
    modifies board
    ensures board.Valid() && board.Shapes() == old(board.Shapes()) + SamuraiLineShapes(board.Width())
    ensures Gapped(board)
  {
    ghost var shapes0 := board.Shapes();
    var posSet := 0;
    while posSet < board.Width()
      invariant 0 <= posSet <= 21
      invariant board.Valid() && board.Width() == 21 && board.Height() == 21
      invariant board.Shapes() == shapes0 + SamuraiLineShapes(posSet)
    {
      AddLineGroup(board, posSet);
      AppendTwice(shapes0, SamuraiLineShapes(posSet), LineGroup(posSet));
      posSet := posSet + 1;
    }
    assert posSet == board.Width();
  }

  /** One iteration of AddLineRules. */
  method AddLineGroup(board: Board, p: int)
    requires board.Valid() && board.Width() == 21 && board.Height() == 21 && 0 <= p < 21
    modifies board
    ensures board.Valid() && board.Shapes() == old(board.Shapes()) + LineGroup(p)
  {
    AddOuterLines(board, p);
    if p < 6 || p >= 15 {
      return;
    }
    AddMiddleLines(board, p);
    AppendTwice(old(board.Shapes()), OuterLines(p), MiddleLines(p));
  }

  method AddOuterLines(board: Board, p: int)
    requires board.Valid() && board.Width() == 21 && board.Height() == 21 && 0 <= p < 21
    modifies board
    ensures board.Valid() && board.Shapes() == old(board.Shapes()) + OuterLines(p)
  {
    var n := Decimal(p);
    RectInside(p, 0, 1, 9, 21, 21);
    RectInside(p, 12, 1, 9, 21, 21);
    RectInside(0, p, 9, 1, 21, 21);
    RectInside(12, p, 9, 1, 21, 21);
    board.CreateRuleAt("Column upper " + n, RectCoords(p, 0, 1, 9));
    board.CreateRuleAt("Column lower " + n, RectCoords(p, 12, 1, 9));
    board.CreateRuleAt("Row left " + n, RectCoords(0, p, 9, 1));
    board.CreateRuleAt("Row right " + n, RectCoords(12, p, 9, 1));
    var o := OuterLines(p);
    AppendFour(old(board.Shapes()), o[0], o[1], o[2], o[3]);
  }

  method AddMiddleLines(board: Board, p: int)
    requires board.Valid() && board.Width() == 21 && board.Height() == 21 && 6 <= p < 15
    modifies board
    ensures board.Valid() && board.Shapes() == old(board.Shapes()) + MiddleLines(p)
  {
    var n := Decimal(p);
    RectInside(p, 6, 1, 9, 21, 21);
    RectInside(6, p, 9, 1, 21, 21);
    board.CreateRuleAt("Column middle " + n, RectCoords(p, 6, 1, 9));
    board.CreateRuleAt("Row middle " + n, RectCoords(6, p, 9, 1));
    assert old(board.Shapes()) + MiddleLines(p) == old(board.Shapes()) + [MiddleLines(p)[0]] + [MiddleLines(p)[1]];
  }

  /** The rules of a samurai board of the given side: the area rules of Box(side / 3, side / 3),
      then the line rules of posSet 0..side-1. */
  function SamuraiShapes(side: nat): seq<Shape>
  {
    SamuraiAreaShapes(Box(side / 3, side / 3)) + SamuraiLineShapes(side)
  }

  /** The samurai board: 21 by 21 with maximum 9, so without the automatic line rules; the gaps
      blocked; then the area rules and the line rules of the five grids. */
  method Samurai() returns (board: Board)
    ensures fresh(board) && board.Valid()
    ensures board.Width() == 21 && board.Height() == 21 && board.maximumValue == 9
    ensures Gapped(board)
    ensures board.Shapes() == SamuraiShapes(board.Width())
  {
    board := new Board(21, 21, 9);
    assert board.Shapes() == [];
    BlockGaps(board);
    assert board.Shapes() == [];
    AddAreaRules(board);
    ghost var areas := board.Shapes();
    assert areas == SamuraiAreaShapes(Box(board.Width() / 3, board.Height() / 3));
    AddLineRules(board);
    assert board.Shapes() == areas + SamuraiLineShapes(board.Width());
  }

  // ---------------------------------------------------------------- what the samurai board holds

  /** The area rules of a sequence of area positions split over a concatenation. */
  lemma {:induction false} SamuraiAreaShapesAppend(a: seq<Coord>, b: seq<Coord>)
    ensures SamuraiAreaShapes(a + b) == SamuraiAreaShapes(a) + SamuraiAreaShapes(b)
  {
    if b != [] {
      var n := |b| - 1;
      var ab := a + b;
      assert ab[..|ab| - 1] == a + b[..n];
      assert ab[|ab| - 1] == b[n];
      SamuraiAreaShapesAppend(a, b[..n]);
      var last := b[n];
      var t := if SamuraiGap(last.0 * 3, last.1 * 3) then [] else [AreaShape(last.0, last.1)];
      assert SamuraiAreaShapes(ab) == SamuraiAreaShapes(a + b[..n]) + t;
      assert SamuraiAreaShapes(b) == SamuraiAreaShapes(b[..n]) + t;
      AppendTwice(SamuraiAreaShapes(a), SamuraiAreaShapes(b[..n]), t);
    } else {
      assert a + b == a;
    }
  }

  /** Every area whose first tile is outside the gaps gets its rule. */
  lemma {:induction false} SamuraiAreasCovered(areas: seq<Coord>)
    ensures forall a :: a in areas && !SamuraiGap(a.0 * 3, a.1 * 3) ==> AreaShape(a.0, a.1) in SamuraiAreaShapes(areas)
  {
    if areas != [] {
      var n := |areas| - 1;
      var front := areas[..n];
      SamuraiAreasCovered(front);
      forall a | a in areas && !SamuraiGap(a.0 * 3, a.1 * 3) ensures AreaShape(a.0, a.1) in SamuraiAreaShapes(areas) {
        if a != areas[n] {
          var i :| 0 <= i < |areas| && areas[i] == a;
          assert a == front[i];
        }
      }
    }
  }

  /** A samurai area rule: nine tiles, each once, on the 21 by 21 board and outside the gaps. */
  ghost predicate OpenArea(shape: Shape)
  {
    && |shape.1| == 9 && NoDuplicates(shape.1)
    && forall j :: 0 <= j < |shape.1| ==>
         0 <= shape.1[j].0 < 21 && 0 <= shape.1[j].1 < 21 && !SamuraiGap(shape.1[j].0, shape.1[j].1)
  }

  /** The rule of an area whose first tile is outside the gaps is an OpenArea: a gap is made of whole
      areas, so the first tile decides for the area. */
  lemma AreaTiles(ax: int, ay: int)
    requires 0 <= ax < 7 && 0 <= ay < 7 && !SamuraiGap(ax * 3, ay * 3)
    ensures OpenArea(AreaShape(ax, ay))
  {
    var p := AreaShape(ax, ay).1;
    BoxOrder(3, 3);
    RectInside(ax * 3, ay * 3, 3, 3, 21, 21);
    forall j | 0 <= j < |p| ensures !SamuraiGap(p[j].0, p[j].1) {
      var q := Box(3, 3)[j];
      assert p[j] == (ax * 3 + q.0, ay * 3 + q.1);
    }
  }

  /** Every rule Samurai creates for areas of the 7 by 7 area grid is an OpenArea. */
  lemma {:induction false} SamuraiAreaTiles(areas: seq<Coord>)
    requires forall i :: 0 <= i < |areas| ==> 0 <= areas[i].0 < 7 && 0 <= areas[i].1 < 7
    ensures forall k :: 0 <= k < |SamuraiAreaShapes(areas)| ==> OpenArea(SamuraiAreaShapes(areas)[k])
  {
    if areas != [] {
      var n := |areas| - 1;
      var a := areas[n];
      var front := areas[..n];
      assert forall i :: 0 <= i < n ==> front[i] == areas[i];
      SamuraiAreaTiles(front);
      if !SamuraiGap(a.0 * 3, a.1 * 3) {
        AreaTiles(a.0, a.1);
      }
    }
  }

  /** Of the 49 samurai areas, the 41 outside the eight gap areas get a rule. */
  lemma SamuraiAreaCount(side: nat)
    requires side == 21
    ensures |SamuraiAreaShapes(Box(side / 3, side / 3))| == 41
  {
    assert side / 3 == 7;
    assert Box(7, 7) == Box(6, 7) + Column(6, 7);
    SamuraiAreaShapesAppend(Box(6, 7), Column(6, 7));
    ColumnAreaCount(6);
    assert Box(6, 7) == Box(5, 7) + Column(5, 7);
    SamuraiAreaShapesAppend(Box(5, 7), Column(5, 7));
    ColumnAreaCount(5);
    assert Box(5, 7) == Box(4, 7) + Column(4, 7);
    SamuraiAreaShapesAppend(Box(4, 7), Column(4, 7));
    ColumnAreaCount(4);
    assert Box(4, 7) == Box(3, 7) + Column(3, 7);
    SamuraiAreaShapesAppend(Box(3, 7), Column(3, 7));
    ColumnAreaCount(3);
    assert Box(3, 7) == Box(2, 7) + Column(2, 7);
    SamuraiAreaShapesAppend(Box(2, 7), Column(2, 7));
    ColumnAreaCount(2);
    assert Box(2, 7) == Box(1, 7) + Column(1, 7);
    SamuraiAreaShapesAppend(Box(1, 7), Column(1, 7));
    ColumnAreaCount(1);
    assert Box(1, 7) == Box(0, 7) + Column(0, 7);
    SamuraiAreaShapesAppend(Box(0, 7), Column(0, 7));
    ColumnAreaCount(0);
  }

  /** Column x of the samurai areas: the gap rows leave 6 areas in columns 0, 1, 5 and 6, 3 in
      column 3 and all 7 in columns 2 and 4. */
  lemma ColumnAreaCount(x: int)
    requires 0 <= x < 7
    ensures |SamuraiAreaShapes(Column(x, 7))| == if x == 3 then 3 else if x == 2 || x == 4 then 7 else 6
  {
    ColumnPrefixCount(x, 7);
    assert Column(x, 7)[..7] == Column(x, 7);
  }

  /** How many of the areas (x, 0) .. (x, n - 1) lie outside the gaps: in column 3 only rows 2 to 4,
      in columns 2 and 4 all, elsewhere all but row 3. */
  function OpenAreas(x: int, n: int): int
  {
    if x == 3 then (if n <= 2 then 0 else if n >= 5 then 3 else n - 2)
    else if x == 2 || x == 4 then n
    else if n > 3 then n - 1 else n
  }

  /** The areas (x, 0) .. (x, n - 1) of the samurai area grid get OpenAreas(x, n) rules. */
  lemma {:induction false} ColumnPrefixCount(x: int, n: int)
    requires 0 <= x < 7 && 0 <= n <= 7
    ensures |SamuraiAreaShapes(Column(x, 7)[..n])| == OpenAreas(x, n)
  {
    var c := Column(x, 7);
    if n == 0 {
      assert c[..0] == [];
    } else {
      ColumnPrefixCount(x, n - 1);
      assert c[..n][..n - 1] == c[..n - 1];
      assert c[n - 1] == (x, n - 1);
      var y := n - 1;
      assert SamuraiGap(x * 3, y * 3) <==> (x == 3 && (y < 2 || y > 4)) || (x != 2 && x != 3 && x != 4 && y == 3);
    }
  }

  /** A samurai line rule: nine tiles, each once, on the 21 by 21 board. */
  ghost predicate Line(shape: Shape)
  {
    && |shape.1| == 9 && NoDuplicates(shape.1)
    && forall j :: 0 <= j < |shape.1| ==> 0 <= shape.1[j].0 < 21 && 0 <= shape.1[j].1 < 21
  }

  /** The rules of posSet p: four lines, two more when p is a column and row of the middle grid. */
  lemma LineGroupLines(p: int)
    requires 0 <= p < 21
    ensures |LineGroup(p)| == if 6 <= p < 15 then 6 else 4
    ensures forall k :: 0 <= k < |LineGroup(p)| ==> Line(LineGroup(p)[k])
  {
    BoxOrder(1, 9);
    BoxOrder(9, 1);
    RectInside(p, 0, 1, 9, 21, 21);
    RectInside(p, 12, 1, 9, 21, 21);
    RectInside(0, p, 9, 1, 21, 21);
    RectInside(12, p, 9, 1, 21, 21);
    if 6 <= p < 15 {
      RectInside(p, 6, 1, 9, 21, 21);
      RectInside(6, p, 9, 1, 21, 21);
    }
  }

  /** The middle grid's columns and rows among posSet 0..n-1. */
  function MiddleCount(n: int): int
  {
    if n <= 6 then 0 else if n >= 15 then 9 else n - 6
  }

  /** The line rules of posSet 0..n-1: four per posSet and two per middle one, each a Line. */
  lemma {:induction false} SamuraiLines(n: nat)
    requires n <= 21
    ensures |SamuraiLineShapes(n)| == 4 * n + 2 * MiddleCount(n)
    ensures forall k :: 0 <= k < |SamuraiLineShapes(n)| ==> Line(SamuraiLineShapes(n)[k])
  {
    if n > 0 {
      SamuraiLines(n - 1);
      LineGroupLines(n - 1);
    }
  }

  /** The area rules of an n by n area grid, n at most 7, are all OpenAreas. */
  lemma SamuraiGridAreas(n: nat)
    requires n <= 7
    ensures forall k :: 0 <= k < |SamuraiAreaShapes(Box(n, n))| ==> OpenArea(SamuraiAreaShapes(Box(n, n))[k])
  {
    BoxInside(n, n);
    SamuraiAreaTiles(Box(n, n));
  }

  /** The samurai board's 143 rules: first 41 area rules, each an OpenArea, then 102 line rules,
      each a Line. */
  lemma SamuraiRules(side: nat)
    requires side == 21
    ensures var s := SamuraiShapes(side);
      && |s| == 143
      && forall k :: 0 <= k < |s| ==> if k < 41 then OpenArea(s[k]) else Line(s[k])
  {
    SamuraiAreaCount(side);
    SamuraiGridAreas(side / 3);
    SamuraiLines(side);
  }

  /** Every area of an n by n area grid whose first tile is outside the gaps gets its rule. */
  lemma SamuraiAreasPresent(n: nat)
    ensures forall ax, ay :: 0 <= ax < n && 0 <= ay < n && !SamuraiGap(ax * 3, ay * 3) ==>
      AreaShape(ax, ay) in SamuraiAreaShapes(Box(n, n))
  {
    var areas := Box(n, n);
    SamuraiAreasCovered(areas);
    BoxContains(n, n);
    forall ax, ay | 0 <= ax < n && 0 <= ay < n && !SamuraiGap(ax * 3, ay * 3)
      ensures AreaShape(ax, ay) in SamuraiAreaShapes(areas)
    {
      var a := (ax, ay);
      assert a in areas;
      assert a.0 == ax && a.1 == ay;
    }
  }
}
