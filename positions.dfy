/** Grid coordinates and their enumeration in x-major order. */
module Positions {

  /** A grid position (x, y). */
  type Coord = (int, int)

  /** The positions (x, y) of column x, y = 0..sizeY-1. */
  function Column(x: int, sizeY: nat): (r: seq<Coord>)
    ensures |r| == sizeY
    ensures forall y :: 0 <= y < sizeY ==> r[y] == (x, y)
  {
    seq(sizeY, y requires 0 <= y < sizeY => (x, y))
  }

  /** Every position of a sizeX by sizeY rectangle, x outer and y inner. */
  function Box(sizeX: nat, sizeY: nat): seq<Coord>
  {
    if sizeX == 0 then [] else Box(sizeX - 1, sizeY) + Column(sizeX - 1, sizeY)
  }

  /** Box lists sizeX * sizeY positions inside the rectangle, position i being (x, y) with i == x * sizeY + y. */
  lemma {:induction false} BoxOrder(sizeX: nat, sizeY: nat)
    ensures |Box(sizeX, sizeY)| == sizeX * sizeY
    ensures forall i :: 0 <= i < |Box(sizeX, sizeY)| ==>
      var p := Box(sizeX, sizeY)[i];
      0 <= p.0 < sizeX && 0 <= p.1 < sizeY && i == p.0 * sizeY + p.1
  {
    if sizeX > 0 {
      BoxOrder(sizeX - 1, sizeY);
      assert sizeX * sizeY == (sizeX - 1) * sizeY + sizeY;
    }
  }

  lemma {:induction false} MulMonotone(a: nat, b: nat, c: nat)
    requires a < b
    ensures a * c + c <= b * c
    decreases b - a
  {
    assert (a + 1) * c == a * c + c;
    if a + 1 < b {
      MulMonotone(a + 1, b, c);
    }
  }

  /** No position appears twice. */
  lemma BoxDistinct(sizeX: nat, sizeY: nat, i: int, j: int)
    requires 0 <= i < j < |Box(sizeX, sizeY)|
    ensures Box(sizeX, sizeY)[i] != Box(sizeX, sizeY)[j]
  {
    BoxOrder(sizeX, sizeY);
  }

  /** Every position of the rectangle is listed, (x, y) at index x * sizeY + y. */
  lemma {:induction false} BoxCovers(sizeX: nat, sizeY: nat, x: int, y: int)
    requires 0 <= x < sizeX && 0 <= y < sizeY
    ensures x * sizeY + y < |Box(sizeX, sizeY)|
    ensures Box(sizeX, sizeY)[x * sizeY + y] == (x, y)
  {
    BoxOrder(sizeX, sizeY);
    BoxOrder(sizeX - 1, sizeY);
    assert sizeX * sizeY == (sizeX - 1) * sizeY + sizeY;
    if x < sizeX - 1 {
      MulMonotone(x, sizeX - 1, sizeY);
      BoxCovers(sizeX - 1, sizeY, x, y);
    }
  }

  /** Quotient and remainder are the only q and r with i == q * width + r and 0 <= r < width. */
  lemma DivUnique(i: nat, width: nat, q: nat, r: nat)
    requires width > 0 && r < width && i == q * width + r
    ensures i / width == q && i % width == r
  {
    var q', r' := i / width, i % width;
    assert i == q' * width + r';
    if q' > q {
      MulMonotone(q, q', width);
    } else if q' < q {
      MulMonotone(q', q, width);
    }
  }

  /** Position i of a sizeX by sizeY rectangle is (i / sizeY, i % sizeY). */
  lemma BoxAt(sizeX: nat, sizeY: nat, i: int)
    requires 0 <= i < |Box(sizeX, sizeY)|
    ensures sizeY > 0 && Box(sizeX, sizeY)[i] == (i / sizeY, i % sizeY)
    ensures 0 <= i / sizeY < sizeX && 0 <= i % sizeY < sizeY
  {
    BoxOrder(sizeX, sizeY);
    var p := Box(sizeX, sizeY)[i];
    DivUnique(i, sizeY, p.0, p.1);
  }

  /** Every position of the rectangle is in Box. */
  lemma BoxContains(sizeX: nat, sizeY: nat)
    ensures forall x, y :: 0 <= x < sizeX && 0 <= y < sizeY ==> (x, y) in Box(sizeX, sizeY)
  {
    forall x, y | 0 <= x < sizeX && 0 <= y < sizeY ensures (x, y) in Box(sizeX, sizeY) {
      BoxCovers(sizeX, sizeY, x, y);
    }
  }

  /** Every position Box lists lies in the rectangle. */
  lemma BoxInside(sizeX: nat, sizeY: nat)
    ensures forall i :: 0 <= i < |Box(sizeX, sizeY)| ==> 0 <= Box(sizeX, sizeY)[i].0 < sizeX && 0 <= Box(sizeX, sizeY)[i].1 < sizeY
  {
    BoxOrder(sizeX, sizeY);
  }
}
