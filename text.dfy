/** Reading a board row from text and writing a board out as text. */
module Text {
  import opened Tiles

  datatype Option<T> = None | Some(value: T)

  /** The exceptions AddRow can raise: a cell outside the grid, or a value the Value setter refuses. */
  datatype RowError = IndexOutOfRange | ValueOutOfRange

  /** The line separator written after every row. */
  const Newline: string := "\n"

  /** char.GetNumericValue restricted to ASCII: a decimal digit's value, -1 for anything else. */
  function NumericValue(c: char): (v: int)
    ensures -1 <= v <= 9
    ensures v >= 0 <==> '0' <= c <= '9'
  {
    if '0' <= c <= '9' then (c as int) - ('0' as int) else -1
  }

  /** The digit character of 0..9. */
  function Digit(n: int): (c: char)
    requires 0 <= n <= 9
    ensures NumericValue(c) == n
  {
    (('0' as int) + n) as char
  }

  /** Int32.ToString: decimal digits without leading zeros, a '-' before a negative value. */
  function Decimal(n: int): (s: string)
    ensures |s| >= 1
    ensures 0 <= n <= 9 ==> s == [Digit(n)]
    ensures n >= 0 ==> forall i :: 0 <= i < |s| ==> '0' <= s[i] <= '9'
    decreases if n < 0 then -n + 1 else n
  {
    if n < 0 then "-" + Decimal(-n)
    else if n < 10 then [Digit(n)]
    else Decimal(n / 10) + [Digit(n % 10)]
  }

  /** Reads a string of decimal digits as a number. */
  function DigitsValue(s: string): int
  {
    if s == [] then 0 else DigitsValue(s[..|s| - 1]) * 10 + NumericValue(s[|s| - 1])
  }

  /** Reading back what Decimal writes for a non-negative value gives the value. */
  lemma {:induction false} DecimalRoundTrip(n: int)
    requires n >= 0
    ensures DigitsValue(Decimal(n)) == n
    decreases n
  {
    if n >= 10 {
      DecimalRoundTrip(n / 10);
      var s := Decimal(n);
      assert s[..|s| - 1] == Decimal(n / 10);
    }
  }

  /** The value AddRow stores for a character other than '/': '.' is empty, anything else is parsed. */
  function CellValue(c: char): int
  {
    if c == '.' then 0 else NumericValue(c)
  }

  /** One cell of AddRow: '/' blocks the tile and keeps its value; any other character goes through
      the Value setter, which refuses a value below 0 or above the maximum. */
  function ApplyCell(t: TileState, c: char): (r: Option<TileState>)
    ensures r.Some? ==> r.value.max == t.max && r.value.possible == t.possible
    ensures c == '/' ==> r == Some(t.(blocked := true))
    ensures c != '/' ==> (r.Some? <==> 0 <= CellValue(c) <= t.max)
    ensures c != '/' && r.Some? ==> r.value == t.(value := CellValue(c))
  {
    if c == '/' then Some(t.(blocked := true))
    else
      var v := CellValue(c);
      if v > t.max || v < 0 then None else Some(t.(value := v))
  }

  /** AddRow from character i on, over the row's tiles in x order. A character beyond the row's
      width raises IndexOutOfRange, a refused value ValueOutOfRange; cells handled before stay changed. */
  function ApplyRowFrom(row: seq<TileState>, s: string, i: nat): (r: (seq<TileState>, Option<RowError>))
    ensures |r.0| == |row|
    decreases |s| - i
  {
    if i >= |s| then (row, None)
    else if i >= |row| then (row, Some(IndexOutOfRange))
    else
      match ApplyCell(row[i], s[i])
      case None => (row, Some(ValueOutOfRange))
      case Some(t) => ApplyRowFrom(row[i := t], s, i + 1)
  }

  /** Only the first |s| cells of the row can change, and a cell's maximum and candidates never do. */
  lemma {:induction false} ApplyRowFrame(row: seq<TileState>, s: string, i: nat)
    ensures var r := ApplyRowFrom(row, s, i).0;
      forall k :: 0 <= k < |row| ==>
        r[k].max == row[k].max && r[k].possible == row[k].possible &&
        ((k < i || k >= |s|) ==> r[k] == row[k])
    decreases |s| - i
  {
    if i < |s| && i < |row| {
      var c := ApplyCell(row[i], s[i]);
      if c.Some? {
        ApplyRowFrame(row[i := c.value], s, i + 1);
      }
    }
  }

  /** One line of OutputSolution: every value's Decimal, in x order, with no separator. */
  function RenderRow(vals: seq<int>): string
  {
    if vals == [] then "" else RenderRow(vals[..|vals| - 1]) + Decimal(vals[|vals| - 1])
  }

  /** OutputSolution over rows (outer index y, inner index x): each row followed by a newline. */
  function Render(rows: seq<seq<int>>): string
  {
    if rows == [] then "" else Render(rows[..|rows| - 1]) + RenderRow(rows[|rows| - 1]) + Newline
  }

  /** Render of the first y + 1 rows extends the render of the first y rows by row y and a newline. */
  lemma RenderPrefix(rows: seq<seq<int>>, y: int)
    requires 0 <= y < |rows|
    ensures Render(rows[..y + 1]) == Render(rows[..y]) + RenderRow(rows[y]) + Newline
  {
    assert rows[..y + 1][..y] == rows[..y];
  }

  predicate SingleDigits(vals: seq<int>)
  {
    forall k :: 0 <= k < |vals| ==> 0 <= vals[k] <= 9
  }

  /** With values 0..9 every cell prints as exactly one character, its digit. */
  lemma {:induction false} RenderRowDigits(vals: seq<int>)
    requires SingleDigits(vals)
    ensures |RenderRow(vals)| == |vals|
    ensures forall k :: 0 <= k < |vals| ==> RenderRow(vals)[k] == Digit(vals[k])
  {
    if vals != [] {
      var front := vals[..|vals| - 1];
      assert forall k :: 0 <= k < |front| ==> front[k] == vals[k];
      RenderRowDigits(front);
    }
  }

  /** The row whose first i cells hold vals' values and the rest are as they were. */
  function Assigned(row: seq<TileState>, vals: seq<int>, i: int): (r: seq<TileState>)
    requires |vals| == |row|
    ensures |r| == |row|
  {
    seq(|row|, k requires 0 <= k < |row| => if k < i then row[k].(value := vals[k]) else row[k])
  }

  lemma {:induction false} RowRoundTripFrom(row: seq<TileState>, vals: seq<int>, i: nat)
    requires |vals| == |row| && i <= |row|
    requires SingleDigits(vals)
    requires forall k :: 0 <= k < |row| ==> vals[k] <= row[k].max
    ensures ApplyRowFrom(Assigned(row, vals, i), RenderRow(vals), i) == (Assigned(row, vals, |row|), None)
    decreases |row| - i
  {
    RenderRowDigits(vals);
    var s := RenderRow(vals);
    if i < |row| {
      var cur := Assigned(row, vals, i);
      assert s[i] == Digit(vals[i]) != '/';
      assert CellValue(s[i]) == vals[i];
      assert cur[i := cur[i].(value := vals[i])] == Assigned(row, vals, i + 1);
      RowRoundTripFrom(row, vals, i + 1);
    } else {
      assert Assigned(row, vals, i) == Assigned(row, vals, |row|);
    }
  }

  /** Feeding a printed line back through AddRow restores the values (values 0..9 that fit the
      tiles' maximum); the blocked flags and candidates of the receiving row are left as they were. */
  lemma RowRoundTrip(row: seq<TileState>, vals: seq<int>)
    requires |vals| == |row|
    requires SingleDigits(vals)
    requires forall k :: 0 <= k < |row| ==> vals[k] <= row[k].max
    ensures var (r, err) := ApplyRowFrom(row, RenderRow(vals), 0);
      && err == None
      && forall k :: 0 <= k < |row| ==> r[k] == row[k].(value := vals[k])
  {
    assert Assigned(row, vals, 0) == row;
    RowRoundTripFrom(row, vals, 0);
  }
}
