/**
 * The iterators over the older nested map.  `next` bumps `x` and pulls a
 * column only while no column iterator is held; once the first column has
 * been pulled it is held for good, so the iterators visit the cells of
 * column 0 only, labelled `x = 1`, and then answer None forever.
 */
module MapIters {
  import opened Base
  import opened NestedMaps

  /** `u32::saturating_add`. */
  function SaturatingAdd(a: u32, b: u32): (r: u32)
    ensures r == if a + b > U32_MAX then U32_MAX else a + b
  {
    if a + b > 0xFFFF_FFFF then 0xFFFF_FFFF else a + b
  }

  /** An inner column iterator: the column it walks and its position in it. */
  datatype Cursor = Cursor(column: nat, pos: nat)

  /** One item of the iteration: the labels it reports and the cell it refers to. */
  datatype Visit = Visit(x: u32, y: u32, column: nat, row: nat)

  /** The height of the first column, or 0 for a map with no columns. */
  function FirstHeight(data: seq<seq<Block>>): nat {
    if |data| == 0 then 0 else |data[0]|
  }

  /**
   * The items a fresh iterator yields, in order, over a map of `width`
   * columns whose first column holds `height` cells: every cell of column 0,
   * labelled `x = 1` and `y` its row, and nothing of any other column.
   */
  function Visits(width: nat, height: nat): (vs: seq<Visit>)
    requires height <= U32_MAX
  {
    if width == 0 then [] else seq(height, k requires 0 <= k < height => Visit(1, k, 0, k))
  }

  /** `size_hint`: no lower bound, and `u32::MAX * u32::MAX` as the upper bound. */
  function SizeHint(): (hint: (nat, Option<nat>))
    ensures hint.0 == 0 && hint.1.Some?
    ensures hint.1.value == U32_MAX * U32_MAX
  {
    (0, Some(0xFFFF_FFFF * 0xFFFF_FFFF))
  }

  /** The iteration reports row `k` of column 0 as `(1, k)` and nothing else. */
  lemma VisitsAreFirstColumn(width: nat, height: nat, k: nat)
    requires height <= U32_MAX
    ensures |Visits(width, height)| == if width == 0 then 0 else height
    ensures k < |Visits(width, height)| ==> Visits(width, height)[k] == Visit(1, k, 0, k)
    ensures forall v :: v in Visits(width, height) ==> v.column == 0 && v.x == 1
  {
  }

  /** With two or more non-empty columns, some cells are never reached. */
  lemma VisitsMissCells(width: nat, height: nat)
    requires height <= U32_MAX && width >= 2 && height >= 1
    ensures |Visits(width, height)| < width * height
  {
    assert width * height >= 2 * height;
  }

  /** The size hint is sound: it never promises fewer items than are left. */
  lemma SizeHintSound(width: nat, height: nat, count: nat)
    requires height <= U32_MAX && count <= |Visits(width, height)|
    ensures SizeHint().0 <= |Visits(width, height)| - count <= SizeHint().1.value
  {
    assert height <= U32_MAX * U32_MAX;
  }

  /** `MapIter`: read-only iteration over a map, yielding `(x, y, cell)`. */
  class MapIter {
    const data: seq<seq<Block>>
    var x: u32
    var y: u32
    /** How many columns the outer iterator has handed out. */
    var rows: nat
    var columns: Option<Cursor>
    /** How many items have been yielded. */
    ghost var count: nat

    ghost predicate Valid()
      reads this
    {
      FirstHeight(data) <= U32_MAX &&
      match columns
      case None => rows == 0 && y == 0 && count == 0 && (x == 0 || |data| == 0)
      case Some(cursor) =>
        rows == 1 && |data| >= 1 && x == 1 && cursor.column == 0 && cursor.pos <= |data[0]| &&
        count == cursor.pos && cursor.pos <= y && (cursor.pos < |data[0]| ==> y == cursor.pos)
    }

    /** `MapIter::new`. */
    constructor(m: Map)
      requires m.Valid()
      ensures data == m.data
      ensures Valid() && count == 0
    {
      data := m.data;
      x := 0x0;
      y := 0x0;
      rows := 0;
      columns := None;
      count := 0;
    }

    /** `next`: the next item of `Visits`, with its cell; None once they are used up. */
    method Next() returns (r: Option<(u32, u32, Block)>)
      requires Valid()
      modifies this
      ensures Valid()
      ensures old(count) < |Visits(|data|, FirstHeight(data))| ==> count == old(count) + 1
      ensures old(count) < |Visits(|data|, FirstHeight(data))| ==>
        var v := Visits(|data|, FirstHeight(data))[old(count)];
        r == Some((v.x, v.y, data[v.column][v.row]))
      ensures old(count) >= |Visits(|data|, FirstHeight(data))| ==> count == old(count) && r.None?
    {
      if columns.None? {
        x := SaturatingAdd(x, 0x1);
        y := 0x0;
        if rows < |data| {
          columns := Some(Cursor(rows, 0));
          rows := rows + 1;
        }
      }
      match columns {
        case Some(cursor) =>
          var x0, y0 := x, y;
          y := SaturatingAdd(y, 0x1);
          if cursor.pos < |data[cursor.column]| {
            columns := Some(Cursor(cursor.column, cursor.pos + 1));
            count := count + 1;
            r := Some((x0, y0, data[cursor.column][cursor.pos]));
          } else {
            r := None;
          }
        case None =>
          r := None;
      }
    }
  }

  /**
   * `MapIterMut`: iteration over a map, yielding `(x, y, reference to the
   * cell)`.  The map is borrowed for as long as the iterator lives, so only
   * its cells can change, never its shape: the iterator keeps the number of
   * columns and the height of the first one.
   */
  class MapIterMut {
    const width: nat
    const firstHeight: nat
    var x: u32
    var y: u32
    var rows: nat
    var columns: Option<Cursor>
    ghost var count: nat

    ghost predicate Valid()
      reads this
    {
      firstHeight <= U32_MAX && (width == 0 ==> firstHeight == 0) &&
      match columns
      case None => rows == 0 && y == 0 && count == 0 && (x == 0 || width == 0)
      case Some(cursor) =>
        rows == 1 && width >= 1 && x == 1 && cursor.column == 0 && cursor.pos <= firstHeight &&
        count == cursor.pos && cursor.pos <= y && (cursor.pos < firstHeight ==> y == cursor.pos)
    }

    /** `MapIterMut::new`. */
    constructor(m: Map)
      requires m.Valid()
      ensures width == |m.data| && firstHeight == FirstHeight(m.data)
      ensures Valid() && count == 0
    {
      width := |m.data|;
      firstHeight := FirstHeight(m.data);
      x := 0x0;
      y := 0x0;
      rows := 0;
      columns := None;
      count := 0;
    }

    /** `next`: the next item of `Visits`, with a reference to its cell; None once they are used up. */
    method Next() returns (r: Option<(u32, u32, CellRef)>)
      requires Valid()
      modifies this
      ensures Valid()
      ensures old(count) < |Visits(width, firstHeight)| ==> count == old(count) + 1
      ensures old(count) < |Visits(width, firstHeight)| ==>
        var v := Visits(width, firstHeight)[old(count)];
        r == Some((v.x, v.y, CellRef(v.column, v.row)))
      ensures old(count) >= |Visits(width, firstHeight)| ==> count == old(count) && r.None?
    {
      if columns.None? {
        x := SaturatingAdd(x, 0x1);
        y := 0x0;
        if rows < width {
          columns := Some(Cursor(rows, 0));
          rows := rows + 1;
        }
      }
      match columns {
        case Some(cursor) =>
          var x0, y0 := x, y;
          y := SaturatingAdd(y, 0x1);
          if cursor.pos < firstHeight {
            columns := Some(Cursor(cursor.column, cursor.pos + 1));
            count := count + 1;
            r := Some((x0, y0, CellRef(cursor.column, cursor.pos)));
          } else {
            r := None;
          }
        case None =>
          r := None;
      }
    }
  }
}
