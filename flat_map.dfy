/**
 * The current map: one flat, column-major buffer of tiles plus the column
 * height, so the tile at column `x`, row `y` sits at index `x * height + y`.
 */
module FlatMap {
  import opened Base
  import opened Blocks
  import MapSizes

  class Map {
    var height: u32
    var data: array<Block>

    /** The height is always a non-zero even number and the buffer length fits a u32. */
    predicate Valid()
      reads this
    {
      height > 0 && height % 2 == 0 && data.Length <= U32_MAX
    }

    /** The buffer holds a whole, admissible number of columns. */
    predicate Consistent()
      reads this
      requires Valid()
    {
      data.Length % height == 0 && MapSizes.Admissible(Width(), height)
    }

    /** `Map::new`: `size.product()` default tiles and the requested height. */
    constructor (size: MapSizes.MapSize)
      ensures Valid() && Consistent()
      ensures height == MapSizes.Height(size) && data.Length == MapSizes.Product(size)
      ensures forall i :: 0 <= i < data.Length ==> data[i] == Blocks.Default()
      ensures Size() == size
      ensures fresh(data)
    {
      height := MapSizes.Height(size);
      data := new Block[MapSizes.Product(size)](_ => Blocks.Default());
    }

    /** `Map::default`: a map of the default size. */
    constructor Default()
      ensures Valid() && Consistent()
      ensures Size() == MapSizes.Default()
      ensures forall i :: 0 <= i < data.Length ==> data[i] == Blocks.Default()
      ensures fresh(data)
    {
      var size := MapSizes.Default();
      height := MapSizes.Height(size);
      data := new Block[MapSizes.Product(size)](_ => Blocks.Default());
    }

    /**
     * `Map::resize`: the buffer is emptied and refilled with `size.product()`
     * default tiles.  The `height` field is never assigned, so the width is
     * afterwards derived from the old height.
     */
    method Resize(size: MapSizes.MapSize)
      requires Valid()
      modifies this
      ensures Valid()
      ensures height == old(height)
      ensures data.Length == MapSizes.Product(size)
      ensures forall i :: 0 <= i < data.Length ==> data[i] == Blocks.Default()
      ensures Width() == MapSizes.Product(size) / old(height)
      ensures fresh(data)
    {
      data := new Block[MapSizes.Product(size)](_ => Blocks.Default());
    }

    function Height(): (h: u32)
      reads this
      requires Valid()
      ensures h > 0 && h % 2 == 0
    {
      height
    }

    /** The number of whole columns in the buffer. */
    function Width(): (w: u32)
      reads this
      requires Valid()
      ensures w * height <= data.Length < (w + 1) * height
    {
      data.Length / height
    }

    /** `Map::size`; `new_unchecked` demands an even, non-zero width. */
    function Size(): (s: MapSizes.MapSize)
      reads this
      requires Valid()
      requires Width() % 2 == 0 && Width() > 0
      ensures MapSizes.Get(s) == (Width(), Height())
    {
      MapSizes.NewUnchecked(Width(), height)
    }

    /**
     * `Map::sample`: both coordinates must lie strictly inside the map, and
     * are then truncated to the cell they fall in; a cell past the buffer is
     * reported as absent.
     */
    function Sample(x: real, y: real): (r: Option<Block>)
      reads this, data
      requires Valid()
      ensures x <= 0.0 || x >= Width() as real || y <= 0.0 || y >= height as real ==> r.None?
      ensures r.Some? ==> 0 <= x.Floor && 0 <= y.Floor && CellIndex(x.Floor, y.Floor, height) < data.Length
      ensures r.Some? ==> r.value == data[CellIndex(x.Floor, y.Floor, height)]
    {
      if x <= 0.0 || x >= Width() as real then None
      else if y <= 0.0 || y >= height as real then None
      else
        var column: nat := x.Floor;
        var row: nat := y.Floor;
        var index := CellIndex(column, row, height);
        if index < data.Length then Some(data[index]) else None
    }
  }

  /** Strictly inside the map, `sample` reads the cell in column-major order. */
  lemma SampleColumnMajor(m: Map, x: real, y: real)
    requires m.Valid()
    requires 0.0 < x < m.Width() as real && 0.0 < y < m.height as real
    ensures 0 <= x.Floor < m.Width() && 0 <= y.Floor < m.height
    ensures CellIndex(x.Floor, y.Floor, m.height) < m.data.Length
    ensures m.Sample(x, y) == Some(m.data[CellIndex(x.Floor, y.Floor, m.height)])
  {
    CellIndexInRange(x.Floor, y.Floor, m.Width(), m.height);
  }

  /** Points in the open unit square sample the first tile of column 0. */
  lemma SampleReachesColumnZero(m: Map, x: real, y: real)
    requires m.Valid() && m.Width() > 0
    requires 0.0 < x < 1.0 && 0.0 < y < 1.0
    ensures m.Sample(x, y) == Some(m.data[0])
  {
    SampleColumnMajor(m, x, y);
  }

  /** The buffer index of column `x`, row `y`. */
  function CellIndex(x: nat, y: nat, height: nat): nat {
    x * height + y
  }

  lemma CellIndexInRange(x: nat, y: nat, width: nat, height: nat)
    requires x < width && y < height
    ensures CellIndex(x, y, height) < width * height
  {
    assert x * height <= (width - 1) * height;
  }

  /** Column `x`, row `y` is recovered from its buffer index. */
  lemma CellIndexInverse(x: nat, y: nat, height: nat)
    requires y < height
    ensures CellIndex(x, y, height) / height == x && CellIndex(x, y, height) % height == y
  {
    var i := CellIndex(x, y, height);
    var q, r := i / height, i % height;
    assert height * q + r == height * x + y;
    assert q - x >= 1 ==> height * (q - x) >= height;
    assert q - x <= -1 ==> height * (q - x) <= 0 - height as int;
  }

  /**
   * After `resize`, `size()` equals the requested size exactly when the old
   * height already matched it.
   */
  lemma ResizeRestoresSizeIffSameHeight(oldHeight: u32, size: MapSizes.MapSize)
    requires oldHeight > 0
    ensures (MapSizes.Product(size) / oldHeight == MapSizes.Width(size) && oldHeight == MapSizes.Height(size))
        <==> oldHeight == MapSizes.Height(size)
  {
  }

  /** A column of the buffer as the index range `[start, end)`. */
  datatype Slice = Slice(start: nat, end: nat)

  /** Column `k` of a buffer whose columns are `height` tiles tall. */
  function ColumnSlice(k: nat, height: nat): (s: Slice)
    ensures s.start == CellIndex(k, 0, height) && s.end == s.start + height
  {
    Slice(k * height, k * height + height)
  }

  /** Different columns never share a tile. */
  lemma ColumnSlicesDisjoint(j: nat, k: nat, height: nat)
    requires j < k
    ensures ColumnSlice(j, height).end <= ColumnSlice(k, height).start
  {
    var d: nat := k - j - 1;
    var gap: nat := d * height;
    assert k * height == j * height + height + gap by {
      assert k == j + 1 + d;
    }
  }

  /** Buffer index `i` lies in column `i / height`, at row `i % height`. */
  lemma ColumnOfIndex(i: nat, height: nat)
    requires height > 0
    ensures ColumnSlice(i / height, height).start <= i < ColumnSlice(i / height, height).end
    ensures i == CellIndex(i / height, i % height, height)
  {
  }

  /** Column `k` of `total` lies within a buffer holding `total` columns. */
  lemma ColumnFits(k: nat, total: nat, height: nat)
    requires k < total
    ensures (k + 1) * height <= total * height
    ensures k * height + height == (k + 1) * height
  {
    var rest: nat := (total - k - 1) * height;
    assert total * height == (k + 1) * height + rest by {
      assert total == k + 1 + (total - k - 1);
    }
  }
}
