/** The read-only column iterator over the flat map. */
module ColumnsIter {
  import opened Base
  import opened Blocks
  import opened FlatMap

  class Columns {
    const data: array<Block>
    var height: u32
    var len: u32
    var ptr: nat
    ghost var yielded: nat
    ghost const total: nat

    ghost predicate Valid()
      reads this
    {
      height > 0 && height % 2 == 0
      && ptr == yielded * height
      && yielded + len == total
      && total * height <= data.Length
    }

    /** `Columns::new`: the map's height and width, starting at the buffer's head. */
    constructor (m: Map)
      requires m.Valid()
      ensures Valid()
      ensures data == m.data && height == m.height && len == m.Width() && ptr == 0
      ensures yielded == 0 && total == m.Width()
    {
      data := m.data;
      height := m.Height();
      len := m.Width();
      ptr := 0;
      yielded := 0;
      total := m.Width() as nat;
    }

    /** `Iterator::next`: the next column, or None (for good) once none remain. */
    method Next() returns (r: Option<Slice>)
      requires Valid()
      modifies this
      ensures Valid() && height == old(height)
      ensures r.None? <==> old(len) == 0
      ensures r.None? ==> len == 0 && ptr == old(ptr) && yielded == old(yielded)
      ensures r.Some? ==> r.value == ColumnSlice(old(yielded), height)
      ensures r.Some? ==> len == old(len) - 1 && yielded == old(yielded) + 1
      ensures r.Some? ==> r.value.end <= data.Length
    {
      if len == 0 {
        return None;
      }
      var column := Slice(ptr, ptr + height as nat);
      ColumnFits(yielded, total, height as nat);
      ptr := ptr + height as nat;
      len := len - 1;
      yielded := yielded + 1;
      return Some(column);
    }

    /** The derived `Clone`: a fresh iterator at the same position, advanced independently. */
    method Clone() returns (c: Columns)
      requires Valid()
      ensures fresh(c) && c.Valid()
      ensures c.data == data && c.height == height && c.len == len && c.ptr == ptr
      ensures c.yielded == yielded && c.total == total
    {
      c := new Columns.Copy(this);
    }

    constructor Copy(other: Columns)
      requires other.Valid()
      ensures Valid()
      ensures data == other.data && height == other.height && len == other.len && ptr == other.ptr
      ensures yielded == other.yielded && total == other.total
    {
      data := other.data;
      height := other.height;
      len := other.len;
      ptr := other.ptr;
      yielded := other.yielded;
      total := other.total;
    }
  }

  /** The contents of columns `k` to `width - 1`, one after the other. */
  function Concat(s: seq<Block>, height: nat, k: nat, width: nat): seq<Block>
    requires k <= width && width * height <= |s|
    decreases width - k
  {
    if k == width then []
    else
      ColumnFits(k, width, height);
      s[ColumnSlice(k, height).start..ColumnSlice(k, height).end] + Concat(s, height, k + 1, width)
  }

  /** The columns, taken in order, cover the buffer's first `width * height` tiles. */
  lemma {:induction false} ColumnsCoverInOrder(s: seq<Block>, height: nat, k: nat, width: nat)
    requires k <= width && width * height <= |s|
    ensures k * height <= width * height
    ensures Concat(s, height, k, width) == s[k * height..width * height]
    decreases width - k
  {
    if k < width {
      ColumnFits(k, width, height);
      ColumnsCoverInOrder(s, height, k + 1, width);
      var a, b, c := k * height, (k + 1) * height, width * height;
      assert s[a..b] + s[b..c] == s[a..c];
    }
  }
}
