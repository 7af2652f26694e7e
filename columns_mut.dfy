/**
 * The mutable column iterator over the flat map.  The raw pointer of the
 * iterator is the pair of the map's buffer and an offset into it; each column
 * handed out is an index range of that buffer.
 */
module ColumnsMutIter {
  import opened Base
  import opened Blocks
  import opened FlatMap

  class ColumnsMut {
    /** The buffer the pointer walks over. */
    const data: array<Block>
    var height: u32
    var len: u32
    var ptr: nat
    /** Number of columns handed out so far, and at construction the width. */
    ghost var yielded: nat
    ghost const total: nat

    /** The pointer stays at a column boundary and the remaining columns fit the buffer. */
    ghost predicate Valid()
      reads this
    {
      height > 0 && height % 2 == 0
      && ptr == yielded * height <= data.Length
      && yielded + len == total
      && total * height <= data.Length < (total + 1) * height
    }

    /** `ColumnsMut::new`: the map's height and width, starting at the buffer's head. */
    constructor (m: Map)
      requires m.Valid()
      ensures Valid()
      ensures data == m.data && height == m.height && len == m.Width() && ptr == 0
      ensures yielded == 0 && total == m.Width()
    {
      data := m.data;
      height := m.Height();
      len := m.Width();
      ptr := 0;
      yielded := 0;
      total := m.Width() as nat;
    }

    /**
     * `Iterator::next`: None once all columns have been handed out (and on every
     * later call); otherwise the next column, a slice `height` tiles long.
     */
    method Next() returns (r: Option<Slice>)
      requires Valid()
      modifies this
      ensures Valid() && height == old(height)
      ensures r.None? <==> old(len) == 0
      ensures r.None? ==> len == 0 && ptr == old(ptr) && yielded == old(yielded)
      ensures r.None? ==> data.Length < ptr + height as nat
      ensures r.Some? ==> r.value == ColumnSlice(old(yielded), height) == Slice(old(ptr), ptr)
      ensures r.Some? ==> len == old(len) - 1 && yielded == old(yielded) + 1 && ptr == old(ptr) + height as nat
      ensures r.Some? ==> r.value.end <= data.Length
    {
      if len == 0 {
        assert (total + 1) * height as nat == total * height as nat + height as nat;
        return None;
      }
      var column := Slice(ptr, ptr + height as nat);
      ColumnFits(yielded, total, height as nat);
      ptr := ptr + height as nat;
      len := len - 1;
      yielded := yielded + 1;
      return Some(column);
    }
  }
}
