/**
 * Overlapping pairs of vertically adjacent tiles in one column.  A window is
 * the pair of buffer indices `(y, y + 1)`; the pointer and length walk the
 * column one tile at a time.
 */
module ColumnWindows {
  import opened Base
  import opened Blocks
  import opened FlatMap
  import opened ColumnsMutIter

  class ColumnWindowsMut {
    const data: array<Block>
    var len: nat
    var ptr: nat
    /** The column being walked, as buffer indices. */
    ghost const column: Slice

    /** The pointer and the length always describe the rest of the column, never empty. */
    ghost predicate Valid()
      reads this
    {
      len >= 1
      && column.start <= ptr && ptr + len == column.end
      && column.end <= data.Length
    }

    constructor Over(data: array<Block>, column: Slice)
      requires 1 <= column.end - column.start && column.end <= data.Length
      ensures Valid()
      ensures this.data == data && this.column == column
      ensures ptr == column.start && len == column.end - column.start
    {
      this.data := data;
      this.column := column;
      ptr := column.start;
      len := column.end - column.start;
    }

    /** `next`: None exactly when one tile is left; otherwise the window at the pointer, which then moves up one tile. */
    method Next() returns (r: Option<(nat, nat)>)
      requires Valid()
      modifies this
      ensures Valid()
      ensures r.None? <==> old(len) == 1
      ensures r.None? ==> len == old(len) && ptr == old(ptr)
      ensures r.Some? ==> r.value == (old(ptr), old(ptr) + 1)
      ensures r.Some? ==> ptr == old(ptr) + 1 && len == old(len) - 1
    {
      if IsEmpty() {
        return None;
      }
      var window := (ptr, ptr + 1);
      ptr := ptr + 1;
      len := len - 1;
      return Some(window);
    }

    function Len(): (n: nat)
      reads this
      requires Valid()
      ensures n == column.end - ptr
    {
      len
    }

    /** The iterator is spent with one tile, not zero, left. */
    function IsEmpty(): (b: bool)
      reads this
      requires Valid()
      ensures b <==> ptr + 1 == column.end
    {
      Len() == 1
    }
  }

  /**
   * `ColumnWindowsMut::new`: pulls the next column from the column iterator
   * and walks it from its bottom tile; None when no column is left.
   */
  method New(columns: ColumnsMut) returns (r: Option<ColumnWindowsMut>)
    requires columns.Valid()
    modifies columns
    ensures columns.Valid() && columns.height == old(columns.height)
    ensures r.None? <==> old(columns.len) == 0
    ensures r.None? ==> columns.len == 0 && columns.yielded == old(columns.yielded)
    ensures r.None? ==> columns.data.Length < columns.ptr + columns.height as nat
    ensures r.Some? ==> columns.len == old(columns.len) - 1 && columns.yielded == old(columns.yielded) + 1
    ensures r.Some? ==> columns.ptr == old(columns.ptr) + columns.height as nat
    ensures r.Some? ==> fresh(r.value) && r.value.Valid() && r.value.data == columns.data
    ensures r.Some? ==> r.value.column == ColumnSlice(old(columns.yielded), columns.height) == Slice(old(columns.ptr), columns.ptr)
    ensures r.Some? ==> r.value.ptr == r.value.column.start && r.value.len == columns.height as nat
  {
    var column := columns.Next();
    if column.None? {
      return None;
    }
    var windows := new ColumnWindowsMut.Over(columns.data, column.value);
    return Some(windows);
  }
}
