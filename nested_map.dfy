/**
 * The older map: a box of columns, each a box of blocks, addressed as
 * `data[x][y]`, with its own plain block enum.
 */
module NestedMaps {
  import opened Base

  /** The older block: a bare material, Air by default. */
  datatype Block = Air | Bedrock | Stone | Dirt | Sand

  /** A mutable reference to one cell, as the column and row it points into. */
  datatype CellRef = CellRef(x: nat, y: nat)

  /** `width` columns of `height` default blocks each. */
  function Filled(width: nat, height: nat): (data: seq<seq<Block>>)
    ensures |data| == width
    ensures forall x :: 0 <= x < width ==> |data[x]| == height
    ensures forall x, y :: 0 <= x < width && 0 <= y < height ==> data[x][y] == Air
  {
    seq(width, _ => seq(height, _ => Air))
  }

  /** The cell at `(x, y)`, if both indices are in range. */
  function Lookup(data: seq<seq<Block>>, x: nat, y: nat): (r: Option<Block>)
    ensures r.Some? <==> x < |data| && y < |data[x]|
    ensures r.Some? ==> r.value == data[x][y]
  {
    if x < |data| && y < |data[x]| then Some(data[x][y]) else None
  }

  /** The cells after one cell is overwritten. */
  function Written(data: seq<seq<Block>>, cell: CellRef, b: Block): seq<seq<Block>>
    requires cell.x < |data| && cell.y < |data[cell.x]|
  {
    data[cell.x := data[cell.x][cell.y := b]]
  }

  /** Overwriting a cell changes that cell and no other, and keeps the shape. */
  lemma LookupWritten(data: seq<seq<Block>>, cell: CellRef, b: Block, x: nat, y: nat)
    requires cell.x < |data| && cell.y < |data[cell.x]|
    ensures |Written(data, cell, b)| == |data|
    ensures forall i :: 0 <= i < |data| ==> |Written(data, cell, b)[i]| == |data[i]|
    ensures Lookup(Written(data, cell, b), x, y) == if x == cell.x && y == cell.y then Some(b) else Lookup(data, x, y)
  {
  }

  class Map {
    var data: seq<seq<Block>>

    /** Every column is addressable with a `u32` row. */
    ghost predicate Valid()
      reads this
    {
      forall x :: 0 <= x < |data| ==> |data[x]| <= U32_MAX
    }

    /** `Map::new`: `width` columns, each of `height` default blocks. */
    constructor(width: u32, height: u32)
      ensures Valid()
      ensures data == Filled(width, height)
    {
      data := Filled(width, height);
    }

    /** `get`: the cell, or None when either index is out of range. */
    function Get(x: u32, y: u32): (r: Option<Block>)
      reads this
      ensures r == Lookup(data, x, y)
    {
      if x < |data| && y < |data[x]| then Some(data[x][y]) else None
    }

    /** `get_mut`: a reference to the cell, or None when either index is out of range. */
    function GetMut(x: u32, y: u32): (r: Option<CellRef>)
      reads this
      ensures r.Some? <==> Lookup(data, x, y).Some?
      ensures r.Some? ==> r.value == CellRef(x, y)
    {
      if x < |data| && y < |data[x]| then Some(CellRef(x, y)) else None
    }

    /** `Index`: the cell; out of range the source panics. */
    function Index(x: u32, y: u32): (b: Block)
      reads this
      requires x < |data| && y < |data[x]|
      ensures Get(x, y) == Some(b)
    {
      data[x][y]
    }

    /** `IndexMut`: a reference to the cell; out of range the source panics. */
    function IndexMut(x: u32, y: u32): (r: CellRef)
      reads this
      requires x < |data| && y < |data[x]|
      ensures GetMut(x, y) == Some(r)
    {
      CellRef(x, y)
    }

    /** `*cell = b` through a reference from `get_mut`, `index_mut` or the mutable iterator. */
    method Store(cell: CellRef, b: Block)
      requires cell.x < |data| && cell.y < |data[cell.x]|
      modifies this
      ensures data == Written(old(data), cell, b)
    {
      data := data[cell.x := data[cell.x][cell.y := b]];
    }
  }

  /** A freshly built map answers every in-range lookup with Air and every other with None. */
  lemma LookupFilled(width: nat, height: nat, x: nat, y: nat)
    ensures Lookup(Filled(width, height), x, y) == if x < width && y < height then Some(Air) else None
  {
  }
}
