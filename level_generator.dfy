/**
 * The older level generator: a fixed terrain height and ground block,
 * written over a fresh nested map by walking it with the mutable iterator.
 * Since that iterator only reaches column 0, only column 0 is shaped.
 */
module LevelGenerators {
  import opened Base
  import opened NestedMaps
  import opened MapIters

  datatype LevelGenerator = LevelGenerator(terrainHeight: u32, ground: Block)

  /** `LevelGenerator::FIELD`: 0x30 rows of dirt. */
  const FIELD: LevelGenerator := LevelGenerator(0x30, Dirt)

  /** `Default`: `FIELD`. */
  function Default(): (g: LevelGenerator)
    ensures g.terrainHeight == 0x30 && g.ground == Dirt
  {
    FIELD
  }

  /**
   * The loop body applied to one yielded cell: the row labelled
   * `height - 1` becomes Bedrock, otherwise a row labelled below the
   * terrain height becomes ground, otherwise the cell keeps its block.
   */
  function Shape(gen: LevelGenerator, height: u32, data: seq<seq<Block>>, v: Visit): seq<seq<Block>>
    requires height > 0
    requires v.column < |data| && v.row < |data[v.column]|
  {
    if v.y == height - 1 then Written(data, CellRef(v.column, v.row), Bedrock)
    else if v.y < gen.terrainHeight then Written(data, CellRef(v.column, v.row), gen.ground)
    else data
  }

  /** The loop body applied to each of the visits in turn; the shape of the map never changes. */
  function ShapeAll(gen: LevelGenerator, height: u32, data: seq<seq<Block>>, vs: seq<Visit>): (r: seq<seq<Block>>)
    requires height > 0
    requires forall k :: 0 <= k < |vs| ==> vs[k].column < |data| && vs[k].row < |data[vs[k].column]|
    ensures |r| == |data|
    ensures forall x :: 0 <= x < |data| ==> |r[x]| == |data[x]|
  {
    if |vs| == 0 then data
    else Shape(gen, height, ShapeAll(gen, height, data, vs[..|vs| - 1]), vs[|vs| - 1])
  }

  /** The block a generated map holds in row `y` of column 0. */
  function Terrain(gen: LevelGenerator, height: u32, y: int): Block
    requires height > 0
  {
    if y == height - 1 then Bedrock else if y < gen.terrainHeight then gen.ground else Air
  }

  /** The map after the first `c` rows of column 0 have been shaped, every other cell Air. */
  function Partial(gen: LevelGenerator, width: u32, height: u32, c: nat): (data: seq<seq<Block>>)
    requires height > 0
  {
    seq(width, x => seq(height, y => if x == 0 && y < c then Terrain(gen, height, y) else Air))
  }

  /**
   * What `generate` produces, in closed form: column 0 holds Bedrock in its
   * top row, ground below the terrain height and Air between; every other
   * column is all Air.
   */
  function Generated(gen: LevelGenerator, width: u32, height: u32): seq<seq<Block>>
    requires height > 0
  {
    Partial(gen, width, height, height)
  }

  /**
   * Shaping the first `c` visits of a fresh map gives `Partial(c)`: the
   * iteration's effect, in closed form.
   */
  lemma {:induction false} ShapeAllPartial(gen: LevelGenerator, width: u32, height: u32, c: nat)
    requires width > 0 && height > 0 && c <= height
    ensures forall k :: 0 <= k < c ==> Visits(width, height)[..c][k].column < width && Visits(width, height)[..c][k].row < height
    ensures ShapeAll(gen, height, Filled(width, height), Visits(width, height)[..c]) == Partial(gen, width, height, c)
  {
    var vs := Visits(width, height)[..c];
    if c > 0 {
      ShapeAllPartial(gen, width, height, c - 1);
      assert vs[..c - 1] == Visits(width, height)[..c - 1];
      var before := Partial(gen, width, height, c - 1);
      assert vs[c - 1] == Visit(1, c - 1, 0, c - 1);
      ShapeStep(gen, width, height, c - 1);
    } else {
      forall x | 0 <= x < width
        ensures Partial(gen, width, height, 0)[x] == Filled(width, height)[x]
      {
      }
    }
  }

  /** Shaping row `c` of column 0 of `Partial(c)` gives `Partial(c + 1)`. */
  lemma ShapeStep(gen: LevelGenerator, width: u32, height: u32, c: nat)
    requires width > 0 && height > 0 && c < height
    ensures Shape(gen, height, Partial(gen, width, height, c), Visit(1, c, 0, c)) == Partial(gen, width, height, c + 1)
  {
    var before := Partial(gen, width, height, c);
    var after := Shape(gen, height, before, Visit(1, c, 0, c));
    assert |after| == width;
    forall x | 0 <= x < width
      ensures after[x] == Partial(gen, width, height, c + 1)[x]
    {
      if x == 0 {
        assert after[0] == before[0][c := Terrain(gen, height, c)];
      }
    }
  }

  /** Only column 0 is shaped; its top row is always Bedrock, and no other column leaves Air. */
  lemma GeneratedShape(gen: LevelGenerator, width: u32, height: u32, x: nat, y: nat)
    requires height > 0 && x < width && y < height
    ensures Generated(gen, width, height)[x][y] == if x == 0 then Terrain(gen, height, y) else Air
    ensures x == 0 && y == height - 1 ==> Generated(gen, width, height)[x][y] == Bedrock
  {
  }

  /**
   * `LevelGenerator::generate`: a fresh `width` by `height` map, then every
   * cell the mutable iterator yields is shaped by its `y` label.  The source
   * asserts that both sizes are non-zero.
   */
  method Generate(gen: LevelGenerator, width: u32, height: u32) returns (m: Map)
    requires width > 0 && height > 0
    ensures fresh(m) && m.Valid()
    ensures m.data == ShapeAll(gen, height, Filled(width, height), Visits(width, height))
    ensures m.data == Generated(gen, width, height)
  {
    m := new Map(width, height);
    var cells := new MapIterMut(m);
    ghost var vs := Visits(width, height);
    ShapeAllPartial(gen, width, height, 0);
    var done := false;
    while !done
      invariant cells.Valid() && cells.width == width as nat && cells.firstHeight == height as nat
      invariant cells.count <= height as nat
      invariant done ==> cells.count == height as nat
      invariant m.data == Partial(gen, width, height, cells.count)
      decreases height as nat - cells.count, !done
    {
      done := ShapeNextCell(gen, width, height, m, cells);
    }
    ShapeAllPartial(gen, width, height, height as nat);
    assert vs[..height] == vs;
    assert m.Valid();
  }

  /**
   * One turn of `generate`'s loop: take the next item from the iterator and
   * write the cell it refers to; `done` when the iterator is used up.
   */
  method ShapeNextCell(gen: LevelGenerator, width: u32, height: u32, m: Map, cells: MapIterMut) returns (done: bool)
    requires width > 0 && height > 0
    requires cells.Valid() && cells.width == width as nat && cells.firstHeight == height as nat
    requires cells.count <= height as nat
    requires m.data == Partial(gen, width, height, cells.count)
    modifies m, cells
    ensures cells.Valid() && cells.width == width as nat && cells.firstHeight == height as nat
    ensures cells.count <= height as nat
    ensures m.data == Partial(gen, width, height, cells.count)
    ensures done ==> cells.count == height as nat
    ensures !done ==> cells.count == old(cells.count) + 1
  {
    var item := cells.Next();
    if item.None? {
      return true;
    }
    var (_, y, cell) := item.value;
    if y == height - 0x1 {
      m.Store(cell, Bedrock);
    } else if y < gen.terrainHeight {
      m.Store(cell, gen.ground);
    }
    ShapeStep(gen, width, height, cells.count - 1);
    return false;
  }
}
