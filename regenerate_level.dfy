/**
 * Level generation: the map is resized, every tile gets a rolled seed, the
 * level's chunks are laid out across the columns and each chunk's layers up
 * its column, and finally the bottom tile of every column becomes Bedrock.
 *
 * The seeds are an explicit input: `seeds(k)` is the seed rolled for the k-th
 * tile visited, which is the tile at buffer index `k`.
 */
module RegenerateLevel {
  import opened Base
  import opened Materials
  import opened Seeds
  import opened Blocks
  import MapSizes
  import opened FlatMap
  import opened ColumnsMutIter
  import opened AppLevels

  // ---------------------------------------------------------------------------
  // Segments

  /**
   * What a `SegmentTracker` walks through: a list of segments, the size of
   * each as a fraction (`Segment::size` of `items[k]` is `sizes[k]`), and the
   * total the fractions apply to.
   */
  datatype Segments<T> = Segments(items: seq<T>, sizes: seq<real>, total: nat)

  /** Every size lies in [0, 1], which the tracker asserts of each segment it pulls. */
  predicate Sized<T>(g: Segments<T>) {
    |g.sizes| == |g.items| && forall k :: 0 <= k < |g.sizes| ==> 0.0 <= g.sizes[k] <= 1.0
  }

  /** `(total_size * segment.size()) as u32`: the number of coordinates the segment is given. */
  function Width<T>(g: Segments<T>, k: nat): (w: nat)
    requires Sized(g) && k < |g.items|
    ensures w <= g.total
  {
    ScaleBelow(g.total, g.sizes[k]);
    (g.total as real * g.sizes[k]).Floor
  }

  lemma ScaleBelow(t: nat, z: real)
    requires 0.0 <= z <= 1.0
    ensures 0 <= (t as real * z).Floor <= t
  {
    var a := t as real;
    assert a * z + a * (1.0 - z) == a;
    assert a * (1.0 - z) >= 0.0;
    assert (a * z).Floor as real <= a * z <= a;
  }

  /**
   * The coordinates a segment actually covers: a segment of width 0 is still
   * returned for the one coordinate at which it is pulled.
   */
  function Span<T>(g: Segments<T>, k: nat): (n: nat)
    requires Sized(g) && k < |g.items|
    ensures n >= 1 && n >= Width(g, k)
  {
    if Width(g, k) == 0 then 1 else Width(g, k)
  }

  /** The first coordinate of segment `k`; `Start(g, |g.items|)` is the first one past them all. */
  function Start<T>(g: Segments<T>, k: nat): nat
    requires Sized(g) && k <= |g.items|
  {
    if k == 0 then 0 else Start(g, k - 1) + Span(g, k - 1)
  }

  /** The segment covering coordinate `c`, searched from segment `j` on. */
  function CoveringFrom<T>(g: Segments<T>, j: nat, c: nat): (r: Option<nat>)
    requires Sized(g) && j <= |g.items|
    ensures r.Some? ==> j <= r.value < |g.items|
    decreases |g.items| - j
  {
    if j == |g.items| then None
    else if c < Start(g, j) + Span(g, j) then Some(j)
    else CoveringFrom(g, j + 1, c)
  }

  /** The index of the segment covering coordinate `c`, if any. */
  function Covering<T>(g: Segments<T>, c: nat): (r: Option<nat>)
    requires Sized(g)
    ensures r.Some? ==> r.value < |g.items|
  {
    CoveringFrom(g, 0, c)
  }

  /** The segment covering coordinate `c`, if any. */
  function Lookup<T>(g: Segments<T>, c: nat): (r: Option<T>)
    requires Sized(g)
    ensures r.Some? ==> r.value in g.items
  {
    match Covering(g, c)
    case None => None
    case Some(k) => Some(g.items[k])
  }

  /** Segments follow one another without gap or overlap. */
  lemma {:induction false} StartGrows<T>(g: Segments<T>, j: nat, k: nat)
    requires Sized(g) && j < k <= |g.items|
    ensures Start(g, j) + Span(g, j) <= Start(g, k)
    decreases k
  {
    if j < k - 1 {
      StartGrows(g, j, k - 1);
    }
  }

  lemma {:induction false} CoveringFromFinds<T>(g: Segments<T>, j: nat, c: nat)
    requires Sized(g) && j <= |g.items| && Start(g, j) <= c
    ensures CoveringFrom(g, j, c).None? <==> Start(g, |g.items|) <= c
    ensures CoveringFrom(g, j, c).Some? ==>
      var k := CoveringFrom(g, j, c).value;
      j <= k < |g.items| && Start(g, k) <= c < Start(g, k) + Span(g, k)
    decreases |g.items| - j
  {
    if j < |g.items| {
      if c < Start(g, j) + Span(g, j) {
        if j + 1 < |g.items| {
          StartGrows(g, j + 1, |g.items|);
        }
      } else {
        CoveringFromFinds(g, j + 1, c);
      }
    }
  }

  /** The segment found for `c` does cover it, and one is found exactly when `c` is below the last end. */
  lemma CoveringFound<T>(g: Segments<T>, c: nat)
    requires Sized(g)
    ensures Covering(g, c).Some? ==>
      var k := Covering(g, c).value; Start(g, k) <= c < Start(g, k) + Span(g, k)
    ensures Covering(g, c).None? <==> Start(g, |g.items|) <= c
  {
    assert Start(g, 0) == 0;
    CoveringFromFinds(g, 0, c);
  }

  /** A segment that covers `c` is the one found for it, searching from any segment up to it. */
  lemma {:induction false} CoveringFromUnique<T>(g: Segments<T>, j: nat, c: nat, k: nat)
    requires Sized(g) && j <= k < |g.items| && Start(g, k) <= c < Start(g, k) + Span(g, k)
    ensures CoveringFrom(g, j, c) == Some(k)
    decreases k - j
  {
    if j < k {
      StartGrows(g, j, k);
      CoveringFromUnique(g, j + 1, c, k);
    }
  }

  /**
   * Segment `k` covers exactly the coordinates from its start up to the next
   * segment's start; no segment covers the coordinates past the last one.
   */
  lemma CoveringIff<T>(g: Segments<T>, c: nat, k: nat)
    requires Sized(g)
    ensures Covering(g, c) == Some(k) <==> k < |g.items| && Start(g, k) <= c < Start(g, k) + Span(g, k)
    ensures Covering(g, c).None? <==> Start(g, |g.items|) <= c
  {
    CoveringFound(g, c);
    if k < |g.items| && Start(g, k) <= c < Start(g, k) + Span(g, k) {
      CoveringFromUnique(g, 0, c, k);
    }
  }

  /** Once past the last segment, every later coordinate is too. */
  lemma CoveringNoneAfter<T>(g: Segments<T>, c: nat, d: nat)
    requires Sized(g) && Covering(g, c).None? && c <= d
    ensures Covering(g, d).None?
  {
    CoveringIff(g, c, 0);
    CoveringIff(g, d, 0);
  }

  // ---------------------------------------------------------------------------
  // `SegmentTracker`

  /**
   * `SegmentTracker`: the segment list's iterator (its position `pos`), the
   * segment last pulled, and the coordinate `next` at which the following
   * segment is due.
   */
  class SegmentTracker<T> {
    const segments: Segments<T>
    var pos: nat
    var current: Option<T>
    var next: nat

    ghost predicate Valid()
      reads this
    {
      Sized(segments) && pos <= |segments.items|
    }

    /**
     * The tracker has been asked for the coordinates `0 .. c - 1` in turn and
     * returned a segment for each: the last one pulled covers `c - 1`, and its
     * recorded end lies `Width` past its start.
     */
    ghost predicate InOrder(c: nat)
      reads this
      requires Valid()
    {
      if pos == 0 then next == 0 && current == None && c == 0
      else
        var k := pos - 1;
        current == Some(segments.items[k]) && next == Start(segments, k) + Width(segments, k)
        && Start(segments, k) < c <= Start(segments, k) + Span(segments, k)
    }

    /** `SegmentTracker::new`: nothing pulled yet, the first segment due at coordinate 0. */
    constructor (g: Segments<T>)
      requires Sized(g)
      ensures segments == g && Valid() && InOrder(0)
    {
      segments := g;
      pos := 0;
      current := None;
      next := 0;
    }

    /**
     * `SegmentTracker::next`: at or past the `next` boundary, the following
     * segment is pulled (None when there is none) and the boundary moves to
     * `coordinate` plus its width; below it, the current segment is returned.
     * Asked for `0, 1, 2, ...` in turn, it returns the segment covering each.
     */
    method Next(coordinate: nat) returns (r: Option<T>)
      requires Valid()
      modifies this
      ensures Valid()
      ensures old(coordinate >= next && pos < |segments.items|) ==>
        pos == old(pos) + 1 && current == Some(segments.items[old(pos)]) && r == current
        && next == coordinate + Width(segments, old(pos))
      ensures old(coordinate >= next && pos == |segments.items|) ==>
        r == None && pos == old(pos) && current == old(current) && next == old(next)
      ensures old(coordinate < next) ==>
        r == current == old(current) && pos == old(pos) && next == old(next)
      ensures old(InOrder(coordinate)) ==> r == Lookup(segments, coordinate)
      ensures old(InOrder(coordinate)) && r.Some? ==> InOrder(coordinate + 1)
    {
      ghost var inOrder := InOrder(coordinate);
      ghost var g, k := segments, pos;
      if coordinate >= next {
        if pos == |segments.items| {
          if inOrder {
            assert k > 0 ==> coordinate == Start(g, k);
            CoveringIff(g, coordinate, 0);
          }
          return None;
        }
        var segment := segments.items[pos];
        var width := Width(segments, pos);
        next := coordinate + width;
        pos := pos + 1;
        current := Some(segment);
        r := current;
        if inOrder {
          assert coordinate == Start(g, k);
          CoveringIff(g, coordinate, k);
        }
      } else {
        r := current;
        if inOrder {
          CoveringIff(g, coordinate, k - 1);
        }
      }
    }
  }

  // ---------------------------------------------------------------------------
  // `generate_columns`

  /** The level's chunks across the map's width. */
  function ChunkSegments(level: Level, width: nat): Segments<Chunk> {
    Segments(level.chunks, Widths(level.chunks), width)
  }

  /** `Segment::size` of each chunk: its width. */
  function Widths(chunks: seq<Chunk>): (r: seq<real>)
    ensures |r| == |chunks| && forall k :: 0 <= k < |chunks| ==> r[k] == chunks[k].width
  {
    if chunks == [] then [] else [chunks[0].width] + Widths(chunks[1..])
  }

  /** `Segment::size` of each layer: its height. */
  function Heights(layers: seq<Layer>): (r: seq<real>)
    ensures |r| == |layers| && forall k :: 0 <= k < |layers| ==> r[k] == layers[k].height
  {
    if layers == [] then [] else [layers[0].height] + Heights(layers[1..])
  }

  /** A chunk's layers up the map's height. */
  function LayerSegments(chunk: Chunk, height: nat): Segments<Layer> {
    Segments(chunk.layers, Heights(chunk.layers), height)
  }

  /** Every chunk width and every layer height lies in [0, 1]. */
  predicate WellSized(level: Level) {
    forall c <- level.chunks :: 0.0 <= c.width <= 1.0 && forall l <- c.layers :: 0.0 <= l.height <= 1.0
  }

  /** The chunks' sizes, and the layer sizes of each of them, are fractions. */
  predicate Layered(g: Segments<Chunk>, height: nat) {
    Sized(g) && forall c <- g.items :: Sized(LayerSegments(c, height))
  }

  lemma WellSizedSegments(level: Level, width: nat, height: nat)
    requires WellSized(level)
    ensures Layered(ChunkSegments(level, width), height)
  {
  }

  /** Row `y` of a column whose layers are `g`: the material of the layer covering it, if any. */
  function LayerCell(g: Segments<Layer>, y: nat, b: Block): Block
    requires Sized(g)
  {
    match Lookup(g, y)
    case None => b
    case Some(layer) => SetMaterial(b, layer.material)
  }

  /**
   * Column `x`, row `y` after generation, from the tile `b` it held: the
   * material of the layer covering `y` in the chunk covering `x`; a tile past
   * the last chunk or above the last layer keeps its material.
   */
  function GeneratedCell(g: Segments<Chunk>, height: nat, x: nat, y: nat, b: Block): (r: Block)
    requires Layered(g, height)
    ensures r.seed == b.seed
  {
    match Lookup(g, x)
    case None => b
    case Some(chunk) => LayerCell(LayerSegments(chunk, height), y, b)
  }

  /**
   * Rows `y` onwards of the column `[start, end)` of `s`, as the layer tracker
   * walks them: each row takes the material of the layer covering it, until
   * a row has no layer.
   */
  function GenerateRows(g: Segments<Layer>, s: seq<Block>, start: nat, end: nat, y: nat): (t: seq<Block>)
    requires Sized(g) && start <= end <= |s|
    ensures |t| == |s|
    decreases end - start - y
  {
    if start + y >= end then s
    else match Lookup(g, y)
      case None => s
      case Some(layer) => GenerateRows(g, s[start + y := SetMaterial(s[start + y], layer.material)], start, end, y + 1)
  }

  /** A row with a layer takes its material, then the rows above it are generated. */
  lemma GenerateRowsStep(g: Segments<Layer>, s: seq<Block>, start: nat, end: nat, y: nat, layer: Layer, t: seq<Block>)
    requires Sized(g) && start + y < end <= |s| && Lookup(g, y) == Some(layer)
    requires t == s[start + y := SetMaterial(s[start + y], layer.material)]
    ensures GenerateRows(g, s, start, end, y) == GenerateRows(g, t, start, end, y + 1)
  {
  }

  /** Generation of a column stops at its top or at the first row with no layer. */
  lemma GenerateRowsStops(g: Segments<Layer>, s: seq<Block>, start: nat, end: nat, y: nat)
    requires Sized(g) && start <= end <= |s| && (start + y >= end || Lookup(g, y).None?)
    ensures GenerateRows(g, s, start, end, y) == s
  {
  }

  /**
   * The columns of `s` from buffer index `p` (column `x`) onwards, as the
   * chunk tracker walks the chunks `g`: each column is generated from its
   * chunk's layers, until a column has no chunk or no whole column is left.
   */
  function GenerateFrom(g: Segments<Chunk>, height: nat, s: seq<Block>, columnHeight: nat, p: nat, x: nat): (t: seq<Block>)
    requires Layered(g, height) && columnHeight > 0
    ensures |t| == |s|
    decreases |s| - p
  {
    if p + columnHeight > |s| then s
    else match Lookup(g, x)
      case None => s
      case Some(chunk) =>
        GenerateFrom(g, height, GenerateRows(LayerSegments(chunk, height), s, p, p + columnHeight, 0), columnHeight, p + columnHeight, x + 1)
  }

  /** A column with a chunk is generated into `t`, then the columns after it, from `q` on. */
  lemma GenerateFromColumn(g: Segments<Chunk>, height: nat, s: seq<Block>, columnHeight: nat, p: nat, x: nat,
                           chunk: Chunk, t: seq<Block>, q: nat)
    requires Layered(g, height) && columnHeight > 0 && p + columnHeight <= |s| && Lookup(g, x) == Some(chunk)
    requires q == p + columnHeight && t == GenerateRows(LayerSegments(chunk, height), s, p, q, 0)
    ensures GenerateFrom(g, height, s, columnHeight, p, x) == GenerateFrom(g, height, t, columnHeight, q, x + 1)
  {
  }

  /** Generation stops at a column with no chunk. */
  lemma GenerateFromStops(g: Segments<Chunk>, height: nat, s: seq<Block>, columnHeight: nat, p: nat, x: nat)
    requires Layered(g, height) && columnHeight > 0 && Lookup(g, x).None?
    ensures GenerateFrom(g, height, s, columnHeight, p, x) == s
  {
  }

  /** The length of `c` whole columns of `columnHeight` tiles, counted column by column. */
  function Columns(c: nat, columnHeight: nat): (n: nat)
  {
    if c == 0 then 0 else Columns(c - 1, columnHeight) + columnHeight
  }

  lemma {:induction false} ColumnsProduct(c: nat, columnHeight: nat)
    ensures Columns(c, columnHeight) == c * columnHeight
  {
    if c > 0 {
      ColumnsProduct(c - 1, columnHeight);
    }
  }

  /**
   * Tile by tile: generating a column from row `y` on gives row `r >= y` the
   * material of the layer covering `r`, and leaves every other tile alone.
   */
  lemma {:induction false} GenerateRowsCell(g: Segments<Layer>, s: seq<Block>, start: nat, end: nat, y: nat, k: nat)
    requires Sized(g) && start <= end <= |s| && k < |s|
    ensures GenerateRows(g, s, start, end, y)[k] == if start + y <= k < end then LayerCell(g, k - start, s[k]) else s[k]
    decreases end - start - y
  {
    if start + y < end {
      match Lookup(g, y)
      case None =>
        if start + y <= k < end {
          CoveringNoneAfter(g, y, k - start);
        }
      case Some(layer) =>
        GenerateRowsCell(g, s[start + y := SetMaterial(s[start + y], layer.material)], start, end, y + 1, k);
    }
  }

  /** Generation from buffer index `p` on leaves the tiles before `p` alone. */
  lemma {:induction false} GenerateFromBefore(g: Segments<Chunk>, height: nat, s: seq<Block>, columnHeight: nat, p: nat, x: nat, k: nat)
    requires Layered(g, height) && columnHeight > 0 && k < p && k < |s|
    ensures GenerateFrom(g, height, s, columnHeight, p, x)[k] == s[k]
    decreases |s| - p
  {
    if p + columnHeight <= |s| {
      match Lookup(g, x)
      case None =>
      case Some(chunk) =>
        var t := GenerateRows(LayerSegments(chunk, height), s, p, p + columnHeight, 0);
        GenerateRowsCell(LayerSegments(chunk, height), s, p, p + columnHeight, 0, k);
        GenerateFromBefore(g, height, t, columnHeight, p + columnHeight, x + 1, k);
    }
  }

  /**
   * The tail of the buffer too short for a whole column (it starts `c` whole
   * columns after `p`) is left alone.
   */
  lemma {:induction false} GenerateFromTail(g: Segments<Chunk>, height: nat, s: seq<Block>, columnHeight: nat, p: nat, x: nat,
                                            c: nat, k: nat)
    requires Layered(g, height) && columnHeight > 0
    requires p + Columns(c, columnHeight) <= k < |s| < p + Columns(c + 1, columnHeight)
    ensures GenerateFrom(g, height, s, columnHeight, p, x)[k] == s[k]
    decreases c
  {
    if p + columnHeight <= |s| {
      match Lookup(g, x)
      case None =>
      case Some(chunk) =>
        var t := GenerateRows(LayerSegments(chunk, height), s, p, p + columnHeight, 0);
        GenerateRowsCell(LayerSegments(chunk, height), s, p, p + columnHeight, 0, k);
        GenerateFromTail(g, height, t, columnHeight, p + columnHeight, x + 1, c - 1, k);
    }
  }


  /**
   * Row `r` of the `c`-th whole column after `p` ends up as `GeneratedCell`
   * of column `x + c`: the chunk covering the column, and in it the layer
   * covering the row, decide its material.
   */
  lemma {:induction false} GenerateFromCell(g: Segments<Chunk>, height: nat, s: seq<Block>, columnHeight: nat, p: nat, x: nat,
                                            c: nat, r: nat, k: nat)
    requires Layered(g, height) && r < columnHeight && p + Columns(c + 1, columnHeight) <= |s|
    requires k == p + Columns(c, columnHeight) + r
    ensures GenerateFrom(g, height, s, columnHeight, p, x)[k] == GeneratedCell(g, height, x + c, r, s[k])
    decreases c, 1
  {
    match Lookup(g, x)
    case None =>
      GenerateFromStops(g, height, s, columnHeight, p, x);
      CoveringNoneAfter(g, x, x + c);
    case Some(chunk) =>
      var q := p + columnHeight;
      var t := GenerateRows(LayerSegments(chunk, height), s, p, q, 0);
      GenerateFromColumn(g, height, s, columnHeight, p, x, chunk, t, q);
      if c == 0 {
        GenerateRowsCell(LayerSegments(chunk, height), s, p, q, 0, k);
        GenerateFromBefore(g, height, t, columnHeight, q, x + 1, k);
      } else {
        GenerateFromCellLater(g, height, s, columnHeight, p, x, c, r, k, chunk, t, q);
      }
  }

  /** The step of `GenerateFromCell` past a column with a chunk, which leaves the later tile alone. */
  lemma {:induction false} GenerateFromCellLater(g: Segments<Chunk>, height: nat, s: seq<Block>, columnHeight: nat, p: nat, x: nat,
                                                 c: nat, r: nat, k: nat, chunk: Chunk, t: seq<Block>, q: nat)
    requires Layered(g, height) && r < columnHeight && p + Columns(c + 1, columnHeight) <= |s|
    requires k == p + Columns(c, columnHeight) + r && c > 0 && Lookup(g, x) == Some(chunk)
    requires q == p + columnHeight && t == GenerateRows(LayerSegments(chunk, height), s, p, q, 0)
    ensures GenerateFrom(g, height, t, columnHeight, q, x + 1)[k] == GeneratedCell(g, height, x + c, r, s[k])
    decreases c, 0
  {
    GenerateRowsCell(LayerSegments(chunk, height), s, p, q, 0, k);
    assert t[k] == s[k];
    GenerateFromCell(g, height, t, columnHeight, q, x + 1, c - 1, r, k);
  }




  /**
   * The inner loop of `generate_columns` over the cells of one column: a
   * fresh tracker of the chunk's layers `g`, asked for each row in turn,
   * until it runs out.
   */
  method GenerateColumn(data: array<Block>, column: Slice, g: Segments<Layer>)
    requires column.start <= column.end <= data.Length && Sized(g)
    modifies data
    ensures data[..] == GenerateRows(g, old(data[..]), column.start, column.end, 0)
  {
    ghost var s0 := data[..];
    var layers := new SegmentTracker(g);
    assert data[..] == s0;
    GenerateColumnWith(data, column, layers);
  }

  /** The inner loop of `generate_columns`, driven by the layer tracker `layers`. */
  method GenerateColumnWith(data: array<Block>, column: Slice, layers: SegmentTracker<Layer>)
    requires column.start <= column.end <= data.Length && layers.Valid() && layers.InOrder(0)
    modifies data, layers
    ensures data[..] == GenerateRows(layers.segments, old(data[..]), column.start, column.end, 0)
  {
    var y: nat := 0;
    while true
      invariant layers.Valid() && layers.InOrder(y)
      invariant GenerateRows(layers.segments, data[..], column.start, column.end, y)
        == GenerateRows(layers.segments, old(data[..]), column.start, column.end, 0)
      decreases column.end - column.start - y
    {
      if y >= column.end - column.start {
        GenerateRowsStops(layers.segments, data[..], column.start, column.end, y);
        break;
      }
      var more := GenerateRow(data, column, layers, y);
      if !more {
        break;
      }
      y := y + 1;
    }
  }

  /**
   * One turn of the inner loop of `generate_columns`: the layer tracker is
   * asked for row `y` and, if it has a layer, the cell takes its material;
   * returns false when the layers have run out.
   */
  method GenerateRow(data: array<Block>, column: Slice, layers: SegmentTracker<Layer>, y: nat) returns (more: bool)
    requires column.start + y < column.end <= data.Length
    requires layers.Valid() && layers.InOrder(y)
    modifies data, layers
    ensures layers.Valid()
    ensures more ==> layers.InOrder(y + 1)
    ensures more ==>
      GenerateRows(layers.segments, old(data[..]), column.start, column.end, y)
      == GenerateRows(layers.segments, data[..], column.start, column.end, y + 1)
    ensures !more ==> data[..] == old(data[..])
    ensures !more ==> GenerateRows(layers.segments, old(data[..]), column.start, column.end, y) == data[..]
  {
    ghost var before := data[..];
    var layer := layers.Next(y);
    if layer.None? {
      GenerateRowsStops(layers.segments, before, column.start, column.end, y);
      return false;
    }
    var cell := column.start + y;
    data[cell] := SetMaterial(data[cell], layer.value.material);
    GenerateRowsStep(layers.segments, before, column.start, column.end, y, layer.value, data[..]);
    return true;
  }

  /**
   * `generate_columns`: each column yielded by `columns` is numbered `x` from
   * 0; the chunk tracker, asked for `x`, gives the column's chunk, and the
   * loop stops for good once the chunks run out.  The columns are walked
   * through whatever height the buffer has, while the chunk widths and layer
   * heights are fractions of the requested size.
   */
  method GenerateColumns(columns: ColumnsMut, level: Level, size: MapSizes.MapSize)
    requires columns.Valid() && WellSized(level)
    modifies columns, columns.data
    ensures columns.Valid() && columns.height == old(columns.height)
    ensures columns.data[..] == GenerateFrom(ChunkSegments(level, MapSizes.Width(size) as nat), MapSizes.Height(size) as nat,
      old(columns.data[..]), columns.height as nat, old(columns.ptr), 0)
  {
    var width, height := MapSizes.Width(size) as nat, MapSizes.Height(size) as nat;
    var g := ChunkSegments(level, width);
    WellSizedSegments(level, width, height);
    ghost var s0 := columns.data[..];
    var chunks := new SegmentTracker(g);
    assert columns.data[..] == s0;
    GenerateColumnsWith(columns, chunks, g, height);
  }

  /** The loop of `generate_columns`, driven by the chunk tracker `chunks` of `g`. */
  method GenerateColumnsWith(columns: ColumnsMut, chunks: SegmentTracker<Chunk>, g: Segments<Chunk>, height: nat)
    requires columns.Valid() && Layered(g, height)
    requires chunks.Valid() && chunks.segments == g && chunks.InOrder(0)
    modifies columns, columns.data, chunks
    ensures columns.Valid() && columns.height == old(columns.height)
    ensures columns.data[..] == GenerateFrom(g, height, old(columns.data[..]), columns.height as nat, old(columns.ptr), 0)
  {
    var x: nat := 0;
    while true
      invariant columns.Valid() && columns.height == old(columns.height)
      invariant chunks.Valid() && chunks.segments == g && chunks.InOrder(x)
      invariant GenerateFrom(g, height, columns.data[..], columns.height as nat, columns.ptr, x)
        == GenerateFrom(g, height, old(columns.data[..]), columns.height as nat, old(columns.ptr), 0)
      decreases columns.len
    {
      var more := GenerateNextColumn(columns, chunks, x, g, height);
      if !more {
        break;
      }
      x := x + 1;
    }
  }

  /**
   * One turn of `generate_columns`' outer loop: pull the next column and, if
   * there is one, generate it; returns false when the columns or the chunks
   * have run out, which ends the loop.
   */
  method GenerateNextColumn(columns: ColumnsMut, chunks: SegmentTracker<Chunk>, x: nat, g: Segments<Chunk>, height: nat)
    returns (more: bool)
    requires columns.Valid() && Layered(g, height)
    requires chunks.Valid() && chunks.segments == g && chunks.InOrder(x)
    modifies columns, columns.data, chunks
    ensures columns.Valid() && columns.height == old(columns.height)
    ensures chunks.Valid() && chunks.segments == g
    ensures more ==> columns.len < old(columns.len) && chunks.InOrder(x + 1)
    ensures more ==>
      GenerateFrom(g, height, old(columns.data[..]), columns.height as nat, old(columns.ptr), x)
      == GenerateFrom(g, height, columns.data[..], columns.height as nat, columns.ptr, x + 1)
    ensures !more ==> columns.data[..] == old(columns.data[..])
    ensures !more ==>
      GenerateFrom(g, height, old(columns.data[..]), columns.height as nat, old(columns.ptr), x) == old(columns.data[..])
  {
    var column := columns.Next();
    if column.None? {
      return false;
    }
    more := GenerateChunkColumn(columns.data, column.value, columns.height as nat, chunks, x, g, height);
  }

  /**
   * The body of `generate_columns`' outer loop for the column `[start, end)`
   * numbered `x`: ask the chunk tracker for `x` and, if it has a chunk,
   * generate the column from it.
   */
  method GenerateChunkColumn(data: array<Block>, column: Slice, columnHeight: nat, chunks: SegmentTracker<Chunk>, x: nat,
                             g: Segments<Chunk>, height: nat)
    returns (more: bool)
    requires 0 < columnHeight && column.end == column.start + columnHeight <= data.Length && Layered(g, height)
    requires chunks.Valid() && chunks.segments == g && chunks.InOrder(x)
    modifies data, chunks
    ensures chunks.Valid() && chunks.segments == g
    ensures more ==> chunks.InOrder(x + 1)
    ensures more ==>
      GenerateFrom(g, height, old(data[..]), columnHeight, column.start, x)
      == GenerateFrom(g, height, data[..], columnHeight, column.end, x + 1)
    ensures !more ==> data[..] == old(data[..])
    ensures !more ==> GenerateFrom(g, height, old(data[..]), columnHeight, column.start, x) == old(data[..])
  {
    ghost var before := data[..];
    var chunk := chunks.Next(x);
    if chunk.None? {
      GenerateFromStops(g, height, before, columnHeight, column.start, x);
      return false;
    }
    GenerateColumn(data, column, LayerSegments(chunk.value, height));
    GenerateFromColumn(g, height, before, columnHeight, column.start, x, chunk.value, data[..], column.end);
    return true;
  }

  // ---------------------------------------------------------------------------
  // `roll_seeds`

  /** The tiles before buffer index `n` carry the seeds rolled for them; the rest are as in `s`. */
  function Reseeded(s: seq<Block>, seeds: nat -> Seed, n: nat): (t: seq<Block>)
    ensures |t| == |s|
  {
    seq(|s|, k requires 0 <= k < |s| => if k < n then SetSeed(s[k], seeds(k)) else s[k])
  }

  /** Rolling the seed of tile `n` extends the rolled prefix by one. */
  lemma ReseededStep(s: seq<Block>, seeds: nat -> Seed, n: nat)
    requires n < |s|
    ensures Reseeded(s, seeds, n)[n := SetSeed(s[n], seeds(n))] == Reseeded(s, seeds, n + 1)
  {
  }

  /** The inner loop of `roll_seeds` over the tiles of one column. */
  method RollColumn(data: array<Block>, column: Slice, seeds: nat -> Seed, ghost s0: seq<Block>)
    requires column.start <= column.end <= data.Length == |s0|
    requires data[..] == Reseeded(s0, seeds, column.start)
    modifies data
    ensures data[..] == Reseeded(s0, seeds, column.end)
  {
    var i := column.start;
    while i < column.end
      invariant column.start <= i <= column.end
      invariant data[..] == Reseeded(s0, seeds, i)
    {
      ReseededStep(s0, seeds, i);
      data[i] := SetSeed(data[i], seeds(i));
      i := i + 1;
    }
  }

  /** The outer loop of `roll_seeds`, over the columns the iterator has left. */
  method RollSeedsWith(columns: ColumnsMut, seeds: nat -> Seed, ghost s0: seq<Block>)
    requires columns.Valid() && columns.data.Length == |s0|
    requires columns.data[..] == Reseeded(s0, seeds, columns.ptr)
    modifies columns, columns.data
    ensures columns.Valid() && columns.len == 0 && columns.height == old(columns.height)
    ensures columns.data[..] == Reseeded(s0, seeds, columns.ptr)
  {
    while true
      invariant columns.Valid() && columns.height == old(columns.height)
      invariant columns.data[..] == Reseeded(s0, seeds, columns.ptr)
      decreases columns.len
    {
      var column := columns.Next();
      if column.None? {
        break;
      }
      RollColumn(columns.data, column.value, seeds, s0);
    }
  }

  /**
   * `roll_seeds`: every tile of the map's whole columns, in buffer order,
   * gets the next rolled seed; the tail too short for a column keeps its own.
   */
  method RollSeeds(m: Map, seeds: nat -> Seed)
    requires m.Valid()
    modifies m.data
    ensures m.data[..] == Reseeded(old(m.data[..]), seeds, m.Width() as nat * m.height as nat)
  {
    ghost var s0 := m.data[..];
    var columns := new ColumnsMut(m);
    assert m.data[..] == s0;
    assert s0 == Reseeded(s0, seeds, 0);
    RollSeedsWith(columns, seeds, s0);
    assert columns.ptr == columns.total * m.height as nat;
  }

  // ---------------------------------------------------------------------------
  // `fill_bedrock`

  /** The columns of `s` from buffer index `p` onwards, each with Bedrock in its bottom tile. */
  function BedrockFrom(s: seq<Block>, columnHeight: nat, p: nat): (t: seq<Block>)
    requires columnHeight > 0
    ensures |t| == |s|
    decreases |s| - p
  {
    if p + columnHeight > |s| then s
    else BedrockFrom(s[p := SetMaterial(s[p], Bedrock)], columnHeight, p + columnHeight)
  }

  /** A whole column gets its Bedrock into `t`, then the columns after it, from `q` on. */
  lemma BedrockFromColumn(s: seq<Block>, columnHeight: nat, p: nat, t: seq<Block>, q: nat)
    requires columnHeight > 0 && p + columnHeight <= |s|
    requires q == p + columnHeight && t == s[p := SetMaterial(s[p], Bedrock)]
    ensures BedrockFrom(s, columnHeight, p) == BedrockFrom(t, columnHeight, q)
  {
  }

  /** Nothing changes once no whole column is left. */
  lemma BedrockFromStops(s: seq<Block>, columnHeight: nat, p: nat)
    requires columnHeight > 0 && |s| < p + columnHeight
    ensures BedrockFrom(s, columnHeight, p) == s
  {
  }

  /** The tiles before `p` are left alone. */
  lemma {:induction false} BedrockFromBefore(s: seq<Block>, columnHeight: nat, p: nat, k: nat)
    requires columnHeight > 0 && k < p && k < |s|
    ensures BedrockFrom(s, columnHeight, p)[k] == s[k]
    decreases |s| - p
  {
    if p + columnHeight <= |s| {
      BedrockFromBefore(s[p := SetMaterial(s[p], Bedrock)], columnHeight, p + columnHeight, k);
    }
  }

  /** Row `r` of the `c`-th whole column after `p` is Bedrock when `r` is 0, and otherwise left alone. */
  lemma {:induction false} BedrockFromCell(s: seq<Block>, columnHeight: nat, p: nat, c: nat, r: nat, k: nat)
    requires r < columnHeight && p + Columns(c + 1, columnHeight) <= |s|
    requires k == p + Columns(c, columnHeight) + r
    ensures BedrockFrom(s, columnHeight, p)[k] == if r == 0 then SetMaterial(s[k], Bedrock) else s[k]
    decreases c
  {
    var t := s[p := SetMaterial(s[p], Bedrock)];
    if c == 0 {
      BedrockFromBefore(t, columnHeight, p + columnHeight, k);
    } else {
      BedrockFromCell(t, columnHeight, p + columnHeight, c - 1, r, k);
    }
  }

  /** The tail of the buffer too short for a whole column is left alone. */
  lemma {:induction false} BedrockFromTail(s: seq<Block>, columnHeight: nat, p: nat, c: nat, k: nat)
    requires columnHeight > 0
    requires p + Columns(c, columnHeight) <= k < |s| < p + Columns(c + 1, columnHeight)
    ensures BedrockFrom(s, columnHeight, p)[k] == s[k]
    decreases c
  {
    if p + columnHeight <= |s| {
      BedrockFromTail(s[p := SetMaterial(s[p], Bedrock)], columnHeight, p + columnHeight, c - 1, k);
    }
  }

  /**
   * The outer loop of `fill_bedrock`.  A column is `height > 0` tiles long,
   * so taking its first tile always yields exactly that tile.
   */
  method FillBedrockWith(columns: ColumnsMut)
    requires columns.Valid()
    modifies columns, columns.data
    ensures columns.Valid() && columns.height == old(columns.height)
    ensures columns.data[..] == BedrockFrom(old(columns.data[..]), columns.height as nat, old(columns.ptr))
  {
    while true
      invariant columns.Valid() && columns.height == old(columns.height)
      invariant BedrockFrom(columns.data[..], columns.height as nat, columns.ptr)
             == BedrockFrom(old(columns.data[..]), columns.height as nat, old(columns.ptr))
      decreases columns.len
    {
      var column := columns.Next();
      if column.None? {
        BedrockFromStops(columns.data[..], columns.height as nat, columns.ptr);
        break;
      }
      ghost var before := columns.data[..];
      columns.data[column.value.start] := SetMaterial(columns.data[column.value.start], Bedrock);
      BedrockFromColumn(before, columns.height as nat, column.value.start, columns.data[..], columns.ptr);
    }
  }

  /** `fill_bedrock`: the bottom tile of every whole column becomes Bedrock, keeping its seed. */
  method FillBedrock(m: Map)
    requires m.Valid()
    modifies m.data
    ensures m.data[..] == BedrockFrom(old(m.data[..]), m.height as nat, 0)
  {
    ghost var s0 := m.data[..];
    var columns := new ColumnsMut(m);
    assert m.data[..] == s0;
    FillBedrockWith(columns);
  }

  // ---------------------------------------------------------------------------
  // `regenerate_level`

  /** The level's chunks laid out across the width of `size`, each with its layers up the height of `size`. */
  function LevelChunks(level: Level, size: MapSizes.MapSize): (g: Segments<Chunk>)
    requires WellSized(level)
    ensures Layered(g, MapSizes.Height(size) as nat)
  {
    WellSizedSegments(level, MapSizes.Width(size) as nat, MapSizes.Height(size) as nat);
    ChunkSegments(level, MapSizes.Width(size) as nat)
  }

  /**
   * The buffer `regenerate_level` leaves behind in a map whose columns are
   * `columnHeight` tiles tall: a resized buffer of default tiles, with the
   * seeds rolled, the columns generated and the Bedrock filled in.
   */
  function Regenerated(level: Level, size: MapSizes.MapSize, columnHeight: nat, seeds: nat -> Seed): (t: seq<Block>)
    requires WellSized(level) && columnHeight > 0
    ensures |t| == MapSizes.Product(size) as nat
  {
    var n := MapSizes.Product(size) as nat;
    var rolled := Reseeded(seq(n, _ => Blocks.Default()), seeds, Columns(n / columnHeight, columnHeight));
    BedrockFrom(GenerateFrom(LevelChunks(level, size), MapSizes.Height(size) as nat, rolled, columnHeight, 0, 0), columnHeight, 0)
  }

  /**
   * `App::regenerate_level`: resize the map to the configured size, roll the
   * seeds, generate the columns from the level and fill in the Bedrock.  The
   * map keeps its column height through the resize.
   */
  method RegenerateLevel(m: Map, level: Level, size: MapSizes.MapSize, seeds: nat -> Seed)
    requires m.Valid() && |level.chunks| <= U8_MAX && WellSized(level)
    modifies m
    ensures m.Valid() && m.height == old(m.height)
    ensures m.data[..] == Regenerated(level, size, m.height as nat, seeds)
  {
    m.Resize(size);
    ColumnsProduct(m.Width() as nat, m.height as nat);
    ghost var cleared := m.data[..];
    assert cleared == seq(MapSizes.Product(size) as nat, _ => Blocks.Default());
    RollSeeds(m, seeds);
    ghost var rolled := m.data[..];
    var columns := new ColumnsMut(m);
    assert m.data[..] == rolled;
    GenerateColumns(columns, level, size);
    FillBedrock(m);
  }

  /**
   * Row `y` of column `x` of a regenerated map, holding the seed rolled for
   * it: Bedrock at the bottom row, and above it the material of the layer
   * covering `y` in the chunk covering `x` (air where there is none).
   */
  lemma RegeneratedColumnCell(level: Level, size: MapSizes.MapSize, columnHeight: nat, seeds: nat -> Seed, x: nat, y: nat)
    requires WellSized(level) && columnHeight > 0
    requires x < MapSizes.Product(size) as nat / columnHeight && y < columnHeight
    ensures CellIndex(x, y, columnHeight) < MapSizes.Product(size) as nat
    ensures Regenerated(level, size, columnHeight, seeds)[CellIndex(x, y, columnHeight)]
         == if y == 0 then Block(Bedrock, seeds(CellIndex(x, y, columnHeight)))
            else GeneratedCell(LevelChunks(level, size), MapSizes.Height(size) as nat, x, y, Block(Air, seeds(CellIndex(x, y, columnHeight))))
  {
    var n := MapSizes.Product(size) as nat;
    var width := n / columnHeight;
    var k := CellIndex(x, y, columnHeight);
    CellInColumns(x, y, columnHeight, n);
    var g := LevelChunks(level, size);
    var rolled := Reseeded(seq(n, _ => Blocks.Default()), seeds, Columns(width, columnHeight));
    assert Regenerated(level, size, columnHeight, seeds)
        == BedrockFrom(GenerateFrom(g, MapSizes.Height(size) as nat, rolled, columnHeight, 0, 0), columnHeight, 0);
    assert rolled[k] == Block(Air, seeds(k));
    GeneratedColumnCell(g, MapSizes.Height(size) as nat, rolled, columnHeight, x, y, k);
  }

  /** Generation then the Bedrock fill, seen from row `y` of the whole column `x`. */
  lemma GeneratedColumnCell(g: Segments<Chunk>, height: nat, s: seq<Block>, columnHeight: nat, x: nat, y: nat, k: nat)
    requires Layered(g, height) && y < columnHeight && Columns(x + 1, columnHeight) <= |s|
    requires k == Columns(x, columnHeight) + y
    ensures BedrockFrom(GenerateFrom(g, height, s, columnHeight, 0, 0), columnHeight, 0)[k]
         == if y == 0 then Block(Bedrock, s[k].seed) else GeneratedCell(g, height, x, y, s[k])
  {
    GenerateFromCell(g, height, s, columnHeight, 0, 0, x, y, k);
    BedrockFromCell(GenerateFrom(g, height, s, columnHeight, 0, 0), columnHeight, 0, x, y, k);
  }


  /** Tile `y` of column `x` lies in the whole columns of a buffer of `n` tiles. */
  lemma CellInColumns(x: nat, y: nat, columnHeight: nat, n: nat)
    requires columnHeight > 0 && x < n / columnHeight && y < columnHeight
    ensures CellIndex(x, y, columnHeight) == Columns(x, columnHeight) + y < Columns(x + 1, columnHeight)
    ensures Columns(x + 1, columnHeight) <= Columns(n / columnHeight, columnHeight) <= n
  {
    ColumnFits(x, n / columnHeight, columnHeight);
    ColumnsProduct(x, columnHeight);
    ColumnsProduct(x + 1, columnHeight);
    ColumnsProduct(n / columnHeight, columnHeight);
  }

  /** The tail of a regenerated buffer too short for a whole column keeps the default tile. */
  lemma RegeneratedTail(level: Level, size: MapSizes.MapSize, columnHeight: nat, seeds: nat -> Seed, k: nat)
    requires WellSized(level) && columnHeight > 0
    requires MapSizes.Product(size) as nat / columnHeight * columnHeight <= k < MapSizes.Product(size) as nat
    ensures Regenerated(level, size, columnHeight, seeds)[k] == Blocks.Default()
  {
    var n := MapSizes.Product(size) as nat;
    var width := n / columnHeight;
    TailInColumns(k, columnHeight, n);
    var g := LevelChunks(level, size);
    var rolled := Reseeded(seq(n, _ => Blocks.Default()), seeds, Columns(width, columnHeight));
    var generated := GenerateFrom(g, MapSizes.Height(size) as nat, rolled, columnHeight, 0, 0);
    assert Regenerated(level, size, columnHeight, seeds) == BedrockFrom(generated, columnHeight, 0);
    GenerateFromTail(g, MapSizes.Height(size) as nat, rolled, columnHeight, 0, 0, width, k);
    BedrockFromTail(generated, columnHeight, 0, width, k);
  }

  /** A tile past the whole columns of a buffer of `n` tiles lies in the tail shorter than a column. */
  lemma TailInColumns(k: nat, columnHeight: nat, n: nat)
    requires columnHeight > 0 && n / columnHeight * columnHeight <= k < n
    ensures Columns(n / columnHeight, columnHeight) <= k < n < Columns(n / columnHeight + 1, columnHeight)
  {
    ColumnsProduct(n / columnHeight, columnHeight);
    ColumnsProduct(n / columnHeight + 1, columnHeight);
  }
}
