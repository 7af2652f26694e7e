# bedrock: a verified model of the tile-grid simulation

bedrock is a falling-sand game. Its world is a grid of tiles (`Block`s), each a
material and a 2-bit seed. The grid is stored column by column in one flat
buffer. A level is a row of chunks across the map's width. Each chunk is a
stack of layers up the map's height. Regenerating the map lays the level out
over the grid and puts Bedrock under every column. Each tick then walks every
column bottom to top in overlapping pairs of tiles. One random roll per pair
decides which of five ordered events fire:
- the pair swaps for gravity;
- a liquid flows and the next pair is skipped;
- dirt grows grass;
- grass withers to dirt;
- fire burns out.

Around this sit:
- small value types: the map size, the `BlockTags` bitset, seeds, materials, colours, the version;
- the builtin level table and the level loader;
- the player list and the spawn-chunk check;
- the keyboard state machine for the tick rate and the pause;
- the error type with its messages and exit codes.

Two older parts of the code are modelled as written:
- a map made of one box per column, with its iterators;
- the first level generator that uses them.

The model follows the source's own form:
- Pure Rust code becomes datatypes, functions and lemmas.
- Iterators and buffers that the code changes in place become classes over `array`s and `seq` fields.
- Each loop becomes a method whose loop is proved against a recursive specification function.
- The properties the code promises are lemmas about those functions.

Modules, one per source file:
- `Base`: integer widths, `Option`, `Result`, `Ordering`.
- `Materials`, `Seeds`, `Blocks`, `Tags`.
- `MapSizes`, `FlatMap`, `ColumnsMutIter`, `ColumnsIter`, `ColumnWindows`.
- `Tick`, with its properties in `TickProperties`.
- `AppLevels`, `RegenerateLevel`.
- `BuiltinLevels`, `LoadLevels`.
- `NestedMaps`, `MapIters`, `LevelGenerators`.
- `PlayerLists`, `RespawnPlayers`, `Keyboard`.
- `Colours`, `Versions`, `Errors`.

Randomness is an input:
- tick rolls are a function `rolls: nat -> u32`, with the index of the next unused roll;
- the seeds of `roll_seeds` are `seeds: nat -> Seed`, indexed by buffer position.

The accessors `is_static`, `is_liquid` and `is_emtpy` on a tile are three uninterpreted predicates of its material (`Blocks.Classes`). The material-to-tags table they consult is not part of this model.

## Model

| member | source | states |
|---|---|---|
| MapSizes.New | src/map/map_size/mod.rs:15-35 | None exactly when a side is odd, a side is zero, or the product exceeds u32; otherwise the size returns exactly the two inputs |
| MapSizes.NewUnchecked | src/map/map_size/mod.rs:40-59 | for even non-zero sides whose product fits, the width and height read back are the inputs |
| MapSizes.Get | src/map/map_size/mod.rs:63-68 | the pair is (width, height) |
| MapSizes.Width | src/map/map_size/mod.rs:72-79 | the width is even and non-zero |
| MapSizes.Height | src/map/map_size/mod.rs:83-90 | the height is even and non-zero |
| MapSizes.Product | src/map/map_size/mod.rs:94-101 | the product is width*height and fits in u32; it divides exactly by the height, giving the width; it is a multiple of 4 and at least 4 |
| MapSizes.NewGetRoundTrip | src/map/map_size/mod.rs:15-35 | rebuilding a size from its width and height gives the same size |
| MapSizes.NewAcceptsAdmissible | src/map/map_size/mod.rs:15-35 | `new` succeeds iff both sides are even and non-zero and the product fits |
| MapSizes.Default | src/map/map_size/mod.rs:104-108 | the default is 0x180 by 0x100, which `new` accepts, with product 0x18000 |
| Materials.Default | src/level/material/mod.rs:12-13 | the default material is the one with discriminant 0 (Air) |
| Materials.Discriminant | src/level/material/mod.rs:11-31 | every discriminant is below 18 |
| Materials.NewUnchecked | src/level/material/mod.rs:35-38 | for a value below 18, gives the material with that discriminant |
| Materials.DiscriminantRoundTrip | src/level/material/mod.rs:11-38 | converting a material to its discriminant and back gives the same material |
| Materials.FromStr | src/level/material/mod.rs:45-63 | an error carries the input string as its name |
| Materials.AcceptedName | src/level/material/mod.rs:47-60 | Ice, Wood, Glass and Fire, and only they, have no accepted name |
| Materials.FromStrExact | src/level/material/mod.rs:46-62 | a string parses to a material iff it is exactly that material's lowercase name |
| Materials.FromStrRejects | src/level/material/mod.rs:62 | the parse fails iff the string is no material's name |
| Materials.FromStrCaseSensitive | src/level/material/mod.rs:46-62 | "Air" and "WATER" are rejected, and each error names the input |
| Seeds.New | src/level/seed/mod.rs:14-21 | None iff the value exceeds 3; otherwise the seed holds the value |
| Seeds.NewUnchecked | src/level/seed/mod.rs:25-29 | a value of at most 3 is held as given |
| Seeds.ToU8 | src/level/seed/mod.rs:33-35 | a seed's value is at most 3 |
| Seeds.NewToU8RoundTrip | src/level/seed/mod.rs:14-35 | rebuilding a seed from its value gives the same seed |
| Seeds.Default | src/level/seed/mod.rs:45-50 | the default seed is `new(0)` |
| Seeds.Sample | src/level/seed/mod.rs:60-66 | a sampled seed is the random byte modulo 4 |
| Seeds.SampleFibres | src/level/seed/mod.rs:60-66 | a byte samples to a seed iff the byte modulo 4 is that seed's value, so every seed is reachable |
| Seeds.Compare | src/level/seed/mod.rs:7 | the derived comparison says Equal iff the seeds are equal, and Less iff the value is smaller |
| Blocks.Default | src/map/map/mod.rs:23 | the default tile is Air with seed 0 |
| Blocks.SetMaterial | src/app/app/regenerate_level.rs:159 | replaces the material and keeps the seed |
| Blocks.SetSeed | src/app/app/regenerate_level.rs:119 | replaces the seed and keeps the material |
| Blocks.SettersCommute | src/app/app/regenerate_level.rs:119-167 | setting a material and a seed gives the same tile in either order |
| Tags.Union | src/level/block_tags/mod.rs:63-66 | a bit is set iff it is set in either operand |
| Tags.Intersection | src/level/block_tags/mod.rs:70-73 | a bit is set iff it is set in both operands |
| Tags.SymmetricDifference | src/level/block_tags/mod.rs:84-87 | a bit is set iff exactly one operand has it |
| Tags.Invert | src/level/block_tags/mod.rs:91-94 | a bit is set iff the operand lacks it |
| Tags.InvertInvolutive | src/level/block_tags/mod.rs:91-94 | inverting twice gives back the operand |
| Tags.Difference | src/level/block_tags/mod.rs:77-80 | adding the subtrahend back, modulo 2^32, gives the minuend (wrapping subtraction) |
| Tags.Contains | src/level/block_tags/mod.rs:98-100 | `a.contains(b)` only when every bit of b is set in a; ContainsIsSubset gives the converse |
| Tags.ContainsIsSubset | src/level/block_tags/mod.rs:98-100 | `a.contains(b)` iff every bit of b is set in a |
| Tags.ContainsExtremes | src/level/block_tags/mod.rs:21-100 | every tag set contains NONE and itself, and ALL contains every tag set |
| Tags.ContainsPartialOrder | src/level/block_tags/mod.rs:98-100 | containment is antisymmetric and transitive |
| Tags.UnionIsLeast | src/level/block_tags/mod.rs:63-100 | the union contains both operands, and a set contains both operands iff it contains their union |
| Tags.IntersectionIsGreatest | src/level/block_tags/mod.rs:70-100 | both operands contain the intersection, and a set is contained in both iff it is contained in the intersection |
| Tags.DifferenceOfSubset | src/level/block_tags/mod.rs:77-80 | when the minuend contains the subtrahend, the wrapping difference is the and-not and the plain integer difference |
| Tags.DifferenceOnlyOfSubset | src/level/block_tags/mod.rs:77-80 | if the wrapping difference equals the and-not, the minuend contains the subtrahend |
| Tags.NamedTagIsSingleBit | src/level/block_tags/mod.rs:24-54 | the k-th named tag (STATIC to VOLATILE) is exactly bit k |
| Tags.NamedTagsAreDistinctBits | src/level/block_tags/mod.rs:21-57 | two different named tags share no bit, and no named tag is NONE or ALL |
| FlatMap.Map.constructor | src/map/map/mod.rs:20-26 | stores the size's height; the buffer has `product()` default tiles; `size()` gives back the requested size |
| FlatMap.Map.Default | src/map/map/mod.rs:119-124 | a map of the default size, all default tiles |
| FlatMap.Map.Resize | src/map/map/mod.rs:30-44 | the buffer becomes `product()` fresh default tiles and the height is left as it was, so the width is the new product divided by the old height |
| FlatMap.Map.Height | src/map/map/mod.rs:71-78 | the height is even and non-zero |
| FlatMap.Map.Width | src/map/map/mod.rs:82-94 | the width is the buffer length divided by the height, rounded down |
| FlatMap.Map.Size | src/map/map/mod.rs:98-103 | the size's (width, height) is the map's |
| FlatMap.Map.Sample | src/map/map/mod.rs:48-62 | None when x or y is at or below 0 or at or beyond the width or height; a tile it returns is the one at floor(x)*height + floor(y), which is in the buffer |
| FlatMap.SampleColumnMajor | src/map/map/mod.rs:48-62 | on every map, including one resized to another height, a point strictly inside samples Some: the tile of its column-major index, which is in the buffer |
| FlatMap.SampleReachesColumnZero | src/map/map/mod.rs:49-61 | on a map at least one column wide, a point with 0 < x < 1 and 0 < y < 1 samples the first tile of column 0 |
| FlatMap.CellIndexInRange | src/map/map/mod.rs:60 | the index of an in-range cell lies in the buffer |
| FlatMap.CellIndexInverse | src/map/map/mod.rs:60 | dividing the index by the height gives x back, and the remainder gives y |
| FlatMap.ResizeRestoresSizeIffSameHeight | src/map/map/mod.rs:30-94 | after a resize the map's width and height equal the requested ones iff the old height was the requested height |
| FlatMap.ColumnSlice | src/level/columns_mut/mod.rs:58-60 | column k is the `height` tiles from index k*height |
| FlatMap.ColumnSlicesDisjoint | src/level/columns_mut/mod.rs:58-62 | an earlier column ends before a later one starts |
| FlatMap.ColumnOfIndex | src/map/map/mod.rs:60 | every buffer index lies in the column its quotient names, at the row its remainder names |
| ColumnsMutIter.ColumnsMut.constructor | src/level/columns_mut/mod.rs:22-36 | starts at buffer index 0 with len = the map's width and the map's height |
| ColumnsMutIter.ColumnsMut.Next | src/level/columns_mut/mod.rs:47-65 | None exactly when len is 0, and then again forever; otherwise the next column slice (the k-th call gives column k), inside the buffer; the pointer moves one column on and len drops by one |
| ColumnsIter.Columns.constructor | src/level/columns/mod.rs:22-36 | starts at buffer index 0 with len = the map's width and the map's height |
| ColumnsIter.Columns.Next | src/level/columns/mod.rs:47-63 | None exactly when len is 0; otherwise the k-th column slice, inside the buffer, with len dropping by one |
| ColumnsIter.Columns.Clone | src/level/columns/mod.rs:10 | a fresh iterator in the same state, moved on independently |
| ColumnsIter.Columns.Copy | src/level/columns/mod.rs:10 | the clone's fields equal the original's |
| ColumnsIter.ColumnsCoverInOrder | src/level/columns/mod.rs:56-62 | the slices yielded from column k on, joined, are the buffer from k*height to width*height |
| ColumnWindows.New | src/map/column_windows_mut/mod.rs:20-35 | takes one column from the column iterator: None iff none is left; otherwise windows over that column's slice, with len = the column height |
| ColumnWindows.ColumnWindowsMut.Over | src/map/column_windows_mut/mod.rs:20-35 | windows over a column start at its first tile with len = its length |
| ColumnWindows.ColumnWindowsMut.Next | src/map/column_windows_mut/mod.rs:39-56 | None exactly when len is 1; otherwise the pair (i, i+1) at the pointer, which then moves one tile on while len drops by one |
| ColumnWindows.ColumnWindowsMut.Len | src/map/column_windows_mut/mod.rs:60-62 | len is the number of tiles from the pointer to the column's end |
| ColumnWindows.ColumnWindowsMut.IsEmpty | src/map/column_windows_mut/mod.rs:66-68 | empty iff one tile is left, not zero |
| Tick.MinSeed | src/app/app/tick.rs:9-20 | for den != 0 and num <= den: the u64 product cannot overflow, and u32::MAX - result is floor(u32::MAX*num/den) |
| Tick.MinSeedExtremes | src/app/app/tick.rs:9-20 | a chance of 1 gives threshold 0, and a chance of 0 gives u32::MAX |
| Tick.MinSeedMonotone | src/app/app/tick.rs:9-20 | a larger chance never gives a higher threshold |
| Tick.MinSeedChance | src/app/app/tick.rs:16-41 | the number of rolls at or above the threshold is within one of 2^32*num/den |
| Tick.Chance | src/app/app/tick.rs:59-100 | each rule's fraction meets `min_seed`'s assertions |
| Tick.Threshold | src/app/app/tick.rs:39 | each rule's threshold is `min_seed` of its fraction |
| Tick.Perform | src/app/app/tick.rs:63-100 | Fall and Flow swap the pair; Grow, Wither and BurnOut keep the upper tile and the lower tile's seed; only Flow asks to skip |
| Tick.SelectEvents | src/app/app/tick.rs:22-46 | the skip flag, once set, stays set, and it is set only if it already was or Flow is among the events run |
| Tick.SelectEventsUnfolded | src/app/app/tick.rs:38-100 | the events run in the order Fall, Flow, Grow, Wither, BurnOut, each judged on the pair as the earlier ones left it |
| Tick.LowRollIsIdle | src/app/app/tick.rs:41 | a roll below Fall's threshold fires no event |
| Tick.SkipOnlyAfterFlow | src/app/app/tick.rs:67-76 | the next window is skipped only if the roll reached Flow's threshold |
| Tick.Sweep | src/app/app/tick.rs:53-101 | the walk of one column's windows, one roll per window and two windows on after a Flow skip; its own contract keeps the buffer length, and what it does is stated by TickProperties.SweepIsLocal, SweepRolls, SweepIdle and SweepKeepsPinned |
| Tick.TickFrom | src/app/app/tick.rs:52-103 | every whole column ticked in order; its own contract keeps the buffer length, and what it does is stated by TickProperties.TickFromConservesColumns, TickFromIdle and TickFromKeepsPinned |
| Tick.TickFromColumn | src/app/app/tick.rs:52-53 | a whole column is swept, then the columns after it |
| Tick.Tick | src/app/app/tick.rs:49-104 | the buffer and the roll count after the nested loops are `TickFrom` of the buffer before it, from column 0 |
| Tick.TickColumn | src/app/app/tick.rs:53-102 | the inner loop over one column's windows leaves the buffer as `Sweep` of that column |
| Tick.SelectEventsInPlace | src/app/app/tick.rs:36-101 | the in-place run of the five events writes the pair `SelectEvents` computes; the window pointer moves one tile on, or two after a Flow skip |
| TickProperties.Kind | src/app/app/tick.rs:78-100 | the kind of a material is never Grass or Fire, and is the material itself otherwise |
| TickProperties.StepConserves | src/app/app/tick.rs:59-100 | a firing event keeps the census of the pair: a swap permutes it, and a rewrite stays within the tile's kind |
| TickProperties.SelectEventsConserve | src/app/app/tick.rs:38-44 | however many events fire, the pair's census is kept |
| TickProperties.StaticUpperIsKept | src/app/app/tick.rs:59-100 | a static upper tile is never swapped down or rewritten |
| TickProperties.PinnedLowerIsIdle | src/app/app/tick.rs:59-100 | a static, non-empty, non-liquid lower tile that is not Dirt, Grass or Fire leaves the window unchanged |
| TickProperties.SweepIsLocal | src/app/app/tick.rs:53-101 | sweeping a column changes no tile outside it and keeps the buffer's census |
| TickProperties.SweepRolls | src/app/app/tick.rs:36-75 | a column of h tiles draws at most h-1 rolls and at least half that many |
| TickProperties.SweepIdle | src/app/app/tick.rs:41-53 | with every roll below Fall's threshold, a column is unchanged and draws exactly h-1 rolls |
| TickProperties.SweepKeepsPinned | src/app/app/tick.rs:59-100 | every pinned tile of the buffer survives a column sweep in place |
| TickProperties.TickFromIsLocal | src/app/app/tick.rs:50-53 | ticking from a column on leaves the tiles before it alone and keeps the census |
| TickProperties.TickFromConservesColumns | src/app/app/tick.rs:50-53 | a tick keeps the census of every column separately, and leaves the tail shorter than a column alone |
| TickProperties.TickFromIdle | src/app/app/tick.rs:41-104 | a tick whose rolls are all below Fall's threshold changes nothing |
| TickProperties.TickFromKeepsPinned | src/app/app/tick.rs:49-104 | every pinned tile survives a whole tick in place |
| RegenerateLevel.Width | src/app/app/regenerate_level.rs:77-80 | a segment's width, trunc(total*size) for a size in [0,1], never exceeds the total |
| RegenerateLevel.Span | src/app/app/regenerate_level.rs:74-86 | a segment covers max(1, width) coordinates: even a zero-width segment is pulled at one coordinate |
| RegenerateLevel.CoveringFrom | src/app/app/regenerate_level.rs:74-89 | the segment found from index j on is at or after j and exists |
| RegenerateLevel.Covering | src/app/app/regenerate_level.rs:74-89 | a found segment index is in range |
| RegenerateLevel.Lookup | src/app/app/regenerate_level.rs:74-89 | a found segment is one of the list |
| RegenerateLevel.CoveringIff | src/app/app/regenerate_level.rs:74-89 | segment k is found for c iff c lies in k's coordinates; none is found iff c is past the last segment |
| RegenerateLevel.CoveringFound | src/app/app/regenerate_level.rs:74-89 | the segment found for c covers c, and one is found iff c is before the last end |
| RegenerateLevel.CoveringNoneAfter | src/app/app/regenerate_level.rs:75 | once the segments have run out, they stay out for every later coordinate |
| RegenerateLevel.SegmentTracker.constructor | src/app/app/regenerate_level.rs:57-68 | nothing pulled, no current segment, next boundary 0 |
| RegenerateLevel.SegmentTracker.Next | src/app/app/regenerate_level.rs:70-90 | at or past the boundary it pulls the next segment and sets next = coordinate + trunc(total*size), or returns None when none is left; below it, it returns the current segment; asked for 0, 1, 2, ... in turn, it returns the segment covering each |
| RegenerateLevel.Widths | src/app/app/regenerate_level.rs:16-21 | a chunk's size is its width |
| RegenerateLevel.Heights | src/app/app/regenerate_level.rs:23-28 | a layer's size is its height |
| RegenerateLevel.GeneratedCell | src/app/app/regenerate_level.rs:138-160 | a generated cell keeps its seed |
| RegenerateLevel.GenerateRows | src/app/app/regenerate_level.rs:148-160 | a column's rows from y up, each taking its layer's material until the layers run out; its own contract keeps the buffer length, and the tile-by-tile result is RegenerateLevel.GenerateRowsCell |
| RegenerateLevel.GenerateRowsStep | src/app/app/regenerate_level.rs:155-159 | a row with a layer takes that layer's material, then the rows above it are generated |
| RegenerateLevel.GenerateRowsStops | src/app/app/regenerate_level.rs:154-157 | a column's generation stops at its top or at the first row without a layer |
| RegenerateLevel.GenerateRowsCell | src/app/app/regenerate_level.rs:154-160 | each row from y up takes the material of the layer covering it, if any; every other tile is left alone |
| RegenerateLevel.GenerateFrom | src/app/app/regenerate_level.rs:138-161 | columns from x on, each generated from its chunk until the chunks run out; its own contract keeps the buffer length, and the tile-by-tile result is RegenerateLevel.GenerateFromCell |
| RegenerateLevel.GenerateFromColumn | src/app/app/regenerate_level.rs:138-161 | a column with a chunk is generated from that chunk's layers, then the columns after it |
| RegenerateLevel.GenerateFromStops | src/app/app/regenerate_level.rs:139-141 | generation stops for good at the first column without a chunk |
| RegenerateLevel.GenerateFromBefore | src/app/app/regenerate_level.rs:138-161 | tiles before the first generated column are left alone |
| RegenerateLevel.GenerateFromTail | src/app/app/regenerate_level.rs:133-138 | the tail shorter than a column is left alone |
| RegenerateLevel.GenerateFromCell | src/app/app/regenerate_level.rs:138-161 | row r of column x takes the material of the layer covering r, in the chunk covering x |
| RegenerateLevel.GenerateColumn | src/app/app/regenerate_level.rs:143-160 | the inner loop with a fresh layer tracker leaves the column as `GenerateRows` specifies |
| RegenerateLevel.GenerateColumnWith | src/app/app/regenerate_level.rs:148-160 | the inner loop driven by a layer tracker leaves the buffer as `GenerateRows` |
| RegenerateLevel.GenerateRow | src/app/app/regenerate_level.rs:155-159 | one row: with a layer, the cell takes its material and the tracker covers the next row; without one, nothing changes and the column is done |
| RegenerateLevel.GenerateColumns | src/app/app/regenerate_level.rs:123-162 | the buffer becomes `GenerateFrom` of the level's chunks, scaled to the requested width and height and walked over the map's own column height |
| RegenerateLevel.GenerateColumnsWith | src/app/app/regenerate_level.rs:133-161 | the outer loop driven by a chunk tracker leaves the buffer as `GenerateFrom` |
| RegenerateLevel.GenerateNextColumn | src/app/app/regenerate_level.rs:138-161 | one outer turn: generates the next column from its chunk, or reports that the columns or chunks have run out |
| RegenerateLevel.GenerateChunkColumn | src/app/app/regenerate_level.rs:139-160 | one column: with a chunk it is generated and the tracker covers the next column; without one, nothing changes and generation ends |
| RegenerateLevel.Reseeded | src/app/app/regenerate_level.rs:116-121 | the tiles before index n carry their rolled seeds and the rest are unchanged; its own contract keeps the buffer length, and RegenerateLevel.ReseededStep relates it to rolling one more tile |
| RegenerateLevel.ReseededStep | src/app/app/regenerate_level.rs:117-120 | rolling tile n's seed extends the rolled prefix by one tile |
| RegenerateLevel.RollColumn | src/app/app/regenerate_level.rs:117-120 | every tile of one column gets the seed rolled for its index |
| RegenerateLevel.RollSeedsWith | src/app/app/regenerate_level.rs:117-120 | every tile of the remaining columns gets its rolled seed |
| RegenerateLevel.RollSeeds | src/app/app/regenerate_level.rs:116-121 | every tile of the whole columns gets the rolled seed for its index; the tail keeps its own |
| RegenerateLevel.BedrockFrom | src/app/app/regenerate_level.rs:164-170 | Bedrock in the bottom tile of every whole column; its own contract keeps the buffer length, and the tile-by-tile result is RegenerateLevel.BedrockFromCell |
| RegenerateLevel.BedrockFromColumn | src/app/app/regenerate_level.rs:165-168 | a whole column gets Bedrock in its bottom tile, then the columns after it |
| RegenerateLevel.BedrockFromStops | src/app/app/regenerate_level.rs:165 | nothing changes once no whole column is left |
| RegenerateLevel.BedrockFromBefore | src/app/app/regenerate_level.rs:164-170 | tiles before the first filled column are left alone |
| RegenerateLevel.BedrockFromCell | src/app/app/regenerate_level.rs:166-167 | row 0 of each whole column becomes Bedrock with its seed kept, and every other row is left alone |
| RegenerateLevel.BedrockFromTail | src/app/app/regenerate_level.rs:164-170 | the tail shorter than a column is left alone |
| RegenerateLevel.FillBedrockWith | src/app/app/regenerate_level.rs:165-169 | the loop over the remaining columns leaves the buffer as `BedrockFrom` |
| RegenerateLevel.FillBedrock | src/app/app/regenerate_level.rs:164-170 | the buffer becomes `BedrockFrom` of the old buffer |
| RegenerateLevel.LevelChunks | src/app/app/regenerate_level.rs:128-146 | the chunks across the requested width each carry layers sized against the requested height |
| RegenerateLevel.Regenerated | src/app/app/regenerate_level.rs:100-112 | the buffer left by the four steps has `product()` tiles; its tiles are stated by RegenerateLevel.RegeneratedColumnCell and RegeneratedTail |
| RegenerateLevel.RegenerateLevel | src/app/app/regenerate_level.rs:94-113 | the height is kept, and the buffer becomes the resized default tiles with seeds rolled, then columns generated, then Bedrock filled |
| RegenerateLevel.RegeneratedColumnCell | src/app/app/regenerate_level.rs:100-112 | row y of whole column x holds its rolled seed, with Bedrock when y is 0, and otherwise the material of the layer covering y in the chunk covering x (Air where there is none) |
| RegenerateLevel.GeneratedColumnCell | src/app/app/regenerate_level.rs:106-112 | generation followed by the Bedrock fill, as seen from one tile of a whole column |
| RegenerateLevel.RegeneratedTail | src/app/app/regenerate_level.rs:102-112 | the tail of the buffer shorter than a column keeps the default tile |
| BuiltinLevels.LoadBuiltin | src/level/level/load_builtin.rs:7-105 | Some iff the name is field, mountain, valley or lake; each builtin has at least one chunk, terrain heights in [0,1] and creatour "Achernar" |
| BuiltinLevels.BuiltinTerrain | src/level/level/load_builtin.rs:9-101 | field is Dirt 1/3; mountain is Stone 1/3, Stone 1/2; valley is Stone 1/2, Dirt 1/4, Stone 1/2; lake is Dirt 1/4, Water 1/8, Dirt 1/4 |
| BuiltinLevels.BuiltinNameIsCapitalisedKey | src/level/level/load_builtin.rs:9-101 | each builtin's display name is its key with the first letter capitalised |
| BuiltinLevels.DefaultLevelMissing | src/level/level/mod.rs:19-24 | "lava_lake", which `Level::default` unwraps, is not a builtin |
| BuiltinLevels.LookupIsCaseSensitive | src/level/level/load_builtin.rs:8-104 | "Field" and "LAKE" are not found |
| LoadLevels.LastDot | src/app/app/load_level.rs:23 | the last dot of a file name: in range and a dot, with no dot after it; None iff the name has no dot |
| LoadLevels.Push | src/app/app/load_level.rs:17-20 | pushing a component appends it, and pushing "" changes nothing |
| LoadLevels.FileName | src/app/app/load_level.rs:23 | the file name is the last component other than `.`, which is never `..`; None when there is no such component or it is `..` |
| LoadLevels.SetExtension | src/app/app/load_level.rs:23 | a path without a file name is unchanged; otherwise the path is cut after its file name, so trailing `.` components are dropped, and the name's stem gets `.` and the extension, with the components before it kept |
| LoadLevels.LoadLevel | src/app/app/load_level.rs:10-30 | Ok iff the name is a builtin, and then the builtin level; otherwise Err(UnknownLevel(name)), after logging the path that pushing `level` and the name onto the base and setting the extension `toml` gives |
| LoadLevels.LevelPathOfPlainName | src/app/app/load_level.rs:15-23 | a non-empty name without a dot gives base/level/name.toml |
| LoadLevels.LevelPathOfDottedName | src/app/app/load_level.rs:15-23 | the extension after the name's last dot is replaced by toml |
| LoadLevels.LevelPathOfEmptyName | src/app/app/load_level.rs:15-23 | an empty name gives base/level.toml |
| LoadLevels.LevelPathOfCurrentDirName | src/app/app/load_level.rs:15-23 | the name `.` gives base/level.toml, since `set_extension` skips the `.` component |
| LoadLevels.LevelPathOfParentDirName | src/app/app/load_level.rs:15-23 | the name `..` gives base/level/.. with no extension, since that path has no file name |
| LoadLevels.LevelPathUnderBase | src/app/app/load_level.rs:15-23 | the base directory is a proper component prefix of the level path |
| NestedMaps.Filled | src/level/map/mod.rs:22-28 | width columns, each of height Air tiles |
| NestedMaps.Lookup | src/level/map/mod.rs:32-35 | Some iff x is a column and y a row of that column, and then that tile |
| NestedMaps.LookupWritten | src/level/map/mod.rs:39-80 | a write through a cell reference changes that cell and no other, and keeps every column's length |
| NestedMaps.LookupFilled | src/level/map/mod.rs:22-35 | in a new map every in-range cell is Air and every other lookup is None |
| NestedMaps.Map.constructor | src/level/map/mod.rs:22-28 | the columns are `Filled(width, height)` |
| NestedMaps.Map.Get | src/level/map/mod.rs:32-35 | the lookup of (x, y) |
| NestedMaps.Map.GetMut | src/level/map/mod.rs:39-42 | a reference to (x, y) exactly when `get` finds it |
| NestedMaps.Map.Index | src/level/map/mod.rs:70-72 | in range, the same tile as `get` |
| NestedMaps.Map.IndexMut | src/level/map/mod.rs:78-80 | in range, the same reference as `get_mut` |
| NestedMaps.Map.Store | src/level/map/mod.rs:39-80 | a write through a reference changes exactly that cell |
| MapIters.SaturatingAdd | src/level/map_iter/mod.rs:38-49 | the sum, capped at u32::MAX |
| MapIters.SizeHint | src/level/map_iter/mod.rs:59-64 | the hint is (0, Some(u32::MAX*u32::MAX)) |
| MapIters.VisitsAreFirstColumn | src/level/map_iter/mod.rs:36-56 | the iteration yields the rows of column 0 in order, each labelled x = 1; a map without columns yields nothing |
| MapIters.VisitsMissCells | src/level/map_iter/mod.rs:36-56 | with two or more columns, some cells are never yielded |
| MapIters.SizeHintSound | src/level/map_iter/mod.rs:59-64 | the hint bounds the number of items left |
| MapIters.MapIter.constructor | src/level/map_iter/mod.rs:19-27 | nothing yielded yet |
| MapIters.MapIter.Next | src/level/map_iter/mod.rs:36-56 | the k-th call yields the k-th visit (x = 1, y = k, the tile of column 0 at row k); after column 0, every call yields None |
| MapIters.MapIterMut.constructor | src/level/map_iter_mut/mod.rs:19-27 | nothing yielded yet, over the map's shape |
| MapIters.MapIterMut.Next | src/level/map_iter_mut/mod.rs:36-56 | the k-th call yields a reference to row k of column 0, labelled (1, k); after column 0, every call yields None |
| LevelGenerators.Default | src/level/level_generator/mod.rs:13-42 | the default generator is FIELD: terrain height 0x30 and Dirt |
| LevelGenerators.ShapeAll | src/level/level_generator/mod.rs:25-31 | shaping the visited cells keeps the map's shape; the result is stated by LevelGenerators.ShapeAllPartial |
| LevelGenerators.ShapeAllPartial | src/level/level_generator/mod.rs:25-31 | after c visits, the map is shaped in rows 0 to c-1 of column 0 and Air elsewhere |
| LevelGenerators.ShapeStep | src/level/level_generator/mod.rs:26-30 | one more visit shapes one more row |
| LevelGenerators.GeneratedShape | src/level/level_generator/mod.rs:25-31 | in the result, column 0 holds the terrain (Bedrock in the top row, ground below the terrain height, Air between) and every other column is Air |
| LevelGenerators.Generate | src/level/level_generator/mod.rs:19-34 | for a non-empty size, a fresh map that is the default map shaped at every cell the iterator yields |
| LevelGenerators.ShapeNextCell | src/level/level_generator/mod.rs:25-31 | one loop turn: shapes the next yielded cell, or reports that the iterator is done |
| PlayerLists.Position | src/player/player_list/mod.rs:34 | the first index with that name; None iff no player has it |
| PlayerLists.PlayerList.constructor | src/player/player_list/mod.rs:11-12 | the list starts empty |
| PlayerLists.PlayerList.Clear | src/player/player_list/mod.rs:17-19 | the list becomes empty |
| PlayerLists.PlayerList.Insert | src/player/player_list/mod.rs:23-31 | returns whether the name was already present; the list becomes `Inserted`: unchanged if present, else the player appended |
| PlayerLists.PlayerList.Remove | src/player/player_list/mod.rs:33-38 | returns the first player with that name and removes it, keeping the others in order; None and no change when absent |
| PlayerLists.PlayerList.Len | src/player/player_list/mod.rs:60-62 | the number of players |
| PlayerLists.PlayerList.IsEmpty | src/player/player_list/mod.rs:67-69 | empty iff the length is 0 |
| PlayerLists.InsertedKeepsUnique | src/player/player_list/mod.rs:23-31 | unique names stay unique after an insert, and the name is then present |
| PlayerLists.InsertedIdempotent | src/player/player_list/mod.rs:24-26 | inserting the same player twice is the same as once |
| PlayerLists.RemovedKeepsUnique | src/player/player_list/mod.rs:33-38 | unique names stay unique after a remove, and the name is then absent |
| PlayerLists.RemovedLength | src/player/player_list/mod.rs:33-38 | a remove shortens the list by one iff the name was present, and otherwise changes nothing |
| PlayerLists.RemoveUndoesInsert | src/player/player_list/mod.rs:23-38 | removing a newly inserted name gives back the list and the player |
| RespawnPlayers.SpawnChunks | src/app/app/respawn_players.rs:11-18 | exactly the indices of the spawnable chunks, in ascending order |
| RespawnPlayers.RespawnPlayers | src/app/app/respawn_players.rs:8-38 | Err(MissingSpawnChunk) iff no chunk is spawnable, and Ok otherwise |
| Keyboard.SaturatingAddSigned | src/app/app/handle_keyboard.rs:41 | the sum, clamped to [0, u16::MAX] |
| Keyboard.Max1 | src/app/app/handle_keyboard.rs:42 | at least 1, and the input unless it is 0 |
| Keyboard.App.constructor | src/app/app/handle_keyboard.rs:38-50 | the rate and pause flag are the given ones |
| Keyboard.React | src/app/app/handle_keyboard.rs:18-66 | exit is asked only for Q while paused; the pause flag changes only on Escape; the rate changes only on Minus or Equal, and is then at least 1 |
| Keyboard.App.HandleKeyboard | src/app/app/handle_keyboard.rs:11-67 | the new rate, pause flag and exit request are `React` of the old state and the event |
| Keyboard.IgnoredEvents | src/app/app/handle_keyboard.rs:18-24 | repeats and releases change nothing and do not exit |
| Keyboard.RateKeys | src/app/app/handle_keyboard.rs:26-47 | Minus lowers the rate by one, but not below 1; Equal raises it by one, saturating at u16::MAX; the rate is at least 1 after either; the pause flag is kept and nothing exits |
| Keyboard.RateKeysUndo | src/app/app/handle_keyboard.rs:31-46 | Equal then Minus restores the rate (raised to 1 if it was 0); Minus then Equal restores a rate of at least 2 |
| Keyboard.EscapeToggles | src/app/app/handle_keyboard.rs:49-57 | Escape toggles the pause flag, and twice restores it |
| Keyboard.ExitOnlyOnPausedQ | src/app/app/handle_keyboard.rs:59-65 | the loop exits iff a fresh Q press arrives while paused; Q and other keys change no state |
| Colours.New | src/graphics/rgba/mod.rs:18-21 | unpacking the new colour gives back the four components |
| Colours.Get | src/graphics/rgba/mod.rs:25-28 | the four components, in order, are the whole buffer |
| Colours.GetNew | src/graphics/rgba/mod.rs:18-28 | unpacking a packed colour gives back its four components |
| Colours.NewGet | src/graphics/rgba/mod.rs:18-28 | packing the unpacked components gives back the colour |
| Colours.Default | src/graphics/rgba/mod.rs:38-43 | the default colour is (0, 0, 0, 0xFF) |
| Colours.EqIffSameColour | src/graphics/rgba/mod.rs:52-57 | equal iff all four components are equal |
| Colours.Eq | src/graphics/rgba/mod.rs:52-57 | two colours are `eq` exactly when they are the same colour |
| Colours.CompareU8 | src/graphics/rgba/mod.rs:62 | Less iff smaller, and Equal iff equal |
| Colours.PartialCmp | src/graphics/rgba/mod.rs:59-64 | never None, and Equal exactly for the same colour; PartialCmpIsLexicographic gives Less and Greater |
| Colours.PartialCmpIsLexicographic | src/graphics/rgba/mod.rs:59-64 | the comparison is always defined and lexicographic on (r, g, b, a), with Equal iff equal |
| Colours.PartialCmpAntisymmetric | src/graphics/rgba/mod.rs:59-64 | x < y iff y > x |
| Colours.PartialCmpTransitive | src/graphics/rgba/mod.rs:59-64 | the order is transitive |
| Versions.Decimal | src/version/version/mod.rs:25 | a number's decimal text is non-empty digits without a leading zero |
| Versions.ParseDecimalInverse | src/version/version/mod.rs:25 | reading the decimal text back gives the number |
| Versions.Display | src/version/version/mod.rs:22-33 | at least five characters, starting and ending with a digit; DisplayParts and DisplayInjective state its layout and that it is injective |
| Versions.DisplayCurrent | src/version/version/mod.rs:14-33 | `CURRENT`, version 0.5.0 with pre-release 5, displays as "0.5.0-5" |
| Versions.DisplayHasPreIff | src/version/version/mod.rs:27-29 | the text holds a '-' iff there is a pre-release number |
| Versions.DisplayParts | src/version/version/mod.rs:24-31 | the text is major.minor.patch, then -pre when there is one |
| Versions.DisplayInjective | src/version/version/mod.rs:5-33 | two versions displayed alike are equal (field by field) |
| Errors.FieldName | src/error/error/mod.rs:31-37 | the section glued to the field with no separator, or the field alone |
| Errors.Source | src/error/error/mod.rs:54-68 | Some iff InvalidLevel or UnknownLevel, and then that variant's source |
| Errors.ExitCode | src/error/error/mod.rs:70-84 | 2 iff MissingDataDir, UnknownCliArg or UnknownLevel; 3 iff InvalidLevel or MissingSpawnChunk |
| Errors.Display | src/error/error/mod.rs:27-53 | never empty; an invalid or unknown level's message ends with its cause's text, and an unknown argument's with the argument and a closing quote |
| Errors.DisplayOpening | src/error/error/mod.rs:40-50 | each message opens with its variant's fixed template |
| Errors.DisplayIdentifiesVariant | src/error/error/mod.rs:26-52 | two errors displayed alike are the same variant |
| Errors.ExitCodeIsFailure | src/error/error/mod.rs:70-84 | no error exits with 0 |

## Left out

- Rendering, the GPU and window plumbing, mouse zoom and pan, the event loop, process start-up, the data directory, logging and networking are not modelled.
- The `BlockTags` operator impls (`&`, `|`, `^`, `!`, `-` and their assigning forms) only call the named methods. The model has one function per operation.
- The packed byte layout of a tile, and the table from materials to tags behind `is_static`, `is_liquid` and `is_emtpy`, are not modelled. The three accessors are uninterpreted predicates of the material.
- Random numbers are inputs. The tick's rolls and the rolled seeds are functions from an index to a value. The distribution of `rand::random` is not modelled.
- `f64` values are exact reals: map sample coordinates, chunk widths, layer heights and builtin terrain heights. Rounding and NaN are not modelled. `as u32` is `Floor` on the non-negative values these code paths reach.
- Slices and raw pointers are index ranges over the map's one array. Aliasing through `&mut` is not modelled beyond that.
- The older map and generator store a write through `&mut Block` as an explicit `Store` of a cell reference.
- RegenerateLevel.RegenerateLevel: requires every chunk width and layer height to lie in [0, 1]. The source checks this only when the tracker pulls a segment, and panics. A segment it never reaches may lie outside the range in the source, but not in the model.
- RegenerateLevel.RegenerateLevel: the `chunks.len() <= 255` assertion is a precondition, so the panic path is not modelled.
- RegenerateLevel.SegmentTracker.Next: the u32 boundary `coordinate + width` is an unbounded `nat`. It cannot wrap for map sizes whose product fits in u32.
- LevelGenerators.Generate: the `width > 0` and `height > 0` assertions are a precondition, so the panic path is not modelled.
- NestedMaps.Map.Index: indexing out of range panics in the source. Here it is a precondition.
- NestedMaps.Map.IndexMut: indexing out of range panics in the source. Here it is a precondition.
- LoadLevels.LoadLevel: paths are sequences of components. Absolute components, separators inside a name, and the rest of `Path::push` are not modelled.
- LoadLevels.LevelPathUnderBase: states only that the base is a component prefix. Components are not resolved, so for the name `..` the path base/level/.. has the base as a prefix yet names the base directory itself (LevelPathOfParentDirName).
- FlatMap.Map.Width: the source's `assert_unchecked(width % 2 == 0)` and its promise that the buffer length is a multiple of the height are not preconditions. After `resize` to a size of another height (as `regenerate_level` may do) they can fail, which is undefined behaviour in the source. The model returns the rounded-down quotient instead.
- FlatMap.Map.Size: the even, non-zero width that `new_unchecked` assumes is a precondition. The undefined behaviour when it fails after such a `resize` is not modelled.
- LoadLevels.LoadLevel: the error is `UnknownLevel { name }` as this file builds it. The error module's own `UnknownLevel` carries a path and a source.
- BuiltinLevels.LoadBuiltin: the builtin levels name a `Material::Stone` that the material enum of the same code lacks. Their grounds are a separate three-value enum (Dirt, Stone, Water).
- PlayerLists: a player's controls are an abstract type. `send_message_to_all` is not modelled: it writes to TCP streams, through a `connexion` field that `Player` in this code lacks.
- The keyboard handler's `event_loop.exit()` call is an `exit` result.
- Seeds.Sample: the random byte is the input.
- Seeds.Compare: states equality and Less of the derived order; Greater is the remaining case.
- ColumnWindows.ColumnWindowsMut.Over: requires a column of at least one tile. The column iterator always yields one, because the map height is non-zero. The debug assertion that the length is even is not modelled.
- Tick.MinSeed: the u64 intermediate is an unbounded integer, with its bound stated in the contract.
- A `Columns` clone is a fresh object. The borrow that ties it to the map is not modelled.

## Findings

| source | as written | input that shows it | evidently intended | confidence | as-written member | corrected member |
|---|---|---|---|---|---|---|
| src/level/block_tags/mod.rs:77-80 | `difference` is `wrapping_sub` of the two bit masks, which is set difference only when the second operand is a subset of the first | `STATIC.difference(LIQUID)` is `0b01 - 0b10`, which wraps to ALL (every bit set) instead of STATIC | the bits of `self` not in `other` (`self & !other`), like its siblings `union`, `intersection` and `symmetric_difference` | not executed; the name and the bitwise sibling methods indicate set difference | Tags.Difference, Tags.DifferenceCounterexample | Tags.SetDifference, Tags.DifferenceIsSetDifferenceIffSubset |
