/**
 * The table of levels built into the program, looked up by name.  Levels of
 * this table use their own chunk shape: a terrain height as a fraction of
 * the map and a ground material.
 */
module BuiltinLevels {
  import opened Base

  /** The ground materials the table uses. */
  datatype Ground = Dirt | Stone | Water

  datatype Chunk = Chunk(terrainHeight: real, ground: Ground)

  /** `background` is the packed `0xRRGGBBAA` word the colour is built from. */
  datatype Level = Level(name: string, creatour: string, description: string, background: u32, chunks: seq<Chunk>)

  /** The names the table answers to. */
  const NAMES: set<string> := {"field", "mountain", "valley", "lake"}

  /** `Level::load_builtin`: a constant level for each of the four names, None for anything else. */
  function LoadBuiltin(name: string): (r: Option<Level>)
    ensures r.Some? <==> name in NAMES
    ensures r.Some? ==> |r.value.chunks| >= 1
    ensures r.Some? ==> forall i :: 0 <= i < |r.value.chunks| ==> 0.0 <= r.value.chunks[i].terrainHeight <= 1.0
    ensures r.Some? ==> r.value.creatour == "Achernar"
  {
    match name
    case "field" => Some(Level("Field", "Achernar", "A flat field.", 0x9DD8FEFF,
                               [Chunk(1.0 / 3.0, Dirt)]))
    case "mountain" => Some(Level("Mountain", "Achernar", "A simple mountain.", 0xD0D0D0FF,
                                  [Chunk(1.0 / 3.0, Stone), Chunk(0.5, Stone)]))
    case "valley" => Some(Level("Valley", "Achernar", "A simple valley.", 0x017DA9FF,
                                [Chunk(0.5, Stone), Chunk(0.25, Dirt), Chunk(0.5, Stone)]))
    case "lake" => Some(Level("Lake", "Achernar", "A nice lake.", 0xD84F01FF,
                              [Chunk(0.25, Dirt), Chunk(0.125, Water), Chunk(0.25, Dirt)]))
    case _ => None
  }

  /** The ground materials of a level, chunk by chunk. */
  function Grounds(chunks: seq<Chunk>): seq<Ground> {
    seq(|chunks|, i requires 0 <= i < |chunks| => chunks[i].ground)
  }

  /** The terrain heights of a level, chunk by chunk. */
  function Heights(chunks: seq<Chunk>): seq<real> {
    seq(|chunks|, i requires 0 <= i < |chunks| => chunks[i].terrainHeight)
  }

  /** The terrain of each builtin level, chunk by chunk. */
  lemma BuiltinTerrain()
    ensures Grounds(LoadBuiltin("field").value.chunks) == [Dirt]
    ensures Heights(LoadBuiltin("field").value.chunks) == [1.0 / 3.0]
    ensures Grounds(LoadBuiltin("mountain").value.chunks) == [Stone, Stone]
    ensures Heights(LoadBuiltin("mountain").value.chunks) == [1.0 / 3.0, 0.5]
    ensures Grounds(LoadBuiltin("valley").value.chunks) == [Stone, Dirt, Stone]
    ensures Heights(LoadBuiltin("valley").value.chunks) == [0.5, 0.25, 0.5]
    ensures Grounds(LoadBuiltin("lake").value.chunks) == [Dirt, Water, Dirt]
    ensures Heights(LoadBuiltin("lake").value.chunks) == [0.25, 0.125, 0.25]
  {
  }

  /** The display name of a builtin is its key with the first letter capitalised. */
  lemma BuiltinNameIsCapitalisedKey(key: string)
    requires key in NAMES
    ensures LoadBuiltin(key).value.name == [key[0] - 'a' + 'A'] + key[1..]
  {
  }

  /**
   * `Level::default` unwraps the lookup of "lava_lake", which is not in the
   * table: the default level always panics.
   */
  lemma DefaultLevelMissing()
    ensures LoadBuiltin("lava_lake").None?
  {
    assert "lava_lake" !in NAMES by {
      assert |"lava_lake"| == 9;
    }
  }

  /** Names are matched exactly: case matters. */
  lemma LookupIsCaseSensitive()
    ensures LoadBuiltin("Field").None? && LoadBuiltin("LAKE").None?
  {
    assert "Field"[0] != "field"[0];
    assert "LAKE"[0] != "lake"[0];
  }
}
