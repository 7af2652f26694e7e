/**
 * The level description that level generation and respawning read: a level
 * is a list of chunks laid out left to right, each a fraction of the map's
 * width, and each chunk a list of layers stacked bottom to top, each a
 * fraction of the map's height.  Fractions are exact reals.
 */
module AppLevels {
  import opened Materials

  /** `Layer`: its height relative to the map height, and its material. */
  datatype Layer = Layer(height: real, material: Material)

  /** A chunk: its width relative to the map width, its layers, and whether players may spawn in it. */
  datatype Chunk = Chunk(width: real, layers: seq<Layer>, isSpawnable: bool)

  datatype Level = Level(name: string, chunks: seq<Chunk>)
}
