/**
 * The tile stored in the flat map: a material and a 2-bit seed.
 *
 * The packed tile type itself is not part of this model; only its accessors
 * are used by the simulation.
 */
module Blocks {
  import opened Materials
  import opened Seeds

  datatype Block = Block(material: Material, seed: Seed)

  /**
   * The classification accessors of a tile, as uninterpreted functions of its
   * material: the material-to-tags table they consult is not part of this model.
   */
  datatype Classes = Classes(isStatic: Material -> bool, isLiquid: Material -> bool, isEmpty: Material -> bool)

  /** The default tile: air with the seed 0. */
  function Default(): (b: Block)
    ensures b.material == Materials.Default() && ToU8(b.seed) == 0
  {
    Block(Air, Seeds.Default())
  }

  /** `set_material` replaces the material and keeps the seed. */
  function SetMaterial(b: Block, m: Material): (r: Block)
    ensures r.material == m && r.seed == b.seed
  {
    b.(material := m)
  }

  /** `set_seed` replaces the seed and keeps the material. */
  function SetSeed(b: Block, s: Seed): (r: Block)
    ensures r.material == b.material && r.seed == s
  {
    b.(seed := s)
  }

  /** Setting a material then a seed gives the same tile as the other order. */
  lemma SettersCommute(b: Block, m: Material, s: Seed)
    ensures SetSeed(SetMaterial(b, m), s) == SetMaterial(SetSeed(b, s), m) == Block(m, s)
  {
  }

  predicate IsStatic(classes: Classes, b: Block) {
    classes.isStatic(b.material)
  }

  predicate IsLiquid(classes: Classes, b: Block) {
    classes.isLiquid(b.material)
  }

  predicate IsEmpty(classes: Classes, b: Block) {
    classes.isEmpty(b.material)
  }
}
