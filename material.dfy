/** The substances a tile can be made of, and parsing them from their lower-case names. */
module Materials {
  import opened Base

  /** Declared in discriminant order: `Air` is 0 and `Fire` is 17. */
  datatype Material =
    | Air | Bedrock | Rock | Dirt | Sand | Water | Granite | Magma | Basalt
    | Clay | Gravel | Marble | Limestone | Grass | Ice | Wood | Glass | Fire

  const MATERIAL_COUNT: nat := 18

  /** `#[default]` is `Air`. */
  function Default(): (m: Material)
    ensures Discriminant(m) == 0
  {
    Air
  }

  /** The `#[repr(u8)]` discriminant of a material. */
  function Discriminant(m: Material): (d: u8)
    ensures d < MATERIAL_COUNT
  {
    match m
    case Air => 0x0 case Bedrock => 0x1 case Rock => 0x2 case Dirt => 0x3
    case Sand => 0x4 case Water => 0x5 case Granite => 0x6 case Magma => 0x7
    case Basalt => 0x8 case Clay => 0x9 case Gravel => 0xA case Marble => 0xB
    case Limestone => 0xC case Grass => 0xD case Ice => 0xE case Wood => 0xF
    case Glass => 0x10 case Fire => 0x11
  }

  /** `Material::new_unchecked`: the transmute is only sound for a discriminant that exists. */
  function NewUnchecked(value: u8): (m: Material)
    requires value < MATERIAL_COUNT
    ensures Discriminant(m) == value
  {
    match value
    case 0x0 => Air case 0x1 => Bedrock case 0x2 => Rock case 0x3 => Dirt
    case 0x4 => Sand case 0x5 => Water case 0x6 => Granite case 0x7 => Magma
    case 0x8 => Basalt case 0x9 => Clay case 0xA => Gravel case 0xB => Marble
    case 0xC => Limestone case 0xD => Grass case 0xE => Ice case 0xF => Wood
    case 0x10 => Glass case _ => Fire
  }

  /** The discriminants are distinct: decoding a material's own discriminant gives it back. */
  lemma DiscriminantRoundTrip(m: Material)
    ensures NewUnchecked(Discriminant(m)) == m
  {
  }

  /** The error of `FromStr`: it carries the rejected name. */
  datatype MaterialFromStrError = MaterialFromStrError(name: string)

  /** `impl FromStr for Material`: an exact, case-sensitive match on fourteen names. */
  function FromStr(s: string): (r: Result<Material, MaterialFromStrError>)
    ensures r.Err? ==> r.error.name == s
  {
    match s
    case "air" => Ok(Air)
    case "basalt" => Ok(Basalt)
    case "bedrock" => Ok(Bedrock)
    case "clay" => Ok(Clay)
    case "dirt" => Ok(Dirt)
    case "granite" => Ok(Granite)
    case "grass" => Ok(Grass)
    case "gravel" => Ok(Gravel)
    case "limestone" => Ok(Limestone)
    case "magma" => Ok(Magma)
    case "marble" => Ok(Marble)
    case "sand" => Ok(Sand)
    case "rock" => Ok(Rock)
    case "water" => Ok(Water)
    case _ => Err(MaterialFromStrError(s))
  }

  /** The name `FromStr` accepts for a material; `Ice`, `Wood`, `Glass` and `Fire` have none. */
  function AcceptedName(m: Material): (n: Option<string>)
    ensures n.None? <==> m in {Ice, Wood, Glass, Fire}
  {
    match m
    case Air => Some("air") case Basalt => Some("basalt") case Bedrock => Some("bedrock")
    case Clay => Some("clay") case Dirt => Some("dirt") case Granite => Some("granite")
    case Grass => Some("grass") case Gravel => Some("gravel") case Limestone => Some("limestone")
    case Magma => Some("magma") case Marble => Some("marble") case Sand => Some("sand")
    case Rock => Some("rock") case Water => Some("water")
    case Ice => None case Wood => None case Glass => None case Fire => None
  }

  /** Parsing succeeds with `m` exactly on `m`'s accepted name. */
  lemma FromStrExact(s: string, m: Material)
    ensures FromStr(s) == Ok(m) <==> AcceptedName(m) == Some(s)
  {
    if AcceptedName(m) == Some(s) {
      match m
      case Air => case Basalt => case Bedrock => case Clay => case Dirt => case Granite =>
      case Grass => case Gravel => case Limestone => case Magma => case Marble => case Sand =>
      case Rock => case Water =>
      case Ice => case Wood => case Glass => case Fire =>
    }
  }

  /** A string is rejected exactly when it is no material's accepted name. */
  lemma FromStrRejects(s: string)
    ensures FromStr(s).Err? <==> forall m: Material :: AcceptedName(m) != Some(s)
  {
    if FromStr(s).Ok? {
      FromStrExact(s, FromStr(s).value);
    } else {
      forall m: Material ensures AcceptedName(m) != Some(s) {
        FromStrExact(s, m);
      }
    }
  }

  /** Matching is case-sensitive. */
  lemma FromStrCaseSensitive()
    ensures FromStr("Air") == Err(MaterialFromStrError("Air"))
    ensures FromStr("WATER") == Err(MaterialFromStrError("WATER"))
  {
  }
}
