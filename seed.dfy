/** The 2-bit per-tile variant selector. */
module Seeds {
  import opened Base

  /** The stored value is always at most 3 (`rustc_layout_scalar_valid_range_end(0x3)`). */
  type SeedValue = x: u8 | x <= 3

  datatype Seed = Seed(value: SeedValue)

  /** `Seed::new`: the range-checked constructor. */
  function New(value: u8): (r: Option<Seed>)
    ensures r.None? <==> value > 3
    ensures r.Some? ==> ToU8(r.value) == value
  {
    if value > 3 then None else Some(NewUnchecked(value))
  }

  /** `Seed::new_unchecked`: the caller guarantees the range. */
  function NewUnchecked(value: u8): (s: Seed)
    requires value <= 3
    ensures ToU8(s) == value
  {
    Seed(value)
  }

  function ToU8(s: Seed): (v: u8)
    ensures v <= 3
  {
    s.value
  }

  /** Every seed is produced by `new` from its own value. */
  lemma NewToU8RoundTrip(s: Seed)
    ensures New(ToU8(s)) == Some(s)
  {
  }

  /** `Default` is the seed 0. */
  function Default(): (s: Seed)
    ensures New(0) == Some(s)
  {
    Seed(0)
  }

  /** Sampling a seed masks a uniformly drawn byte to its low two bits. */
  function Sample(byte: bv8): (s: Seed)
    ensures ToU8(s) == byte as int % 4
  {
    var masked := byte & 0x3;
    MaskIsMod4(byte);
    Seed(masked as int)
  }

  lemma MaskIsMod4(b: bv8)
    ensures (b & 0x3) as int == b as int % 4
  {
  }

  /** Each seed is sampled from exactly the bytes congruent to it mod 4 (64 of the 256). */
  lemma SampleFibres(byte: bv8, s: Seed)
    ensures Sample(byte) == s <==> byte as int % 4 == ToU8(s)
  {
  }

  /** The derived `Ord` compares the stored value. */
  function Compare(a: Seed, b: Seed): (o: Ordering)
    ensures o == Equal <==> a == b
    ensures o == Less <==> ToU8(a) < ToU8(b)
  {
    if a.value < b.value then Less else if a.value == b.value then Equal else Greater
  }
}
