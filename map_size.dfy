/** The validated dimensions of the flat map. */
module MapSizes {
  import opened Base

  /** The two axes as stored; only admissible pairs form a `MapSize`. */
  datatype Axes = Axes(width: u32, height: u32)

  /** Both axes even and non-zero, and their product representable in a u32. */
  predicate Admissible(width: int, height: int) {
    width % 2 == 0 && height % 2 == 0 && width != 0 && height != 0 && width * height <= U32_MAX
  }

  type MapSize = a: Axes | Admissible(a.width, a.height) witness Axes(2, 2)

  /** `MapSize::new`: rejects odd axes, zero axes and an overflowing product. */
  function New(width: u32, height: u32): (r: Option<MapSize>)
    ensures r.None? <==> width % 2 != 0 || height % 2 != 0 || width == 0 || height == 0 || width * height > U32_MAX
    ensures r.Some? ==> Get(r.value) == (width, height)
  {
    if width % 2 != 0 then None
    else if height % 2 != 0 then None
    else if width == 0 then None
    else if height == 0 then None
    else if width * height > U32_MAX then None
    else Some(NewUnchecked(width, height))
  }

  /** `MapSize::new_unchecked`: the caller vouches for the checks `new` makes. */
  function NewUnchecked(width: u32, height: u32): (s: MapSize)
    requires Admissible(width, height)
    ensures Width(s) == width && Height(s) == height
  {
    Axes(width, height)
  }

  function Get(s: MapSize): (r: (u32, u32))
    ensures r.0 == Width(s) && r.1 == Height(s)
  {
    (Width(s), Height(s))
  }

  function Width(s: MapSize): (w: u32)
    ensures w % 2 == 0 && w > 0
  {
    s.width
  }

  function Height(s: MapSize): (h: u32)
    ensures h % 2 == 0 && h > 0
  {
    s.height
  }

  /** The product never overflows, and it is a multiple of both axes. */
  function Product(s: MapSize): (p: u32)
    ensures p == Width(s) * Height(s)
    ensures p % Height(s) == 0 && p / Height(s) == Width(s)
    ensures p % 4 == 0 && p >= 4
  {
    ProductFacts(Width(s), Height(s));
    Width(s) * Height(s)
  }

  lemma ProductFacts(w: nat, h: nat)
    requires w % 2 == 0 && h % 2 == 0 && w > 0 && h > 0
    ensures (w * h) % h == 0 && (w * h) / h == w
    ensures (w * h) % 4 == 0 && w * h >= 4
  {
    ExactQuotient(w, h);
    var a, b := w / 2, h / 2;
    assert w * h == 4 * (a * b) by {
      assert w == 2 * a && h == 2 * b;
    }
    assert a * b >= 1 by {
      assert a >= 1 && b >= 1;
    }
  }

  /** `q * d` divides by `d` to exactly `q`. */
  lemma ExactQuotient(q: nat, d: nat)
    requires d > 0
    ensures (q * d) % d == 0 && (q * d) / d == q
  {
    var p := q * d;
    var k, r := p / d - q, p % d;
    assert d * (p / d) + r == p;
    assert d * k == -r by {
      assert d * (p / d) == d * k + d * q;
    }
    assert k >= 1 ==> d * k >= d;
    assert k <= -1 ==> d * k <= 0 - d as int;
  }

  /** Every size is reproduced by `new` from its own axes. */
  lemma NewGetRoundTrip(s: MapSize)
    ensures New(Width(s), Height(s)) == Some(s)
  {
  }

  /** `new` accepts exactly the admissible pairs. */
  lemma NewAcceptsAdmissible(width: u32, height: u32)
    ensures New(width, height).Some? <==> Admissible(width, height)
  {
  }

  /** `Default` is 0x180 by 0x100, which `new` accepts. */
  function Default(): (s: MapSize)
    ensures New(0x180, 0x100) == Some(s)
    ensures Product(s) == 0x1_8000
  {
    Axes(0x180, 0x100)
  }
}
