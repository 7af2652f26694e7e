/**
 * A colour as four bytes stored in one buffer, red first.  Equality and
 * ordering go through the unpacked quadruple.
 */
module Colours {
  import opened Base

  /** The `[u8; 4]` buffer of an `Rgba`. */
  type Buffer = s: seq<u8> | |s| == 4 witness [0, 0, 0, 0]

  datatype Rgba = Rgba(buf: Buffer)

  /** `Rgba::new`: the components, in order, as the buffer. */
  function New(r: u8, g: u8, b: u8, a: u8): (c: Rgba)
    ensures Get(c) == (r, g, b, a)
  {
    Rgba([r, g, b, a])
  }

  /** `Rgba::get`: the buffer unpacked into its four components. */
  function Get(c: Rgba): (q: (u8, u8, u8, u8))
    ensures c.buf == [q.0, q.1, q.2, q.3]
  {
    (c.buf[0], c.buf[1], c.buf[2], c.buf[3])
  }

  /** Unpacking a packed colour gives back its components. */
  lemma GetNew(r: u8, g: u8, b: u8, a: u8)
    ensures Get(New(r, g, b, a)) == (r, g, b, a)
  {
  }

  /** Packing the unpacked components gives back the colour. */
  lemma NewGet(c: Rgba)
    ensures New(Get(c).0, Get(c).1, Get(c).2, Get(c).3) == c
  {
    assert New(Get(c).0, Get(c).1, Get(c).2, Get(c).3).buf == c.buf;
  }

  /** `Default`: opaque black. */
  function Default(): (c: Rgba)
    ensures Get(c) == (0x00, 0x00, 0x00, 0xFF)
  {
    New(0x00, 0x00, 0x00, 0xFF)
  }

  /** `PartialEq::eq`: the unpacked quadruples are equal. */
  predicate Eq(x: Rgba, y: Rgba): (r: bool)
    ensures r <==> x == y
  {
    Get(x) == Get(y)
  }

  /** Two colours are equal exactly when all four components are. */
  lemma EqIffSameColour(x: Rgba, y: Rgba)
    ensures Eq(x, y) <==> x == y
    ensures Eq(x, y) <==> x.buf[0] == y.buf[0] && x.buf[1] == y.buf[1] && x.buf[2] == y.buf[2] && x.buf[3] == y.buf[3]
  {
    if Eq(x, y) {
      NewGet(x);
      NewGet(y);
    }
  }

  /** The ordering of two bytes. */
  function CompareU8(x: u8, y: u8): (o: Ordering)
    ensures o == Less <==> x < y
    ensures o == Equal <==> x == y
  {
    if x < y then Less else if x == y then Equal else Greater
  }

  /** The tuple `partial_cmp`: the first component that differs decides. */
  function PartialCmp(x: Rgba, y: Rgba): (o: Option<Ordering>)
    ensures o.Some?
    ensures o == Some(Equal) <==> x == y
  {
    var (r0, g0, b0, a0) := Get(x);
    var (r1, g1, b1, a1) := Get(y);
    if r0 != r1 then Some(CompareU8(r0, r1))
    else if g0 != g1 then Some(CompareU8(g0, g1))
    else if b0 != b1 then Some(CompareU8(b0, b1))
    else Some(CompareU8(a0, a1))
  }

  /** Lexicographic order on the components, written out component by component. */
  predicate LexLess(x: Rgba, y: Rgba)
  {
    x.buf[0] < y.buf[0]
    || (x.buf[0] == y.buf[0] && x.buf[1] < y.buf[1])
    || (x.buf[0] == y.buf[0] && x.buf[1] == y.buf[1] && x.buf[2] < y.buf[2])
    || (x.buf[0] == y.buf[0] && x.buf[1] == y.buf[1] && x.buf[2] == y.buf[2] && x.buf[3] < y.buf[3])
  }

  /**
   * Colours are totally ordered: `partial_cmp` never answers None, answers
   * Equal exactly for equal colours and Less exactly for lexicographically
   * smaller ones.
   */
  lemma PartialCmpIsLexicographic(x: Rgba, y: Rgba)
    ensures PartialCmp(x, y).Some?
    ensures PartialCmp(x, y) == Some(Equal) <==> Eq(x, y)
    ensures PartialCmp(x, y) == Some(Less) <==> LexLess(x, y)
    ensures PartialCmp(x, y) == Some(Greater) <==> LexLess(y, x)
  {
    EqIffSameColour(x, y);
  }

  /** Swapping the operands reverses the answer. */
  lemma PartialCmpAntisymmetric(x: Rgba, y: Rgba)
    ensures PartialCmp(x, y) == Some(Less) <==> PartialCmp(y, x) == Some(Greater)
  {
    PartialCmpIsLexicographic(x, y);
    PartialCmpIsLexicographic(y, x);
  }

  /** The order is transitive. */
  lemma PartialCmpTransitive(x: Rgba, y: Rgba, z: Rgba)
    requires PartialCmp(x, y) == Some(Less) && PartialCmp(y, z) == Some(Less)
    ensures PartialCmp(x, z) == Some(Less)
  {
    PartialCmpIsLexicographic(x, y);
    PartialCmpIsLexicographic(y, z);
    PartialCmpIsLexicographic(x, z);
  }
}
