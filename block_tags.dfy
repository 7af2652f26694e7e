/** The 32-bit capability bitset of a block, `BlockTags(u32)`.

    The bitwise operators are defined bit by bit over the low `WIDTH` bits, so that
    every set-like property is proved from what each operator does to one bit. */
module Tags {
  import opened Base

  const WIDTH: nat := 32

  function Pow2(n: nat): (p: nat)
    ensures p >= 1
  {
    if n == 0 then 1 else 2 * Pow2(n - 1)
  }

  lemma Pow2Width()
    ensures Pow2(WIDTH) == U32_MAX + 1
  {
    assert Pow2(8) == 0x100;
    assert Pow2(16) == 0x1_0000;
    assert Pow2(24) == 0x100_0000;
  }

  /** Bit `i` of `x`. */
  predicate Bit(x: nat, i: nat) {
    if i == 0 then x % 2 == 1 else Bit(x / 2, i - 1)
  }

  function LowBit(b: bool): nat {
    if b then 1 else 0
  }

  /** Bitwise or of the low `n` bits. */
  function Or(x: nat, y: nat, n: nat): (r: nat)
    ensures r < Pow2(n)
  {
    if n == 0 then 0 else LowBit(x % 2 == 1 || y % 2 == 1) + 2 * Or(x / 2, y / 2, n - 1)
  }

  /** Bitwise and of the low `n` bits. */
  function And(x: nat, y: nat, n: nat): (r: nat)
    ensures r < Pow2(n)
  {
    if n == 0 then 0 else LowBit(x % 2 == 1 && y % 2 == 1) + 2 * And(x / 2, y / 2, n - 1)
  }

  /** Bitwise exclusive or of the low `n` bits. */
  function Xor(x: nat, y: nat, n: nat): (r: nat)
    ensures r < Pow2(n)
  {
    if n == 0 then 0 else LowBit((x % 2 == 1) != (y % 2 == 1)) + 2 * Xor(x / 2, y / 2, n - 1)
  }

  /** Bitwise not of an `n`-bit number. */
  function Not(x: nat, n: nat): (r: nat)
    requires x < Pow2(n)
    ensures r < Pow2(n)
  {
    Pow2(n) - 1 - x
  }

  lemma {:induction false} OrBit(x: nat, y: nat, n: nat, i: nat)
    requires i < n
    ensures Bit(Or(x, y, n), i) == (Bit(x, i) || Bit(y, i))
  {
    if i > 0 {
      OrBit(x / 2, y / 2, n - 1, i - 1);
    }
  }

  lemma {:induction false} AndBit(x: nat, y: nat, n: nat, i: nat)
    requires i < n
    ensures Bit(And(x, y, n), i) == (Bit(x, i) && Bit(y, i))
  {
    if i > 0 {
      AndBit(x / 2, y / 2, n - 1, i - 1);
    }
  }

  lemma {:induction false} XorBit(x: nat, y: nat, n: nat, i: nat)
    requires i < n
    ensures Bit(Xor(x, y, n), i) == (Bit(x, i) != Bit(y, i))
  {
    if i > 0 {
      XorBit(x / 2, y / 2, n - 1, i - 1);
    }
  }

  lemma {:induction false} NotBit(x: nat, n: nat, i: nat)
    requires x < Pow2(n) && i < n
    ensures Bit(Not(x, n), i) == !Bit(x, i)
  {
    var q, r := x / 2, x % 2;
    var p := Pow2(n - 1);
    assert Pow2(n) == 2 * p;
    assert x == 2 * q + r && q < p;
    var k := p - 1 - q;
    assert Not(x, n) == 2 * k + (1 - r);
    assert Not(x, n) % 2 == 1 - r && Not(x, n) / 2 == k;
    if i > 0 {
      NotBit(q, n - 1, i - 1);
      assert Not(q, n - 1) == k;
    }
  }

  /** A number below `2^n` has no bit at or above `n`. */
  lemma {:induction false} HighBitsClear(x: nat, n: nat, i: nat)
    requires x < Pow2(n) && n <= i
    ensures !Bit(x, i)
  {
    if n == 0 {
      assert x == 0;
      ZeroHasNoBits(i);
    } else {
      HighBitsClear(x / 2, n - 1, i - 1);
    }
  }

  lemma {:induction false} ZeroHasNoBits(i: nat)
    ensures !Bit(0, i)
  {
    if i > 0 {
      ZeroHasNoBits(i - 1);
    }
  }

  /** Two `n`-bit numbers with the same bits are equal. */
  lemma {:induction false} BitsDetermine(x: nat, y: nat, n: nat)
    requires x < Pow2(n) && y < Pow2(n)
    requires forall i :: 0 <= i < n ==> Bit(x, i) == Bit(y, i)
    ensures x == y
  {
    if n > 0 {
      assert Bit(x, 0) == Bit(y, 0);
      forall i | 0 <= i < n - 1
        ensures Bit(x / 2, i) == Bit(y / 2, i)
      {
        assert Bit(x, i + 1) == Bit(y, i + 1);
      }
      BitsDetermine(x / 2, y / 2, n - 1);
    }
  }

  /** Subtracting a bitwise subset borrows nothing: it clears exactly the subset's bits. */
  lemma {:induction false} SubsetSubtraction(x: nat, y: nat, n: nat)
    requires x < Pow2(n) && y < Pow2(n)
    requires forall i :: 0 <= i < n ==> Bit(y, i) ==> Bit(x, i)
    ensures y <= x
    ensures forall i :: 0 <= i < n ==> Bit(x - y, i) == (Bit(x, i) && !Bit(y, i))
  {
    if n > 0 {
      assert Bit(y, 0) ==> Bit(x, 0);
      forall i | 0 <= i < n - 1
        ensures Bit(y / 2, i) ==> Bit(x / 2, i)
      {
        assert Bit(y, i + 1) ==> Bit(x, i + 1);
      }
      SubsetSubtraction(x / 2, y / 2, n - 1);
      assert x - y == (x % 2 - y % 2) + 2 * (x / 2 - y / 2);
      forall i | 0 <= i < n
        ensures Bit(x - y, i) == (Bit(x, i) && !Bit(y, i))
      {
        if i > 0 {
          assert (x - y) / 2 == x / 2 - y / 2;
        }
      }
    }
  }

  // ---------------------------------------------------------------------------
  // The tag set

  datatype BlockTags = BlockTags(bits: u32)

  /** Tag `i` is set. */
  predicate Has(t: BlockTags, i: nat) {
    Bit(t.bits, i)
  }

  const NONE: BlockTags := BlockTags(0x0000_0000)
  /** Not affected by gravity. */
  const STATIC: BlockTags := BlockTags(0x0000_0001)
  const LIQUID: BlockTags := BlockTags(0x0000_0002)
  const HOT: BlockTags := BlockTags(0x0000_0004)
  const COLD: BlockTags := BlockTags(0x0000_0008)
  /** Does not affect collisions. */
  const EMPTY: BlockTags := BlockTags(0x0000_0010)
  /** Cannot be destroyed. */
  const DIVINE: BlockTags := BlockTags(0x0000_0020)
  const STICKY: BlockTags := BlockTags(0x0000_0040)
  /** Burnt by hot blocks. */
  const BERNIE: BlockTags := BlockTags(0x0000_0080)
  /** Evaporated by hot blocks. */
  const VOLATILE: BlockTags := BlockTags(0x0000_0100)
  const ALL: BlockTags := BlockTags(0xFFFF_FFFF)

  /** The nine named tags, in declaration order: tag `k` is bit `k`. */
  const NAMED: seq<BlockTags> := [STATIC, LIQUID, HOT, COLD, EMPTY, DIVINE, STICKY, BERNIE, VOLATILE]

  /** `a.contains(b)`, written as `a | b == a`. */
  predicate Contains(a: BlockTags, b: BlockTags): (r: bool)
    ensures r ==> forall i :: 0 <= i < WIDTH ==> Has(b, i) ==> Has(a, i)
  {
    Pow2Width();
    forall i | 0 <= i < WIDTH ensures Bit(Or(a.bits, b.bits, WIDTH), i) == (Has(a, i) || Has(b, i)) {
      OrBit(a.bits, b.bits, WIDTH, i);
    }
    Or(a.bits, b.bits, WIDTH) == a.bits
  }

  /** `contains` is the subset relation on bits. */
  lemma ContainsIsSubset(a: BlockTags, b: BlockTags)
    ensures Contains(a, b) <==> forall i :: 0 <= i < WIDTH ==> Has(b, i) ==> Has(a, i)
  {
    Pow2Width();
    var o := Or(a.bits, b.bits, WIDTH);
    forall i | 0 <= i < WIDTH ensures Bit(o, i) == (Has(a, i) || Has(b, i)) {
      OrBit(a.bits, b.bits, WIDTH, i);
    }
    if forall i :: 0 <= i < WIDTH ==> Has(b, i) ==> Has(a, i) {
      forall i | 0 <= i < WIDTH ensures Bit(o, i) == Bit(a.bits, i) {
        assert Has(b, i) ==> Has(a, i);
      }
      BitsDetermine(o, a.bits, WIDTH);
    }
  }

  /** `union`, also `|` and `|=`. */
  function Union(a: BlockTags, b: BlockTags): (r: BlockTags)
    ensures forall i :: 0 <= i < WIDTH ==> (Has(r, i) <==> Has(a, i) || Has(b, i))
  {
    Pow2Width();
    forall i | 0 <= i < WIDTH ensures Bit(Or(a.bits, b.bits, WIDTH), i) == (Has(a, i) || Has(b, i)) {
      OrBit(a.bits, b.bits, WIDTH, i);
    }
    BlockTags(Or(a.bits, b.bits, WIDTH))
  }

  /** `intersection`, also `&` and `&=`. */
  function Intersection(a: BlockTags, b: BlockTags): (r: BlockTags)
    ensures forall i :: 0 <= i < WIDTH ==> (Has(r, i) <==> Has(a, i) && Has(b, i))
  {
    Pow2Width();
    forall i | 0 <= i < WIDTH ensures Bit(And(a.bits, b.bits, WIDTH), i) == (Has(a, i) && Has(b, i)) {
      AndBit(a.bits, b.bits, WIDTH, i);
    }
    BlockTags(And(a.bits, b.bits, WIDTH))
  }

  /** `symmetric_difference`, also `^` and `^=`. */
  function SymmetricDifference(a: BlockTags, b: BlockTags): (r: BlockTags)
    ensures forall i :: 0 <= i < WIDTH ==> (Has(r, i) <==> Has(a, i) != Has(b, i))
  {
    Pow2Width();
    forall i | 0 <= i < WIDTH ensures Bit(Xor(a.bits, b.bits, WIDTH), i) == (Has(a, i) != Has(b, i)) {
      XorBit(a.bits, b.bits, WIDTH, i);
    }
    BlockTags(Xor(a.bits, b.bits, WIDTH))
  }

  /** `invert`, also `!`. */
  function Invert(a: BlockTags): (r: BlockTags)
    ensures forall i :: 0 <= i < WIDTH ==> (Has(r, i) <==> !Has(a, i))
  {
    Pow2Width();
    forall i | 0 <= i < WIDTH ensures Bit(Not(a.bits, WIDTH), i) == !Has(a, i) {
      NotBit(a.bits, WIDTH, i);
    }
    BlockTags(Not(a.bits, WIDTH))
  }

  /** `difference`, also `-` and `-=`, as written: `u32::wrapping_sub`, so adding `b` back
      modulo 2^32 restores `a`. */
  function Difference(a: BlockTags, b: BlockTags): (r: BlockTags)
    ensures (r.bits + b.bits) % (U32_MAX + 1) == a.bits
  {
    BlockTags((a.bits - b.bits) % (U32_MAX + 1))
  }

  /** The corrected difference: the tags of `a` that are not in `b`. */
  function SetDifference(a: BlockTags, b: BlockTags): (r: BlockTags)
    ensures forall i :: 0 <= i < WIDTH ==> (Has(r, i) <==> Has(a, i) && !Has(b, i))
  {
    Intersection(a, Invert(b))
  }

  /** Two tag sets with the same tags are equal. */
  lemma TagsDetermine(a: BlockTags, b: BlockTags)
    requires forall i :: 0 <= i < WIDTH ==> (Has(a, i) <==> Has(b, i))
    ensures a == b
  {
    Pow2Width();
    forall i | 0 <= i < WIDTH ensures Bit(a.bits, i) == Bit(b.bits, i) {
      assert Has(a, i) <==> Has(b, i);
    }
    BitsDetermine(a.bits, b.bits, WIDTH);
  }

  lemma InvertInvolutive(a: BlockTags)
    ensures Invert(Invert(a)) == a
  {
    TagsDetermine(Invert(Invert(a)), a);
  }

  /** Wrapping subtraction of a subset clears exactly the subset's tags, without wrapping. */
  lemma DifferenceOfSubset(a: BlockTags, b: BlockTags)
    requires Contains(a, b)
    ensures Difference(a, b) == SetDifference(a, b)
    ensures Difference(a, b).bits == a.bits - b.bits
  {
    Pow2Width();
    ContainsIsSubset(a, b);
    forall i | 0 <= i < WIDTH ensures Bit(b.bits, i) ==> Bit(a.bits, i) {
      assert Has(b, i) ==> Has(a, i);
    }
    SubsetSubtraction(a.bits, b.bits, WIDTH);
    var d := BlockTags(a.bits - b.bits);
    assert Difference(a, b) == d;
    TagsDetermine(d, SetDifference(a, b));
  }

  /** Wrapping subtraction is a set difference only when `b` is a subset of `a`. */
  lemma DifferenceOnlyOfSubset(a: BlockTags, b: BlockTags)
    requires Difference(a, b) == SetDifference(a, b)
    ensures Contains(a, b)
  {
    var c := Intersection(a, b);
    IntersectionIsGreatest(a, b, c);
    SetDifferenceOfIntersection(a, b);
    DifferenceOfSubset(a, c);
    SubtractedSubsetCancels(a, b, c);
  }

  /** Taking away the common part of `b` takes away the same tags as taking away `b`. */
  lemma SetDifferenceOfIntersection(a: BlockTags, b: BlockTags)
    ensures SetDifference(a, Intersection(a, b)) == SetDifference(a, b)
  {
    TagsDetermine(SetDifference(a, Intersection(a, b)), SetDifference(a, b));
  }

  /** When `c` is a subset of `a`, wrapping subtraction of `b` agrees with that of `c` only if `b == c`. */
  lemma SubtractedSubsetCancels(a: BlockTags, b: BlockTags, c: BlockTags)
    requires Contains(a, c) && Difference(a, b) == Difference(a, c)
    ensures b == c
  {
    DifferenceOfSubset(a, c);
    var d := Difference(a, b).bits;
    assert d == a.bits - c.bits;
    assert d == (a.bits - b.bits) % (U32_MAX + 1);
    WrappingSubtractionCancels(a.bits, b.bits, c.bits, d);
  }

  /** `a - c == (a - b) mod 2^32` with `b` and `c` both below 2^32 forces `b == c`. */
  lemma WrappingSubtractionCancels(a: u32, b: u32, c: u32, d: int)
    requires d == (a - b) % (U32_MAX + 1)
    requires d == a - c
    ensures b == c
  {
    assert (a - b) % (U32_MAX + 1) == if b <= a then a - b else a - b + U32_MAX + 1;
  }

  lemma DifferenceIsSetDifferenceIffSubset(a: BlockTags, b: BlockTags)
    ensures Difference(a, b) == SetDifference(a, b) <==> Contains(a, b)
  {
    if Contains(a, b) {
      DifferenceOfSubset(a, b);
    }
    if Difference(a, b) == SetDifference(a, b) {
      DifferenceOnlyOfSubset(a, b);
    }
  }

  /** An input on which `difference` is not a set difference: STATIC minus LIQUID is every tag. */
  lemma DifferenceCounterexample()
    ensures Difference(STATIC, LIQUID) == ALL
    ensures SetDifference(STATIC, LIQUID) == STATIC
  {
    assert (0x1 - 0x2) % (U32_MAX + 1) == U32_MAX;
    var s := SetDifference(STATIC, LIQUID);
    forall i | 0 <= i < WIDTH ensures Has(s, i) <==> Has(STATIC, i) {
      NamedTagIsSingleBit(0, i);
      NamedTagIsSingleBit(1, i);
    }
    TagsDetermine(s, STATIC);
  }

  /** NONE is contained in every set and every set is contained in ALL. */
  lemma ContainsExtremes(x: BlockTags)
    ensures Contains(x, NONE) && Contains(ALL, x) && Contains(x, x)
  {
    ContainsIsSubset(x, NONE);
    ContainsIsSubset(ALL, x);
    ContainsIsSubset(x, x);
    forall i | 0 <= i < WIDTH ensures !Has(NONE, i) && Has(ALL, i) {
      ZeroHasNoBits(i);
      AllOnes(i);
    }
  }

  lemma AllOnes(i: nat)
    requires i < WIDTH
    ensures Has(ALL, i)
  {
    Pow2Width();
    NotBit(0, WIDTH, i);
    ZeroHasNoBits(i);
    assert Not(0, WIDTH) == ALL.bits;
  }

  /** `contains` is a partial order. */
  lemma ContainsPartialOrder(a: BlockTags, b: BlockTags, c: BlockTags)
    ensures Contains(a, b) && Contains(b, a) ==> a == b
    ensures Contains(a, b) && Contains(b, c) ==> Contains(a, c)
  {
    ContainsIsSubset(a, b);
    ContainsIsSubset(b, a);
    ContainsIsSubset(b, c);
    ContainsIsSubset(a, c);
    if Contains(a, b) && Contains(b, a) {
      TagsDetermine(a, b);
    }
  }

  /** The union is the least set containing both operands. */
  lemma UnionIsLeast(a: BlockTags, b: BlockTags, c: BlockTags)
    ensures Contains(Union(a, b), a) && Contains(Union(a, b), b)
    ensures Contains(c, a) && Contains(c, b) <==> Contains(c, Union(a, b))
  {
    ContainsIsSubset(Union(a, b), a);
    ContainsIsSubset(Union(a, b), b);
    ContainsIsSubset(c, a);
    ContainsIsSubset(c, b);
    ContainsIsSubset(c, Union(a, b));
  }

  /** The intersection is the greatest set contained in both operands. */
  lemma IntersectionIsGreatest(a: BlockTags, b: BlockTags, c: BlockTags)
    ensures Contains(a, Intersection(a, b)) && Contains(b, Intersection(a, b))
    ensures Contains(a, c) && Contains(b, c) <==> Contains(Intersection(a, b), c)
  {
    ContainsIsSubset(a, Intersection(a, b));
    ContainsIsSubset(b, Intersection(a, b));
    ContainsIsSubset(a, c);
    ContainsIsSubset(b, c);
    ContainsIsSubset(Intersection(a, b), c);
  }

  /** Tag `k` of NAMED is bit `k` and no other. */
  lemma NamedTagIsSingleBit(k: nat, i: nat)
    requires k < |NAMED|
    ensures NAMED[k].bits == Pow2(k)
    ensures Has(NAMED[k], i) <==> i == k
  {
    assert Pow2(8) == 0x100;
    PowerBit(k, i);
  }

  lemma {:induction false} PowerBit(k: nat, i: nat)
    ensures Bit(Pow2(k), i) <==> i == k
  {
    if k == 0 {
      if i > 0 {
        ZeroHasNoBits(i - 1);
      }
    } else if i > 0 {
      PowerBit(k - 1, i - 1);
    }
  }

  /** The named tags are pairwise disjoint, and each differs from NONE and ALL. */
  lemma NamedTagsAreDistinctBits(j: nat, k: nat)
    requires j < k < |NAMED|
    ensures Intersection(NAMED[j], NAMED[k]) == NONE
    ensures NAMED[j] != NONE && NAMED[j] != ALL
  {
    forall i | 0 <= i < WIDTH ensures !Has(Intersection(NAMED[j], NAMED[k]), i) {
      NamedTagIsSingleBit(j, i);
      NamedTagIsSingleBit(k, i);
    }
    forall i | 0 <= i < WIDTH ensures !Has(NONE, i) {
      ZeroHasNoBits(i);
    }
    TagsDetermine(Intersection(NAMED[j], NAMED[k]), NONE);
    NamedTagIsSingleBit(j, j);
    NamedTagIsSingleBit(j, k);
    ZeroHasNoBits(j);
    AllOnes(k);
  }
}
