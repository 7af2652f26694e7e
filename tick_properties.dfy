/**
 * What a tick preserves.  A tick moves tiles only by swapping the two tiles of
 * a window and rewrites a material only as Dirt to Grass, Grass to Dirt and
 * Fire to Air; so, counting Grass as Dirt and Fire as Air, every column keeps
 * the tiles it had, seeds included.  A tick that draws only low rolls changes
 * nothing, and a static tile that the rules cannot match stays where it is.
 */
module TickProperties {
  import opened Base
  import opened Materials
  import opened Blocks
  import opened Tick

  // ---------------------------------------------------------------------------
  // The census of tiles

  /** The material a tile counts as: the rewrites are Dirt <-> Grass and Fire -> Air. */
  function Kind(m: Material): (k: Material)
    ensures k !in {Grass, Fire}
    ensures m !in {Grass, Fire} ==> k == m
  {
    match m
    case Grass => Dirt
    case Fire => Air
    case _ => m
  }

  /** A tile as the census counts it: its kind and its seed. */
  function Essence(b: Block): Block {
    Block(Kind(b.material), b.seed)
  }

  function Essences(s: seq<Block>): (e: seq<Block>)
    ensures |e| == |s| && forall k :: 0 <= k < |s| ==> e[k] == Essence(s[k])
  {
    seq(|s|, k requires 0 <= k < |s| => Essence(s[k]))
  }

  /** The census of a run of tiles. */
  function Census(s: seq<Block>): multiset<Block> {
    multiset(Essences(s))
  }

  /** Replacing the pair at `i` by a pair with the same census keeps the census of the whole. */
  lemma UpdatePairConserves(s: seq<Block>, i: nat, a: Block, b: Block)
    requires i + 1 < |s|
    requires multiset{Essence(a), Essence(b)} == multiset{Essence(s[i]), Essence(s[i + 1])}
    ensures Census(s[i := a][i + 1 := b]) == Census(s)
  {
    var e := Essences(s);
    assert Essences(s[i := a][i + 1 := b]) == e[i := Essence(a)][i + 1 := Essence(b)];
    MultisetOfPairUpdate(e, i, Essence(a), Essence(b));
  }

  lemma MultisetOfPairUpdate<T>(e: seq<T>, i: nat, x: T, y: T)
    requires i + 1 < |e| && multiset{x, y} == multiset{e[i], e[i + 1]}
    ensures multiset(e[i := x][i + 1 := y]) == multiset(e)
  {
    assert e == e[..i] + [e[i], e[i + 1]] + e[i + 2..];
    assert e[i := x][i + 1 := y] == e[..i] + [x, y] + e[i + 2..];
    assert multiset([x, y]) == multiset{x, y};
    assert multiset([e[i], e[i + 1]]) == multiset{e[i], e[i + 1]};
  }

  /** Two buffers that agree outside `[i, j)` and have the same census have the same census inside it. */
  lemma CensusOfMiddle(x: seq<Block>, y: seq<Block>, i: nat, j: nat)
    requires i <= j <= |x| == |y|
    requires x[..i] == y[..i] && x[j..] == y[j..] && Census(x) == Census(y)
    ensures Census(x[i..j]) == Census(y[i..j])
  {
    var e, f := Essences(x), Essences(y);
    assert Essences(x[i..j]) == e[i..j];
    assert Essences(y[i..j]) == f[i..j];
    assert e[..i] == f[..i] && e[j..] == f[j..];
    MultisetOfMiddle(e, f, i, j);
  }

  lemma MultisetOfMiddle<T>(e: seq<T>, f: seq<T>, i: nat, j: nat)
    requires i <= j <= |e| == |f|
    requires e[..i] == f[..i] && e[j..] == f[j..] && multiset(e) == multiset(f)
    ensures multiset(e[i..j]) == multiset(f[i..j])
  {
    assert e == e[..i] + e[i..j] + e[j..];
    assert f == f[..i] + f[i..j] + f[j..];
    var a, m, n, b := multiset(e[..i]), multiset(e[i..j]), multiset(f[i..j]), multiset(e[j..]);
    assert a + m + b == a + n + b;
    assert forall o :: m[o] == (a + m + b)[o] - a[o] - b[o];
  }

  // ---------------------------------------------------------------------------
  // One window

  /** The census of a window's pair. */
  function PairCensus(w: Window): multiset<Block> {
    multiset{Essence(w.block), Essence(w.next)}
  }

  /** A firing event swaps the pair or rewrites the lower tile within its kind. */
  lemma StepConserves(classes: Classes, seed: u32, rule: Rule, w: Window)
    ensures PairCensus(Step(classes, seed, rule, w)) == PairCensus(w)
  {
  }

  /** Whatever the events do to a pair, its census is unchanged. */
  lemma {:induction false} SelectEventsConserve(classes: Classes, seed: u32, rules: seq<Rule>, w: Window)
    ensures PairCensus(SelectEvents(classes, seed, rules, w)) == PairCensus(w)
  {
    if |rules| > 0 {
      SelectEventsConserve(classes, seed, rules[..|rules| - 1], w);
      StepConserves(classes, seed, rules[|rules| - 1], SelectEvents(classes, seed, rules[..|rules| - 1], w));
    }
  }

  /** A static upper tile is never swapped down nor rewritten. */
  lemma {:induction false} StaticUpperIsKept(classes: Classes, seed: u32, rules: seq<Rule>, w: Window)
    requires IsStatic(classes, w.next)
    ensures SelectEvents(classes, seed, rules, w).next == w.next
  {
    if |rules| > 0 {
      StaticUpperIsKept(classes, seed, rules[..|rules| - 1], w);
    }
  }

  /**
   * A tile that is static, neither empty nor liquid, and not Dirt, Grass or
   * Fire matches no rule's condition on the lower tile.
   */
  predicate Pinned(classes: Classes, b: Block) {
    IsStatic(classes, b) && !IsEmpty(classes, b) && !IsLiquid(classes, b)
    && b.material !in {Dirt, Grass, Fire}
  }

  /** A pinned lower tile leaves the whole window as it was. */
  lemma {:induction false} PinnedLowerIsIdle(classes: Classes, seed: u32, rules: seq<Rule>, w: Window)
    requires Pinned(classes, w.block)
    ensures SelectEvents(classes, seed, rules, w) == w
  {
    if |rules| > 0 {
      PinnedLowerIsIdle(classes, seed, rules[..|rules| - 1], w);
    }
  }

  // ---------------------------------------------------------------------------
  // One column

  /** Sweeping a column changes no tile outside it and keeps its census. */
  lemma {:induction false} SweepIsLocal(classes: Classes, s: seq<Block>, i: nat, end: nat, rolls: nat -> u32, r: nat)
    requires i < end <= |s|
    ensures var t := Sweep(classes, s, i, end, rolls, r).0;
      && t[..i] == s[..i] && t[end..] == s[end..]
      && Census(t) == Census(s)
    decreases end - i
  {
    if i + 1 < end {
      var w := SelectEvents(classes, rolls(r), RULES, Window(s[i], s[i + 1], false));
      var s' := s[i := w.block][i + 1 := w.next];
      var i' := if w.skip && i + 2 < end then i + 2 else i + 1;
      SelectEventsConserve(classes, rolls(r), RULES, Window(s[i], s[i + 1], false));
      UpdatePairConserves(s, i, w.block, w.next);
      SweepIsLocal(classes, s', i', end, rolls, r + 1);
      PairUpdateIsLocal(s, Sweep(classes, s', i', end, rolls, r + 1).0, s', i, i', end);
    }
  }

  /**
   * If `t` agrees with `s'` before `i'` and from `end`, and `s'` is `s` with
   * the pair at `i` replaced, then `t` agrees with `s` before `i` and from `end`.
   */
  lemma PairUpdateIsLocal(s: seq<Block>, t: seq<Block>, s': seq<Block>, i: nat, i': nat, end: nat)
    requires i < i' && i + 1 < end <= |s| == |s'| == |t|
    requires i' <= end
    requires forall k :: 0 <= k < |s| && k != i && k != i + 1 ==> s'[k] == s[k]
    requires t[..i'] == s'[..i'] && t[end..] == s'[end..]
    ensures t[..i] == s[..i] && t[end..] == s[end..]
  {
    assert t[..i] == t[..i'][..i];
    assert s'[end..] == s[end..];
  }

  /** Sweeping a column draws between half a roll and one roll per window. */
  lemma {:induction false} SweepRolls(classes: Classes, s: seq<Block>, i: nat, end: nat, rolls: nat -> u32, r: nat)
    requires i < end <= |s|
    ensures var n := Sweep(classes, s, i, end, rolls, r).1;
      r <= n <= r + (end - i - 1) <= r + 2 * (n - r)
    decreases end - i
  {
    if i + 1 < end {
      var w := SelectEvents(classes, rolls(r), RULES, Window(s[i], s[i + 1], false));
      var s' := s[i := w.block][i + 1 := w.next];
      var i' := if w.skip && i + 2 < end then i + 2 else i + 1;
      SweepRolls(classes, s', i', end, rolls, r + 1);
    }
  }

  /** A column swept with rolls all below the lowest threshold is unchanged, one roll per window. */
  lemma {:induction false} SweepIdle(classes: Classes, s: seq<Block>, i: nat, end: nat, rolls: nat -> u32, r: nat)
    requires i < end <= |s|
    requires forall n :: rolls(n) < Threshold(Fall)
    ensures Sweep(classes, s, i, end, rolls, r) == (s, r + (end - i - 1))
    decreases end - i
  {
    if i + 1 < end {
      LowRollIsIdle(classes, rolls(r), Window(s[i], s[i + 1], false));
      assert s[i := s[i]][i + 1 := s[i + 1]] == s;
      SweepIdle(classes, s, i + 1, end, rolls, r + 1);
    }
  }

  /** Every pinned tile of the buffer is still there after a column is swept. */
  lemma {:induction false} SweepKeepsPinned(classes: Classes, s: seq<Block>, i: nat, end: nat, rolls: nat -> u32, r: nat)
    requires i < end <= |s|
    ensures var t := Sweep(classes, s, i, end, rolls, r).0;
      forall k :: 0 <= k < |s| && Pinned(classes, s[k]) ==> t[k] == s[k]
    decreases end - i
  {
    if i + 1 < end {
      var w0 := Window(s[i], s[i + 1], false);
      var w := SelectEvents(classes, rolls(r), RULES, w0);
      var s' := s[i := w.block][i + 1 := w.next];
      var i' := if w.skip && i + 2 < end then i + 2 else i + 1;
      if Pinned(classes, s[i]) {
        PinnedLowerIsIdle(classes, rolls(r), RULES, w0);
      }
      if Pinned(classes, s[i + 1]) {
        StaticUpperIsKept(classes, rolls(r), RULES, w0);
      }
      assert forall k :: 0 <= k < |s| && Pinned(classes, s[k]) ==> s'[k] == s[k];
      SweepKeepsPinned(classes, s', i', end, rolls, r + 1);
    }
  }

  // ---------------------------------------------------------------------------
  // The whole tick

  /** Column by column from the start of `a` and `b`, the censuses agree; a trailing part is untouched. */
  predicate ColumnsConserved(a: seq<Block>, b: seq<Block>, height: nat)
    requires |a| == |b| && height > 0
    decreases |a|
  {
    if |a| < height then a == b
    else Census(a[..height]) == Census(b[..height]) && ColumnsConserved(a[height..], b[height..], height)
  }

  /** Ticking from the column at `start` changes nothing before it and keeps the census of the whole buffer. */
  lemma {:induction false} TickFromIsLocal(classes: Classes, s: seq<Block>, height: nat, start: nat, rolls: nat -> u32, r: nat)
    requires height > 0 && start <= |s|
    ensures var t := TickFrom(classes, s, height, start, rolls, r).0;
      t[..start] == s[..start] && Census(t) == Census(s)
    decreases |s| - start
  {
    if start + height <= |s| {
      var swept := Sweep(classes, s, start, start + height, rolls, r);
      var u := swept.0;
      SweepIsLocal(classes, s, start, start + height, rolls, r);
      TickFromIsLocal(classes, u, height, start + height, rolls, swept.1);
      TickFromColumn(classes, s, height, start, rolls, r);
      var t := TickFrom(classes, u, height, start + height, rolls, swept.1).0;
      PrefixOfPrefix(s, u, t, start, start + height);
      assert Census(t) == Census(u) == Census(s);
    }
  }

  /** Agreeing up to `j` with a buffer that agrees with `s` up to `i <= j` means agreeing with `s` up to `i`. */
  lemma PrefixOfPrefix(s: seq<Block>, u: seq<Block>, t: seq<Block>, i: nat, j: nat)
    requires i <= j <= |s| == |u| == |t|
    requires u[..i] == s[..i] && t[..j] == u[..j]
    ensures t[..i] == s[..i]
  {
    assert t[..i] == t[..j][..i];
  }

  /**
   * Ticking from the column at `start` keeps the census of every column it
   * visits and leaves a trailing part shorter than a column alone.
   */
  lemma {:induction false} TickFromConservesColumns(classes: Classes, s: seq<Block>, height: nat, start: nat, rolls: nat -> u32, r: nat)
    requires height > 0 && start <= |s|
    ensures ColumnsConserved(s[start..], TickFrom(classes, s, height, start, rolls, r).0[start..], height)
    decreases |s| - start
  {
    if start + height <= |s| {
      var swept := Sweep(classes, s, start, start + height, rolls, r);
      var u := swept.0;
      SweepIsLocal(classes, s, start, start + height, rolls, r);
      TickFromIsLocal(classes, u, height, start + height, rolls, swept.1);
      TickFromConservesColumns(classes, u, height, start + height, rolls, swept.1);
      ColumnStepConserves(s, u, TickFrom(classes, u, height, start + height, rolls, swept.1).0, height, start);
    }
  }

  /**
   * One column's step of `TickFromConservesColumns`: `u` is `s` with the
   * column at `start` rewritten within its census, and `t` is `u` with only
   * the later columns rewritten, column by column within their censuses.
   */
  lemma ColumnStepConserves(s: seq<Block>, u: seq<Block>, t: seq<Block>, height: nat, start: nat)
    requires height > 0 && start + height <= |s| == |u| == |t|
    requires u[..start] == s[..start] && u[start + height..] == s[start + height..] && Census(u) == Census(s)
    requires t[..start + height] == u[..start + height]
    requires ColumnsConserved(u[start + height..], t[start + height..], height)
    ensures ColumnsConserved(s[start..], t[start..], height)
  {
    CensusOfMiddle(s, u, start, start + height);
    assert t[start..start + height] == u[start..start + height] by {
      assert t[start..start + height] == t[..start + height][start..];
      assert u[start..start + height] == u[..start + height][start..];
    }
    assert s[start..][..height] == s[start..start + height];
    assert t[start..][..height] == t[start..start + height];
    assert s[start..][height..] == s[start + height..];
    assert t[start..][height..] == t[start + height..];
  }

  /** A tick whose rolls are all below the lowest threshold leaves the buffer as it was. */
  lemma {:induction false} TickFromIdle(classes: Classes, s: seq<Block>, height: nat, start: nat, rolls: nat -> u32, r: nat)
    requires height > 0
    requires forall n :: rolls(n) < Threshold(Fall)
    ensures TickFrom(classes, s, height, start, rolls, r).0 == s
    decreases |s| - start
  {
    if start + height <= |s| {
      SweepIdle(classes, s, start, start + height, rolls, r);
      TickFromIdle(classes, s, height, start + height, rolls, r + (height - 1));
    }
  }

  /** Every pinned tile of the buffer is still there after a tick. */
  lemma {:induction false} TickFromKeepsPinned(classes: Classes, s: seq<Block>, height: nat, start: nat, rolls: nat -> u32, r: nat)
    requires height > 0
    ensures var t := TickFrom(classes, s, height, start, rolls, r).0;
      forall k :: 0 <= k < |s| && Pinned(classes, s[k]) ==> t[k] == s[k]
    decreases |s| - start
  {
    if start + height <= |s| {
      var swept := Sweep(classes, s, start, start + height, rolls, r);
      SweepKeepsPinned(classes, s, start, start + height, rolls, r);
      TickFromKeepsPinned(classes, swept.0, height, start + height, rolls, swept.1);
    }
  }
}
