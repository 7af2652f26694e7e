/**
 * One simulation tick: every column is walked bottom to top as overlapping
 * pairs of tiles, one random roll is drawn per pair, and five ordered rules,
 * each with an integer firing threshold, may swap the pair or rewrite the
 * lower tile.
 *
 * The rolls are an explicit input: `rolls(n)` is the n-th u32 drawn, and each
 * operation reports how many it consumed.
 */
module Tick {
  import opened Base
  import opened Materials
  import opened Blocks
  import opened FlatMap
  import opened ColumnsMutIter
  import opened ColumnWindows

  // ---------------------------------------------------------------------------
  // Firing thresholds

  /**
   * `min_seed`: a roll fires with chance `num / den` when it is at least
   * `u32::MAX - floor(u32::MAX * num / den)`.  The product is formed in 64
   * bits, where it cannot overflow.
   */
  function MinSeed(num: u32, den: u32): (s: u32)
    requires den != 0 && num <= den
    ensures U32_MAX * num <= 0xFFFF_FFFF_FFFF_FFFF
    ensures (U32_MAX - s) * den <= U32_MAX * num < (U32_MAX - s + 1) * den
  {
    var wide := U32_MAX * num;
    QuotientBounds(wide, den, num);
    U32_MAX - wide / den
  }

  /** `x / d` is the largest `q` with `q * d <= x`, and stays below `U32_MAX` when `x <= U32_MAX * d`. */
  lemma QuotientBounds(x: nat, d: nat, num: nat)
    requires 0 < d <= U32_MAX && x == U32_MAX * num && num <= d
    ensures x / d <= U32_MAX
    ensures (x / d) * d <= x < (x / d + 1) * d
    ensures U32_MAX * num <= 0xFFFF_FFFF_FFFF_FFFF
  {
    var q, r := x / d, x % d;
    assert x == q * d + r;
    assert U32_MAX * num <= U32_MAX * d;
    assert q > U32_MAX ==> q * d >= (U32_MAX + 1) * d;
    assert num <= U32_MAX ==> U32_MAX * num <= U32_MAX * U32_MAX;
  }

  /** A certain event fires on every roll, an impossible one on none. */
  lemma MinSeedExtremes(den: u32)
    requires den != 0
    ensures MinSeed(den, den) == 0
    ensures MinSeed(0, den) == U32_MAX
  {
    var s := MinSeed(den, den);
    assert (U32_MAX - s) * den <= U32_MAX * den;
    assert s > 0 ==> (U32_MAX - s + 1) * den <= U32_MAX * den;
  }

  /** A larger chance never raises the threshold. */
  lemma MinSeedMonotone(num1: u32, num2: u32, den: u32)
    requires den != 0 && num1 <= num2 <= den
    ensures MinSeed(num2, den) <= MinSeed(num1, den)
  {
    var q1, q2 := U32_MAX - MinSeed(num1, den), U32_MAX - MinSeed(num2, den);
    assert U32_MAX * num1 <= U32_MAX * num2;
    assert q1 * den < (q2 + 1) * den;
    FactorOrder(q1, q2 + 1, den);
  }

  /** Multiplying by a positive factor keeps strict order. */
  lemma FactorOrder(a: int, b: int, d: int)
    requires d > 0 && a * d < b * d
    ensures a < b
  {
    assert (a - b) * d == a * d - b * d;
  }

  /**
   * The number of firing rolls, `2^32 - min_seed`, times the denominator is
   * within one denominator of `2^32 * num`: the chance is `num / den` up to
   * one roll in 2^32.
   */
  lemma MinSeedChance(num: u32, den: u32)
    requires den != 0 && num <= den
    ensures var firing := U32_MAX + 1 - MinSeed(num, den);
      (U32_MAX + 1) * num - num < firing * den <= (U32_MAX + 1) * num + den - num
  {
  }

  // ---------------------------------------------------------------------------
  // The rules of `select_events!`

  /** The five events of a tick, in their declared order. */
  datatype Rule = Fall | Flow | Grow | Wither | BurnOut

  const RULES: seq<Rule> := [Fall, Flow, Grow, Wither, BurnOut]

  /** The chance of each rule as the literal fraction written beside it. */
  function Chance(rule: Rule): (c: (u32, u32))
    ensures c.1 != 0 && c.0 <= c.1
  {
    match rule
    case Fall => (0x1F, 0x20)
    case Flow => (0x1, 0x8)
    case Grow => (0x1, 0x40)
    case Wither => (0x1, 0x80)
    case BurnOut => (0x1, 0x20)
  }

  /**
   * The firing threshold of each rule, as `min_seed` evaluates it for the
   * rule's chance.
   */
  function Threshold(rule: Rule): (t: u32)
    ensures t == MinSeed(Chance(rule).0, Chance(rule).1)
  {
    match rule
    case Fall => 0x0800_0000
    case Flow => 0xE000_0000
    case Grow => 0xFC00_0000
    case Wither => 0xFE00_0000
    case BurnOut => 0xF800_0000
  }

  /** The pair under consideration: the lower tile, the tile above it, and whether the next window is to be skipped. */
  datatype Window = Window(block: Block, next: Block, skip: bool)

  /** The condition on the lower tile. */
  predicate Lhs(classes: Classes, rule: Rule, block: Block) {
    match rule
    case Fall => IsEmpty(classes, block) || IsLiquid(classes, block)
    case Flow => IsLiquid(classes, block)
    case Grow => block.material == Dirt
    case Wither => block.material == Grass
    case BurnOut => block.material == Fire
  }

  /** The condition on the upper tile. */
  predicate Rhs(classes: Classes, rule: Rule, next: Block) {
    match rule
    case Fall => !IsStatic(classes, next) && !IsLiquid(classes, next)
    case Flow => !IsStatic(classes, next) && IsLiquid(classes, next)
    case Grow => IsEmpty(classes, next)
    case Wither => !IsEmpty(classes, next)
    case BurnOut => true
  }

  /** What a rule does when it fires. */
  function Perform(rule: Rule, w: Window): (r: Window)
    ensures rule in {Fall, Flow} ==> r.block == w.next && r.next == w.block
    ensures rule in {Grow, Wither, BurnOut} ==> r.next == w.next && r.block.seed == w.block.seed
    ensures r.skip <==> w.skip || rule == Flow
  {
    match rule
    case Fall => Window(w.next, w.block, w.skip)
    case Flow => Window(w.next, w.block, true)
    case Grow => w.(block := SetMaterial(w.block, Grass))
    case Wither => w.(block := SetMaterial(w.block, Dirt))
    case BurnOut => w.(block := SetMaterial(w.block, Air))
  }

  predicate Fires(classes: Classes, seed: u32, rule: Rule, w: Window) {
    seed >= Threshold(rule) && Lhs(classes, rule, w.block) && Rhs(classes, rule, w.next)
  }

  function Step(classes: Classes, seed: u32, rule: Rule, w: Window): Window {
    if Fires(classes, seed, rule, w) then Perform(rule, w) else w
  }

  /**
   * `select_events!`: every event is judged, in order, on the pair as the
   * earlier events left it, and all of them share one roll.
   */
  function SelectEvents(classes: Classes, seed: u32, rules: seq<Rule>, w: Window): (r: Window)
    ensures w.skip ==> r.skip
    ensures r.skip ==> w.skip || Flow in rules
    decreases |rules|
  {
    if rules == [] then w
    else Step(classes, seed, rules[|rules| - 1], SelectEvents(classes, seed, rules[..|rules| - 1], w))
  }

  /** The five events of a tick, one after another. */
  lemma SelectEventsUnfolded(classes: Classes, seed: u32, w: Window)
    ensures SelectEvents(classes, seed, RULES, w)
      == Step(classes, seed, BurnOut, Step(classes, seed, Wither, Step(classes, seed, Grow,
           Step(classes, seed, Flow, Step(classes, seed, Fall, w)))))
  {
    var w1 := Step(classes, seed, Fall, w);
    var w2 := Step(classes, seed, Flow, w1);
    var w3 := Step(classes, seed, Grow, w2);
    var w4 := Step(classes, seed, Wither, w3);
    assert SelectEvents(classes, seed, [Fall], w) == w1 by {
      assert [Fall][..0] == [];
    }
    assert SelectEvents(classes, seed, [Fall, Flow], w) == w2 by {
      assert [Fall, Flow][..1] == [Fall];
    }
    assert SelectEvents(classes, seed, [Fall, Flow, Grow], w) == w3 by {
      assert [Fall, Flow, Grow][..2] == [Fall, Flow];
    }
    assert SelectEvents(classes, seed, [Fall, Flow, Grow, Wither], w) == w4 by {
      assert [Fall, Flow, Grow, Wither][..3] == [Fall, Flow, Grow];
    }
    assert RULES[..4] == [Fall, Flow, Grow, Wither];
  }

  /** A roll below every threshold leaves the pair as it was. */
  lemma LowRollIsIdle(classes: Classes, seed: u32, w: Window)
    requires seed < Threshold(Fall)
    ensures SelectEvents(classes, seed, RULES, w) == w
  {
    SelectEventsUnfolded(classes, seed, w);
  }

  /** Only Flow asks for the next window to be skipped. */
  lemma SkipOnlyAfterFlow(classes: Classes, seed: u32, w: Window)
    requires !w.skip
    ensures SelectEvents(classes, seed, RULES, w).skip ==> seed >= Threshold(Flow)
  {
    SelectEventsUnfolded(classes, seed, w);
  }

  // ---------------------------------------------------------------------------
  // The tick as a function of the buffer

  /**
   * The walk of one column from window `i` to the column's end `end`; returns
   * the new buffer and the index of the next unused roll.
   */
  function Sweep(classes: Classes, s: seq<Block>, i: nat, end: nat, rolls: nat -> u32, r: nat): (res: (seq<Block>, nat))
    requires i < end <= |s|
    ensures |res.0| == |s|
    decreases end - i
  {
    if i + 1 == end then (s, r)
    else
      var w := SelectEvents(classes, rolls(r), RULES, Window(s[i], s[i + 1], false));
      var s' := s[i := w.block][i + 1 := w.next];
      var i' := if w.skip && i + 2 < end then i + 2 else i + 1;
      Sweep(classes, s', i', end, rolls, r + 1)
  }

  /**
   * Every whole column from the one starting at buffer index `start` onwards,
   * ticked in order; a trailing part shorter than a column is left alone.
   */
  function TickFrom(classes: Classes, s: seq<Block>, height: nat, start: nat, rolls: nat -> u32, r: nat): (res: (seq<Block>, nat))
    requires height > 0
    ensures |res.0| == |s|
    decreases |s| - start
  {
    if start + height > |s| then (s, r)
    else
      var swept := Sweep(classes, s, start, start + height, rolls, r);
      TickFrom(classes, swept.0, height, start + height, rolls, swept.1)
  }

  /** A whole column at `start` is swept, then the ones after it. */
  lemma TickFromColumn(classes: Classes, s: seq<Block>, height: nat, start: nat, rolls: nat -> u32, r: nat)
    requires 0 < height && start + height <= |s|
    ensures var swept := Sweep(classes, s, start, start + height, rolls, r);
      TickFrom(classes, s, height, start, rolls, r) == TickFrom(classes, swept.0, height, start + height, rolls, swept.1)
  {
  }

  // ---------------------------------------------------------------------------
  // `App::tick`

  /** `App::tick` over the map's buffer; returns the index of the next unused roll. */
  method Tick(m: Map, classes: Classes, rolls: nat -> u32, r0: nat) returns (r: nat)
    requires m.Valid()
    modifies m.data
    ensures (m.data[..], r) == TickFrom(classes, old(m.data[..]), m.height as nat, 0, rolls, r0)
  {
    var height: nat := m.height as nat;
    var columns := new ColumnsMut(m);
    r := r0;
    while true
      invariant columns.Valid() && columns.data == m.data && columns.height as nat == height
      invariant TickFrom(classes, m.data[..], height, columns.ptr, rolls, r)
        == TickFrom(classes, old(m.data[..]), height, 0, rolls, r0)
      decreases columns.len
    {
      ghost var p0, before, r1 := columns.ptr, m.data[..], r;
      var windowsOpt := New(columns);
      if windowsOpt.None? {
        break;
      }
      TickFromColumn(classes, before, height, p0, rolls, r1);
      r := TickColumn(m.data, windowsOpt.value, classes, rolls, r);
    }
  }

  /**
   * The inner loop of `App::tick` over the windows of one column; returns the
   * index of the next unused roll.
   */
  method TickColumn(data: array<Block>, windows: ColumnWindowsMut, classes: Classes, rolls: nat -> u32, r0: nat) returns (r: nat)
    requires windows.Valid() && windows.data == data && windows.ptr == windows.column.start
    modifies data, windows
    ensures (data[..], r) == Sweep(classes, old(data[..]), windows.column.start, windows.column.end, rolls, r0)
  {
    ghost var goal := Sweep(classes, data[..], windows.column.start, windows.column.end, rolls, r0);
    r := r0;
    while true
      invariant windows.Valid() && windows.data == data
      invariant Sweep(classes, data[..], windows.ptr, windows.column.end, rolls, r) == goal
      decreases windows.len
    {
      var pair := windows.Next();
      if pair.None? {
        break;
      }
      var i := pair.value.0;
      var seed := rolls(r);
      r := r + 1;
      SelectEventsInPlace(data, windows, classes, seed, i);
    }
  }

  /**
   * The body of `App::tick`'s inner loop for the window `(i, i + 1)`: the
   * expansion of `select_events!`, which judges the five events in their
   * declared order under one roll, Flow also consuming the next window.  The
   * expansion is written as a loop over the event list; the two `&mut Block`
   * references are the locals `block` and `next`, written back to the buffer
   * once the events are done.
   */
  method SelectEventsInPlace(data: array<Block>, windows: ColumnWindowsMut, classes: Classes, seed: u32, i: nat)
    requires windows.Valid() && windows.data == data && windows.ptr == i + 1
    modifies data, windows
    ensures windows.Valid()
    ensures var w := SelectEvents(classes, seed, RULES, Window(old(data[i]), old(data[i + 1]), false));
      && data[..] == old(data[..])[i := w.block][i + 1 := w.next]
      && windows.ptr == (if w.skip && i + 2 < windows.column.end then i + 2 else i + 1)
  {
    var block, next := data[i], data[i + 1];
    ghost var w0 := Window(block, next, false);
    ghost var skip := false;
    for e := 0 to |RULES|
      invariant windows.Valid() && windows.data == data && data[..] == old(data[..])
      invariant SelectEvents(classes, seed, RULES[..e], w0) == Window(block, next, skip)
      invariant windows.ptr == (if skip && i + 2 < windows.column.end then i + 2 else i + 1)
    {
      var rule := RULES[e];
      assert RULES[..e + 1][..e] == RULES[..e];
      if seed >= MinSeed(Chance(rule).0, Chance(rule).1) && Lhs(classes, rule, block) && Rhs(classes, rule, next) {
        match rule
        case Fall =>
          block, next := next, block;
        case Flow =>
          block, next := next, block;
          // Skip the next window.
          var _ := windows.Next();
          skip := true;
        case Grow =>
          block := SetMaterial(block, Grass);
        case Wither =>
          block := SetMaterial(block, Dirt);
        case BurnOut =>
          block := SetMaterial(block, Air);
      }
    }
    assert RULES[..|RULES|] == RULES;
    data[i], data[i + 1] := block, next;
    assert data[..] == old(data[..])[i := block][i + 1 := next];
  }
}
