/** The bump allocator (src/internal/rv_arena.c).

    A block is an offset into the arena, because growth may move the base.  `malloc` and `realloc` are taken to
    succeed. */
module Arena {
  import opened Types

  // ----- alignment

  /** `x & y` */
  function And(x: nat, y: nat): nat {
    if x == 0 then 0 else 2 * And(x / 2, y / 2) + (x % 2) * (y % 2)
  }

  /** `x & ~m` */
  function AndNot(x: nat, m: nat): nat {
    if x == 0 then 0 else 2 * AndNot(x / 2, m / 2) + (x % 2) * (1 - m % 2)
  }

  lemma {:induction false} AndSelf(x: nat)
    ensures And(x, x) == x
  {
    if x > 0 {
      AndSelf(x / 2);
    }
  }

  lemma {:induction false} AndNotZero(x: nat)
    ensures AndNot(x, 0) == x
  {
    if x > 0 {
      AndNotZero(x / 2);
    }
  }

  /** `x % (2 * b)`, bit by bit */
  lemma ModByTwice(x: nat, b: nat)
    requires b > 0
    ensures x % (2 * b) == 2 * (x / 2 % b) + x % 2
  {
    var q, r := x / 2 / b, x / 2 % b;
    assert x == (2 * b) * q + (2 * r + x % 2) by {
      assert x / 2 == b * q + r;
    }
    DivModIs(x, 2 * b, q, 2 * r + x % 2);
  }

  lemma SmallMultiple(d: int, e: int)
    requires 0 < d && -d < d * e < d
    ensures e == 0
  {
  }

  lemma DivModIs(x: int, d: int, q: int, r: int)
    requires 0 <= r < d && x == d * q + r
    ensures x / d == q && x % d == r
  {
    var e := q - x / d;
    assert d * e == x % d - r;
    SmallMultiple(d, e);
  }

  /** When `a & (a - 1)` is zero, clearing the bits of `a - 1` rounds down to a multiple of `a`. */
  lemma {:induction false} MaskRoundsDown(x: nat, a: nat)
    requires a > 0 && And(a, a - 1) == 0
    ensures AndNot(x, a - 1) == x - x % a
  {
    if a == 1 {
      AndNotZero(x);
    } else if a % 2 == 1 {
      AndSelf(a / 2);
    } else if x > 0 {
      assert (a - 1) / 2 == a / 2 - 1;
      MaskRoundsDown(x / 2, a / 2);
      ModByTwice(x, a / 2);
    } else {
      assert 0 % a == 0;
    }
  }

  /** `rv_align_up`: the least multiple of `align` that is not below `v`, on both of its paths. */
  function AlignUp(v: nat, align: nat): (r: nat)
    ensures var a := if align < 1 then 1 else align; r % a == 0 && v <= r < v + a
  {
    var a := if align < 1 then 1 else align;
    var mask := a - 1;
    if And(a, mask) != 0 then
      var r := v % a;
      RoundedUp(v, a);
      if r != 0 then v + (a - r) else v
    else
      MaskRoundsDown(v + mask, a);
      RoundedDown(v + mask, a);
      AndNot(v + mask, mask)
  }

  function Wrapped(x: nat): (r: nat)
    ensures r < TWO64 && (x < TWO64 ==> r == x)
  {
    x % TWO64
  }

  /** Both paths with the additions of a 64-bit `size_t`. */
  function SizeTAlignUp(v: nat, align: nat): nat {
    var a := if align < 1 then 1 else align;
    var mask := a - 1;
    if And(a, mask) != 0 then
      var r := v % a;
      if r != 0 then Wrapped(v + (a - r)) else v
    else
      AndNot(Wrapped(v + mask), mask)
  }

  /** A number that passes the bit test is a power of two: it divides every power of two that is not below it. */
  lemma {:induction false} TestedIsPower(a: nat, k: nat)
    requires 0 < a < 2 * Pow2(k) && And(a, a - 1) == 0
    ensures Pow2(k) % a == 0
  {
    if a % 2 == 1 {
      AndSelf(a / 2);
    } else if k > 0 {
      assert (a - 1) / 2 == a / 2 - 1;
      TestedIsPower(a / 2, k - 1);
      assert Pow2(k) == a * (Pow2(k - 1) / (a / 2));
      DivModIs(Pow2(k), a, Pow2(k - 1) / (a / 2), 0);
    }
  }

  lemma AndNotBound(x: nat, m: nat)
    ensures AndNot(x, m) <= x
  {
  }

  /** A multiple that is not below is not passed by rounding down. */
  lemma RoundsNotBelow(x: nat, a: nat, p: nat)
    requires a > 0 && p % a == 0 && p <= x
    ensures p <= x - x % a
  {
    var e := x / a - p / a + 1;
    assert a * e == (x - x % a) - p + a;
    FactorPositive(a, e);
    assert a * (e - 1) >= 0;
  }

  lemma FactorPositive(d: int, e: int)
    requires 0 < d && 0 < d * e
    ensures 0 < e
  {
  }

  /** The wrapping additions do no harm exactly when the result can be represented. */
  lemma AlignUpInSizeT(v: nat, align: nat)
    requires v < TWO64 && align < TWO64
    ensures SizeTAlignUp(v, align) == AlignUp(v, align) <==> AlignUp(v, align) < TWO64
  {
    hide And, AndNot, Wrapped;
    var a := if align < 1 then 1 else align;
    AndNotBound(Wrapped(v + (a - 1)), a - 1);
    if And(a, a - 1) == 0 && v + (a - 1) >= TWO64 {
      assert Pow2(64) == TWO64 by {
        Pow2Values();
      }
      TestedIsPower(a, 64);
      MaskRoundsDown(v + (a - 1), a);
      RoundsNotBelow(v + (a - 1), a, TWO64);
    }
  }

  /** Which it can while at most half of the address space is in use. */
  lemma AlignedFits(v: nat, align: nat)
    requires v <= TWO63 && align < TWO64
    ensures AlignUp(v, align) < TWO64
  {
    hide And, AndNot;
    var a := if align < 1 then 1 else align;
    if And(a, a - 1) == 0 {
      assert a <= TWO63 by {
        Pow2Values();
        TestedIsPower(a, 64);
        PowerBelow(a);
      }
      MaskRoundsDown(v + (a - 1), a);
    } else if v % a != 0 {
      NextMultipleFits(v, a);
    }
  }

  lemma PowerBelow(a: nat)
    requires 0 < a < TWO64 && TWO64 % a == 0
    ensures a <= TWO63
  {
    var q := TWO64 / a;
    assert TWO64 == a * q;
    if q > 1 {
      assert 2 * a <= a * q;
    }
  }

  lemma NextMultipleFits(v: nat, a: nat)
    requires v <= TWO63 && 0 < a < TWO64 && v % a != 0
    ensures v + (a - v % a) < TWO64
  {
    if v < a {
      DivModIs(v, a, 0, v);
    }
  }

  /** No multiple between the value and the result. */
  lemma AlignUpIsLeast(v: nat, align: nat, off: nat)
    requires v <= off && off % (if align < 1 then 1 else align) == 0
    ensures AlignUp(v, align) <= off
  {
    hide AlignUp;
    var a := if align < 1 then 1 else align;
    var r := AlignUp(v, align);
    if off < r {
      var e := r / a - off / a;
      assert a * e == r - off;
      SmallMultiple(a, e);
    }
  }

  lemma RoundedUp(v: nat, a: nat)
    requires a > 0
    ensures v % a != 0 ==> (v + (a - v % a)) % a == 0
  {
    DivModIs(v + (a - v % a), a, v / a + 1, 0);
  }

  lemma RoundedDown(x: nat, a: nat)
    requires a > 0
    ensures x % a < a && (x - x % a) % a == 0
  {
    DivModIs(x - x % a, a, x / a, 0);
  }

  // ----- the layout, without the bytes

  const WORD_SIZE := 8
  const DEFAULT_MAX: int := 64 * 1024 * 1024

  datatype Block = Block(off: nat, len: nat, align: nat)

  /** `live` lists the blocks handed out and not taken back. */
  datatype Layout = Layout(used: nat, size: nat, maxBytes: nat, live: seq<Block>)

  ghost predicate Ordered(bs: seq<Block>) {
    forall i, j | 0 <= i < j < |bs| :: bs[i].off + bs[i].len <= bs[j].off
  }

  predicate Aligned(b: Block) {
    b.align > 0 && b.off % b.align == 0
  }

  ghost predicate Within(bs: seq<Block>, used: nat) {
    forall b | b in bs :: b.len > 0 && b.off + b.len <= used && Aligned(b)
  }

  /** Live blocks are aligned and lie one after the other inside the used part, which lies inside the arena. */
  ghost predicate Inv(l: Layout) {
    && 0 < l.size <= l.maxBytes && l.used <= l.size
    && Within(l.live, l.used) && Ordered(l.live)
  }

  function Fresh(initial: nat, maxBytes: nat): (l: Layout)
    ensures Inv(l)
  {
    var i := if initial < 256 then 256 else initial;
    var m := if maxBytes == 0 then DEFAULT_MAX else maxBytes;
    Layout(0, if i > m then m else i, m, [])
  }

  function BlockFor(l: Layout, nbytes: nat, align: nat): (b: Block)
    ensures b.len == nbytes && l.used <= b.off && Aligned(b) && b.align == if align == 0 then WORD_SIZE else align
  {
    var a := if align == 0 then WORD_SIZE else align;
    Block(AlignUp(l.used, a), nbytes, a)
  }

  /** An aligned offset above the used part. */
  ghost predicate IsPlace(used: nat, align: nat, off: nat) {
    used <= off && off % (if align == 0 then 8 else align) == 0
  }

  /** A request succeeds exactly when it is not empty and its aligned end is within the maximum. */
  predicate Fits(l: Layout, nbytes: nat, align: nat) {
    nbytes > 0 && BlockFor(l, nbytes, align).off + nbytes <= l.maxBytes
  }

  /** Doubling, capped at the maximum. */
  function Doubled(size: nat, need: nat, maxBytes: nat): (r: nat)
    requires 0 < size <= maxBytes && need <= maxBytes
    ensures size <= r <= maxBytes && need <= r
    decreases maxBytes - size
  {
    if size >= need then size
    else if size > maxBytes / 2 then maxBytes
    else Doubled(2 * size, need, maxBytes)
  }

  /** After `k` doublings, but not before, the size suffices, or the next one would pass the maximum. */
  ghost predicate StopsAfter(size: nat, need: nat, maxBytes: nat, k: nat, r: nat) {
    && (k > 0 ==> size * Pow2(k - 1) < need)
    && (r == size * Pow2(k) || (r == maxBytes < size * Pow2(k)))
  }

  lemma StopsLater(size: nat, need: nat, maxBytes: nat, k: nat, r: nat)
    requires size < need && StopsAfter(2 * size, need, maxBytes, k, r)
    ensures StopsAfter(size, need, maxBytes, k + 1, r)
  {
    var p := Pow2(k);
    assert 2 * size * p == size * (2 * p);
    if k > 0 {
      var q := Pow2(k - 1);
      assert 2 * size * q == size * (2 * q);
    }
  }

  /** The size after growth: the first sufficient doubling, capped at the maximum. */
  lemma {:induction false} DoubledExactly(size: nat, need: nat, maxBytes: nat) returns (k: nat)
    requires 0 < size <= maxBytes && need <= maxBytes
    ensures StopsAfter(size, need, maxBytes, k, Doubled(size, need, maxBytes))
    decreases maxBytes - size
  {
    if size >= need {
      k := 0;
    } else if size > maxBytes / 2 {
      k := 1;
      assert Pow2(0) == 1 && Pow2(1) == 2;
    } else {
      hide StopsAfter;
      k := DoubledExactly(2 * size, need, maxBytes);
      StopsLater(size, need, maxBytes, k, Doubled(2 * size, need, maxBytes));
      k := k + 1;
    }
  }

  function Allocated(l: Layout, nbytes: nat, align: nat): Layout
    requires 0 < l.size <= l.maxBytes
  {
    if !Fits(l, nbytes, align) then l
    else
      var b := BlockFor(l, nbytes, align);
      var end := b.off + b.len;
      l.(used := end, size := if end > l.size then Doubled(l.size, end, l.maxBytes) else l.size, live := l.live + [b])
  }

  /** The blocks that lie wholly below a mark. */
  function BelowMark(live: seq<Block>, mark: nat): seq<Block> {
    if live == [] then []
    else
      var b := live[|live| - 1];
      BelowMark(live[..|live| - 1], mark) + if b.off + b.len <= mark then [b] else []
  }

  /** Going back to a mark; a mark above the used part is ignored. */
  function Rewound(l: Layout, mark: nat): Layout {
    if mark <= l.used then l.(used := mark, live := BelowMark(l.live, mark)) else l
  }

  function Emptied(l: Layout): Layout {
    l.(used := 0, live := [])
  }

  // ----- runs

  /** A write is the client's: it fills a block it holds. */
  datatype Op = DoAlloc(nbytes: nat, align: nat) | DoRewind(mark: nat) | DoReset | DoWrite(block: Block, data: bytes)

  function Apply(l: Layout, op: Op): Layout
    requires 0 < l.size <= l.maxBytes
  {
    match op
    case DoAlloc(nbytes, align) => Allocated(l, nbytes, align)
    case DoRewind(mark) => Rewound(l, mark)
    case DoReset => Emptied(l)
    case DoWrite(_, _) => l
  }

  function Run(l: Layout, ops: seq<Op>): (r: Layout)
    requires 0 < l.size <= l.maxBytes
    ensures l.size <= r.size <= r.maxBytes == l.maxBytes
    decreases |ops|
  {
    if ops == [] then l else Run(Apply(l, ops[0]), ops[1..])
  }

  lemma {:induction false} InBelowMark(live: seq<Block>, mark: nat, b: Block)
    ensures b in BelowMark(live, mark) <==> b in live && b.off + b.len <= mark
  {
    if live != [] {
      InBelowMark(live[..|live| - 1], mark, b);
      assert live == live[..|live| - 1] + [live[|live| - 1]];
    }
  }

  lemma OrderedPush(bs: seq<Block>, b: Block)
    requires Ordered(bs) && forall c | c in bs :: c.off + c.len <= b.off
    ensures Ordered(bs + [b])
  {
    forall i, j | 0 <= i < j < |bs + [b]| ensures (bs + [b])[i].off + (bs + [b])[i].len <= (bs + [b])[j].off {
      assert bs[i] in bs;
    }
  }

  /** Filtering keeps the order of the blocks. */
  lemma {:induction false} BelowMarkOrdered(live: seq<Block>, mark: nat)
    requires Ordered(live)
    ensures Ordered(BelowMark(live, mark))
  {
    if live != [] {
      var rest, b := live[..|live| - 1], live[|live| - 1];
      BelowMarkOrdered(rest, mark);
      forall c | c in BelowMark(rest, mark) ensures c.off + c.len <= b.off {
        InBelowMark(rest, mark, c);
        var k :| 0 <= k < |rest| && rest[k] == c;
        assert live[k] == c;
      }
      OrderedPush(BelowMark(rest, mark), b);
    }
  }

  lemma AllocKeeps(l: Layout, nbytes: nat, align: nat)
    requires Inv(l)
    ensures Inv(Allocated(l, nbytes, align))
  {
    hide AlignUp, Doubled, BlockFor, Ordered, Aligned;
    OrderedPush(l.live, BlockFor(l, nbytes, align));
  }

  lemma StepKeeps(l: Layout, op: Op)
    requires Inv(l)
    ensures Inv(Apply(l, op))
  {
    hide AlignUp, Doubled, BelowMark, Aligned;
    match op
    case DoAlloc(nbytes, align) => AllocKeeps(l, nbytes, align);
    case DoRewind(mark) =>
      BelowMarkOrdered(l.live, mark);
      forall b ensures b in BelowMark(l.live, mark) <==> b in l.live && b.off + b.len <= mark {
        InBelowMark(l.live, mark, b);
      }
    case DoReset =>
    case DoWrite(_, _) =>
  }

  /** Every run keeps the live blocks aligned, apart and inside the used part, and the used part inside the arena. */
  lemma {:induction false} RunKeeps(l: Layout, ops: seq<Op>)
    requires Inv(l)
    ensures Inv(Run(l, ops))
    decreases |ops|
  {
    if ops != [] {
      StepKeeps(l, ops[0]);
      RunKeeps(Apply(l, ops[0]), ops[1..]);
    }
  }

  ghost predicate StaysAbove(ops: seq<Op>, mark: nat) {
    forall i | 0 <= i < |ops| :: !ops[i].DoReset? && (ops[i].DoRewind? ==> ops[i].mark >= mark)
  }

  lemma {:induction false} KeepsAll(live: seq<Block>, mark: nat)
    requires forall b | b in live :: b.off + b.len <= mark
    ensures BelowMark(live, mark) == live
  {
    if live != [] {
      assert live == live[..|live| - 1] + [live[|live| - 1]];
      KeepsAll(live[..|live| - 1], mark);
    }
  }

  lemma {:induction false} BelowMarkAppend(xs: seq<Block>, ys: seq<Block>, mark: nat)
    ensures BelowMark(xs + ys, mark) == BelowMark(xs, mark) + BelowMark(ys, mark)
  {
    if ys == [] {
      assert xs + ys == xs;
    } else {
      assert (xs + ys)[..|xs + ys| - 1] == xs + ys[..|ys| - 1];
      BelowMarkAppend(xs, ys[..|ys| - 1], mark);
    }
  }

  lemma {:induction false} BelowLowerMark(live: seq<Block>, low: nat, high: nat)
    requires low <= high
    ensures BelowMark(BelowMark(live, high), low) == BelowMark(live, low)
  {
    if live != [] {
      var b := live[|live| - 1];
      BelowLowerMark(live[..|live| - 1], low, high);
      BelowMarkAppend(BelowMark(live[..|live| - 1], high), if b.off + b.len <= high then [b] else [], low);
    }
  }

  /** Mark, any run that does not go below the mark, rewind: exactly the blocks and the used part of the mark are
      back. */
  lemma {:induction false} MarkRewind(l: Layout, ops: seq<Op>, r: Layout)
    requires Inv(l) && StaysAbove(ops, l.used) && r == Rewound(Run(l, ops), l.used)
    ensures r.used == l.used && r.live == l.live
  {
    KeepsAll(l.live, l.used);
    RunAbove(l, ops, l.used);
  }

  lemma AboveMark(b: Block, mark: nat)
    requires mark < b.off + b.len
    ensures BelowMark([b], mark) == []
  {
  }

  lemma {:induction false} RunAbove(l: Layout, ops: seq<Op>, mark: nat)
    requires Inv(l) && StaysAbove(ops, mark) && mark <= l.used
    ensures mark <= Run(l, ops).used && BelowMark(Run(l, ops).live, mark) == BelowMark(l.live, mark)
    decreases |ops|
  {
    hide AlignUp, Doubled, BelowMark, Ordered, Within, BlockFor;
    if ops != [] {
      var next := Apply(l, ops[0]);
      StepKeeps(l, ops[0]);
      match ops[0] {
        case DoAlloc(nbytes, align) =>
          var b := BlockFor(l, nbytes, align);
          BelowMarkAppend(l.live, [b], mark);
          if Fits(l, nbytes, align) {
            AboveMark(b, mark);
          }
        case DoRewind(high) =>
          if high <= l.used {
            BelowLowerMark(l.live, mark, high);
          }
        case DoReset =>
        case DoWrite(_, _) =>
      }
      RunAbove(next, ops[1..], mark);
    }
  }

  lemma {:induction false} RunSnoc(l: Layout, ops: seq<Op>, i: nat)
    requires 0 < l.size <= l.maxBytes && i < |ops|
    ensures Run(l, ops[..i + 1]) == Apply(Run(l, ops[..i]), ops[i])
    decreases |ops|
  {
    hide AlignUp, Doubled, BlockFor, BelowMark;
    if i == 0 {
      assert ops[..1][1..] == [];
    } else {
      assert ops[..i + 1][1..] == ops[1..][..i] && ops[..i][1..] == ops[1..][..i - 1];
      RunSnoc(Apply(l, ops[0]), ops[1..], i - 1);
    }
  }

  /** The client writes only into blocks that it holds at that point. */
  ghost predicate WritesLive(l: Layout, ops: seq<Op>)
    requires 0 < l.size <= l.maxBytes
  {
    forall i | 0 <= i < |ops| && ops[i].DoWrite? ::
      ops[i].block in Run(l, ops[..i]).live && |ops[i].data| == ops[i].block.len
  }

  /** Live before the first operation and after each of the first `n`. */
  ghost predicate LiveThroughout(l: Layout, ops: seq<Op>, n: nat, b: Block)
    requires 0 < l.size <= l.maxBytes && n <= |ops|
  {
    forall i | 0 <= i <= n :: b in Run(l, ops[..i]).live
  }

  ghost predicate Untouched(ops: seq<Op>, b: Block) {
    forall i | 0 <= i < |ops| && ops[i].DoWrite? :: ops[i].block != b
  }

  /** No operation above a mark takes back a block from before the mark. */
  lemma AboveKeepsLive(l: Layout, ops: seq<Op>, b: Block)
    requires Inv(l) && StaysAbove(ops, l.used) && b in l.live
    ensures LiveThroughout(l, ops, |ops|, b)
  {
    hide AlignUp, Doubled, BelowMark, Ordered, Apply, Run;
    KeepsAll(l.live, l.used);
    forall i | 0 <= i <= |ops| ensures b in Run(l, ops[..i]).live {
      RunAbove(l, ops[..i], l.used);
      InBelowMark(Run(l, ops[..i]).live, l.used, b);
    }
  }

  // ----- the arena in memory

  class ArenaBuf {
    var base: array<u8>
    var used: nat
    var peak: nat
    const maxBytes: nat
    var epoch: u32
    var growCount: nat
    ghost var live: seq<Block>

    ghost function View(): Layout
      reads this
    {
      Layout(used, base.Length, maxBytes, live)
    }

    ghost predicate Valid()
      reads this
    {
      Inv(View()) && used <= peak && epoch != 0
    }

    /** The bytes of a live block. */
    ghost function Bytes(b: Block): bytes
      reads this, base
      requires Valid() && b in live
    {
      base[b.off..b.off + b.len]
    }

    /** `rv_arena_init` */
    constructor (initial: nat, maxBytes: nat)
      ensures Valid() && fresh(base) && View() == Fresh(initial, maxBytes) && epoch == 1
      ensures used == 0 && live == [] && this.maxBytes == if maxBytes == 0 then 0x400_0000 else maxBytes
      ensures base.Length == if this.maxBytes < 256 || this.maxBytes < initial then this.maxBytes
                             else if initial < 256 then 256 else initial
    {
      var size := if initial < 256 then 256 else initial;
      var max := if maxBytes == 0 then DEFAULT_MAX else maxBytes;
      if size > max {
        size := max;
      }
      base := new u8[size](_ => 0);
      this.maxBytes := max;
      used, peak, epoch, growCount, live := 0, 0, 1, 0, [];
    }

    /** `rv_arena_reset`: the epoch changes and is never zero. */
    method Reset()
      requires Valid()
      modifies this`used, this`epoch, this`live
      ensures Valid() && View() == Emptied(old(View()))
      ensures used == 0 && live == [] && epoch != old(epoch) && epoch != 0
    {
      used, live := 0, [];
      epoch := (epoch + 1) % TWO32;
      if epoch == 0 {
        epoch := 1;
      }
    }

    /** `rv_arena_grow`: the contents move along, byte by byte. */
    method Grow(need: nat) returns (st: Status)
      requires Valid() && base.Length < need
      modifies this`base, this`growCount
      ensures Valid() && (st.Ok? <==> need <= maxBytes)
      ensures st.Failed? ==> base == old(base) && growCount == old(growCount)
      ensures st.Ok? ==> growCount == old(growCount) + 1
      ensures st.Ok? ==> fresh(base) && base.Length == Doubled(old(base.Length), need, maxBytes)
      ensures st.Ok? ==> base[..old(base.Length)] == old(base[..])
    {
      if need > maxBytes {
        return Failed;
      }
      var ncap := base.Length;
      while ncap < need
        invariant base.Length <= ncap <= maxBytes
        invariant Doubled(base.Length, need, maxBytes) == Doubled(ncap, need, maxBytes)
        decreases maxBytes - ncap
      {
        if ncap > maxBytes / 2 {
          ncap := maxBytes;
          break;
        }
        ncap := ncap * 2;
      }
      var nbase := new u8[ncap](_ => 0);
      forall i | 0 <= i < base.Length {
        nbase[i] := base[i];
      }
      base := nbase;
      growCount := growCount + 1;
      return Ok;
    }

    /** `rv_arena_alloc`: the new block is aligned and apart from all others, and no live block changes its bytes,
        whether the arena grows or not. */
    method Alloc(nbytes: nat, align: nat) returns (r: Option<Block>)
      requires Valid()
      modifies this
      ensures Valid() && View() == Allocated(old(View()), nbytes, align)
      ensures base == old(base) || fresh(base)
      ensures r == if Fits(old(View()), nbytes, align) then Some(BlockFor(old(View()), nbytes, align)) else None
      ensures r.Some? ==> r.value in live
      ensures r.None? ==> used == old(used) && live == old(live) && base == old(base)
      ensures r.None? ==> nbytes == 0 || forall off: nat | IsPlace(old(used), align, off) :: off + nbytes > maxBytes
      ensures r.Some? ==>
                && r.value.len == nbytes && live == old(live) + [r.value] && used == r.value.off + nbytes
                && var a := if align == 0 then 8 else align;
                   r.value.off % a == 0 && old(used) <= r.value.off < old(used) + a
      ensures epoch == old(epoch) && peak == (if used > old(peak) then used else old(peak))
      ensures growCount == old(growCount) + (if base.Length == old(base.Length) then 0 else 1)
      ensures forall b | b in old(live) :: b in live && Bytes(b) == old(Bytes(b))
    {
      hide AlignUp, Doubled, Inv;
      AllocKeeps(View(), nbytes, align);
      forall off | IsPlace(used, align, off)
        ensures AlignUp(used, if align == 0 then 8 else align) <= off
      {
        AlignUpIsLeast(used, if align == 0 then 8 else align, off);
      }
      InvHolds(View());
      if nbytes == 0 {
        return None;
      }
      var a := if align == 0 then WORD_SIZE else align;
      var off := AlignUp(used, a);
      if off > maxBytes || nbytes > maxBytes - off {
        return None;
      }
      var total := off + nbytes;
      if total > base.Length {
        ghost var before := base[..];
        var st := Grow(total);
        BytesMoved(before, base[..], live);
      }
      used, live := total, live + [Block(off, nbytes, a)];
      if used > peak {
        peak := used;
      }
      return Some(Block(off, nbytes, a));
    }

    /** What a client does with its block: the other live blocks keep their bytes. */
    method Write(b: Block, data: bytes)
      requires Valid() && b in live && |data| == b.len
      modifies base
      ensures Valid() && Bytes(b) == data
      ensures forall c | c in live && c != b :: Bytes(c) == old(Bytes(c))
    {
      hide Inv;
      InvHolds(View());
      forall i | 0 <= i < |data| {
        base[b.off + i] := data[i];
      }
      assert forall i | 0 <= i < |data| :: Bytes(b)[i] == data[i];
      forall c | c in live && c != b ensures Bytes(c) == old(Bytes(c)) {
        Apart(View(), b, c);
      }
    }

    /** `rv_arena_calloc`: a product that does not fit `size_t` is refused; the block is zeroed. */
    method Calloc(count: nat, size: nat, align: nat) returns (r: Option<Block>)
      requires Valid() && count < TWO64 && size < TWO64
      modifies this, base
      ensures Valid() && (base == old(base) || fresh(base))
      ensures r.Some? <==> count * size < TWO64 && Fits(old(View()), count * size, align)
      ensures View() == if r.Some? then Allocated(old(View()), count * size, align) else old(View())
      ensures r.Some? ==> r.value in live && r.value.len == count * size
                          && forall i | 0 <= i < r.value.len :: Bytes(r.value)[i] == 0
      ensures forall b | b in old(live) :: b in live && Bytes(b) == old(Bytes(b))
    {
      FitsSizeT(count, size);
      if count != 0 && size > (TWO64 - 1) / count {
        return None;
      }
      r := Alloc(count * size, align);
      if r.Some? {
        NewBlockApart(old(View()), count * size, align);
        Write(r.value, seq(count * size, _ => 0));
      }
    }

    /** `rv_arena_mark_get` */
    method MarkGet() returns (m: nat)
      ensures m == used
    {
      m := used;
    }

    /** `rv_arena_rewind`: the surviving blocks keep their bytes. */
    method Rewind(mark: nat)
      requires Valid()
      modifies this`used, this`live
      ensures Valid() && View() == Rewound(old(View()), mark)
      ensures used == if mark <= old(used) then mark else old(used)
      ensures forall b :: b in live <==> b in old(live) && (mark <= old(used) ==> b.off + b.len <= mark)
      ensures forall b | b in live :: b in old(live) && Bytes(b) == old(Bytes(b))
    {
      StepKeeps(View(), DoRewind(mark));
      forall b ensures b in BelowMark(live, mark) <==> b in live && b.off + b.len <= mark {
        InBelowMark(live, mark, b);
      }
      if mark <= used {
        used, live := mark, BelowMark(live, mark);
      }
    }

    /** One operation: the blocks that it neither takes back nor writes keep their bytes. */
    method Do(op: Op)
      requires Valid() && (op.DoWrite? ==> op.block in live && |op.data| == op.block.len)
      modifies this, base
      ensures Valid() && View() == Apply(old(View()), op) && (base == old(base) || fresh(base))
      ensures forall b | b in old(live) && b in live && !(op.DoWrite? && op.block == b) :: Bytes(b) == old(Bytes(b))
    {
      match op
      case DoAlloc(nbytes, align) => var _ := Alloc(nbytes, align);
      case DoRewind(mark) => Rewind(mark);
      case DoReset => Reset();
      case DoWrite(block, data) => Write(block, data);
    }

    /** Every run: a block that stays live and is not written keeps its bytes, however often the arena grows and
        moves. */
    method RunOps(ops: seq<Op>)
      requires Valid() && WritesLive(View(), ops)
      modifies this, base
      ensures Valid() && View() == Run(old(View()), ops) && (base == old(base) || fresh(base))
      ensures forall b | LiveThroughout(old(View()), ops, |ops|, b) && Untouched(ops, b) ::
                b in old(live) && b in live && Bytes(b) == old(Bytes(b))
    {
      hide Inv, Apply;
      ghost var l := View();
      InvHolds(l);
      assert ops[..0] == [];
      for i := 0 to |ops|
        invariant Valid() && View() == Run(l, ops[..i]) && (base == old(base) || fresh(base))
        invariant forall b | LiveThroughout(l, ops, i, b) && Untouched(ops, b) ::
                    b in old(live) && b in live && Bytes(b) == old(Bytes(b))
      {
        RunSnoc(l, ops, i);
        Do(ops[i]);
        forall b | LiveThroughout(l, ops, i + 1, b) && Untouched(ops, b)
          ensures b in old(live) && b in live && Bytes(b) == old(Bytes(b))
        {
          assert LiveThroughout(l, ops, i, b);
        }
      }
      assert ops[..|ops|] == ops;
    }

    /** Mark, run, rewind: the blocks of the mark are back, and those that the run did not write have their bytes. */
    method Scoped(ops: seq<Op>)
      requires Valid() && StaysAbove(ops, used) && WritesLive(View(), ops)
      modifies this, base
      ensures Valid() && used == old(used) && live == old(live)
      ensures forall b | b in live && Untouched(ops, b) :: Bytes(b) == old(Bytes(b))
    {
      ghost var l := View();
      var m := MarkGet();
      RunOps(ops);
      MarkRewind(l, ops, Rewound(Run(l, ops), m));
      forall b | b in l.live && Untouched(ops, b) ensures b in live && Bytes(b) == old(Bytes(b)) {
        AboveKeepsLive(l, ops, b);
      }
      Rewind(m);
    }
  }

  /** What the invariant says of one block. */
  lemma InvHolds(l: Layout)
    requires Inv(l)
    ensures 0 < l.size <= l.maxBytes && l.used <= l.size
    ensures forall b | b in l.live :: b.len > 0 && b.off + b.len <= l.used
  {
  }

  lemma BytesMoved(before: bytes, after: bytes, live: seq<Block>)
    requires before <= after
    requires forall b | b in live :: b.off + b.len <= |before|
    ensures forall b | b in live :: after[b.off..b.off + b.len] == before[b.off..b.off + b.len]
  {
  }

  /** Two different live blocks share no byte. */
  lemma Apart(l: Layout, b: Block, c: Block)
    requires Inv(l) && b in l.live && c in l.live && b != c
    ensures b.off + b.len <= c.off || c.off + c.len <= b.off
  {
    var i :| 0 <= i < |l.live| && l.live[i] == b;
    var j :| 0 <= j < |l.live| && l.live[j] == c;
  }

  lemma NewBlockApart(l: Layout, nbytes: nat, align: nat)
    requires Inv(l) && Fits(l, nbytes, align)
    ensures BlockFor(l, nbytes, align) !in l.live
  {
  }

  /** The division test of `rv_arena_calloc` decides whether the product fits. */
  lemma FitsSizeT(count: nat, size: nat)
    ensures count != 0 && size > (TWO64 - 1) / count <==> count * size >= TWO64
  {
    if count != 0 {
      var q := (TWO64 - 1) / count;
      assert TWO64 - 1 == count * q + (TWO64 - 1) % count;
      if size > q {
        assert count * size >= count * (q + 1);
      } else {
        assert count * size <= count * q;
      }
    }
  }
}
