/** Shard layout: the compiled plan and the ranges a reduced shard reports. */
module Shards {
  import opened Sequences
  import opened Wrappers

  function Min(a: int, b: int): int {
    if a < b then a else b
  }

  function Max(a: int, b: int): int {
    if a < b then b else a
  }

  datatype ShardPlan = ShardPlan(
    originalNumel: nat, rank: nat, worldSize: nat, shardNumel: nat, paddedNumel: nat)
  {
    function LogicalRange(): (int, int) {
      var start := rank * shardNumel;
      (start, Min(start + shardNumel, originalNumel))
    }
  }

  /** Ceiling division. */
  function CeilDiv(a: nat, b: nat): (q: nat)
    requires b > 0
  {
    CeilDivBounds(a, b);
    (a + b - 1) / b
  }

  lemma CeilDivBounds(a: nat, b: nat)
    requires b > 0
    ensures var q := (a + b - 1) / b;
            && 0 <= q && a <= q * b && (q > 0 ==> (q - 1) * b < a) && (q == 0 <==> a == 0)
  {
    var q := (a + b - 1) / b;
    assert a + b - 1 == q * b + (a + b - 1) % b;
    assert (q - 1) * b == q * b - b;
  }

  lemma CeilDivWhole(m: nat, g: nat)
    requires g > 0
    ensures CeilDiv(m * g, g) == m
  {
    DivModUnique(m * g + g - 1, g, m, g - 1);
  }

  function CompileShardPlan(originalNumel: int, rank: int, worldSize: int, groupSize: int): (r: Result<ShardPlan>)
    requires groupSize > 0
    ensures r.Ok? <==> originalNumel >= 0 && 0 <= rank < worldSize
    ensures r.Ok? ==> r.value.originalNumel == originalNumel && r.value.rank == rank && r.value.worldSize == worldSize
    ensures r.Ok? ==> IsLeastCover(r.value, groupSize)
  {
    if originalNumel < 0 then Err("original_numel must be non-negative")
    else if worldSize <= 0 || rank < 0 || rank >= worldSize then Err("rank/world_size are invalid")
    else
      var logicalShard := CeilDiv(originalNumel, worldSize);
      var shardNumel := if logicalShard != 0 then CeilDiv(logicalShard, groupSize) * groupSize else 0;
      CoverIsLeast(originalNumel, worldSize, groupSize, shardNumel);
      Ok(ShardPlan(originalNumel, rank, worldSize, shardNumel, shardNumel * worldSize))
  }

  predicate Covers(worldSize: nat, shardNumel: nat, originalNumel: nat) {
    worldSize * shardNumel >= originalNumel
  }

  /** No smaller whole number of groups a shard covers the tensor. */
  ghost predicate IsLeastCover(p: ShardPlan, groupSize: nat)
    requires groupSize > 0
  {
    && p.paddedNumel == p.worldSize * p.shardNumel && p.shardNumel % groupSize == 0
    && Covers(p.worldSize, p.shardNumel, p.originalNumel)
    && forall s: nat :: s % groupSize == 0 && Covers(p.worldSize, s, p.originalNumel) ==> p.shardNumel <= s
  }

  lemma {:induction false} CoverIsLeast(n: nat, w: nat, g: nat, shardNumel: nat)
    requires w > 0 && g > 0 && shardNumel == CeilDiv(CeilDiv(n, w), g) * g
    ensures shardNumel % g == 0 && Covers(w, shardNumel, n)
    ensures forall s: nat :: s % g == 0 && Covers(w, s, n) ==> shardNumel <= s
  {
    var l := CeilDiv(n, w);
    var m := CeilDiv(l, g);
    CeilDivBounds(n, w);
    CeilDivBounds(l, g);
    LeastCover(n, w, g, l, m);
    DivModUnique(shardNumel, g, m, 0);
    forall s: nat | s % g == 0 && Covers(w, s, n)
      ensures shardNumel <= s
    {
      if s < shardNumel {
        assert s == s / g * g;
        if s / g >= m {
          MulMonotone(m, s / g, g);
        } else {
          MulMonotone(s / g, m - 1, g);
          MulMonotone(s, (m - 1) * g, w);
        }
      }
    }
  }

  /** The number of groups in a shard. */
  function ShardGroups(originalNumel: nat, worldSize: nat, groupSize: nat): nat
    requires worldSize > 0 && groupSize > 0
  {
    CeilDiv(CeilDiv(originalNumel, worldSize), groupSize)
  }

  lemma LeastCover(n: nat, w: nat, g: nat, l: nat, m: nat)
    requires w > 0 && g > 0
    requires n <= l * w && (l > 0 ==> (l - 1) * w < n) && (l == 0 <==> n == 0)
    requires l <= m * g && (m > 0 ==> (m - 1) * g < l) && (m == 0 <==> l == 0)
    ensures n <= w * (m * g)
    ensures m > 0 ==> w * ((m - 1) * g) < n
  {
    MulMonotone(l, m * g, w);
    if m > 0 {
      MulMonotone((m - 1) * g, l - 1, w);
    }
  }

  /** A compiled shard is the smallest whole number of groups with which all ranks cover the tensor. */
  lemma {:induction false} PlanIsLeastCover(originalNumel: nat, rank: nat, worldSize: nat, groupSize: nat)
    requires rank < worldSize && groupSize > 0
    ensures var p := CompileShardPlan(originalNumel, rank, worldSize, groupSize).value;
            var m := ShardGroups(originalNumel, worldSize, groupSize);
            && p == ShardPlan(originalNumel, rank, worldSize, m * groupSize, worldSize * (m * groupSize))
            && originalNumel <= p.paddedNumel
            && (m > 0 ==> worldSize * ((m - 1) * groupSize) < originalNumel)
            && (m == 0 <==> originalNumel == 0)
  {
    var l := CeilDiv(originalNumel, worldSize);
    CeilDivBounds(originalNumel, worldSize);
    CeilDivBounds(l, groupSize);
    LeastCover(originalNumel, worldSize, groupSize, l, CeilDiv(l, groupSize));
  }

  lemma MulMonotone(a: int, b: int, w: nat)
    requires a <= b
    ensures w * a <= w * b && a * w <= b * w
  {
  }

  // ---------------------------------------------------------------------------
  // The value handed to consumers of a reduced shard (its tensor is kept elsewhere).

  datatype ReducedShardValue = ReducedShardValue(
    shardIndex: int, shardNumel: int, originalNumel: int, worldSize: int)
  {
    /** What the constructor accepts. */
    ghost predicate Valid() {
      && worldSize > 0 && 0 <= shardIndex < worldSize && shardNumel >= 0 && originalNumel >= 0
      && shardNumel * worldSize >= originalNumel
    }

    function ShardOffset(): int {
      shardIndex * shardNumel
    }

    function ShardEnd(): int {
      Min(ShardOffset() + shardNumel, originalNumel)
    }

    function LogicalRange(): (int, int) {
      (Min(ShardOffset(), originalNumel), ShardEnd())
    }

    function ValidNumel(): int {
      Max(0, ShardEnd() - ShardOffset())
    }

    function PaddingNumel(): int {
      shardNumel - ValidNumel()
    }
  }

  function Shard(v: ReducedShardValue, r: nat): ReducedShardValue {
    v.(shardIndex := r)
  }

  /** Consecutive ranks own consecutive ranges; together they are `[0, originalNumel)`. */
  lemma {:induction false} RangesAreConsecutive(v: ReducedShardValue)
    requires v.Valid()
    ensures var (start, end) := v.LogicalRange();
            && 0 <= start <= end <= v.originalNumel
            && v.ValidNumel() == end - start <= v.shardNumel
            && v.ValidNumel() + v.PaddingNumel() == v.shardNumel
    ensures Shard(v, 0).LogicalRange().0 == 0
    ensures Shard(v, v.worldSize - 1).LogicalRange().1 == v.originalNumel
    ensures v.shardIndex + 1 < v.worldSize ==>
              v.LogicalRange().1 == Shard(v, v.shardIndex + 1).LogicalRange().0
  {
    assert v.ShardOffset() >= 0 by {
      MulMonotone(0, v.shardIndex, v.shardNumel);
    }
    assert Shard(v, v.worldSize - 1).ShardOffset() + v.shardNumel == v.shardNumel * v.worldSize by {
      assert (v.worldSize - 1) * v.shardNumel + v.shardNumel == v.worldSize * v.shardNumel;
    }
    assert (v.shardIndex + 1) * v.shardNumel == v.ShardOffset() + v.shardNumel;
  }

  lemma DivisionBounds(i: nat, width: nat)
    requires width > 0
    ensures 0 <= i / width && (i / width) * width <= i < (i / width) * width + width
  {
  }

  /** Blocks of equal width do not overlap. */
  lemma SameBlock(q: nat, r: nat, width: nat, i: nat)
    requires q * width <= i < q * width + width
    ensures r * width <= i < r * width + width <==> r == q
  {
    if r < q {
      MulMonotone(r + 1, q, width);
    } else if q < r {
      MulMonotone(q + 1, r, width);
    }
  }

  lemma BlockIndexBound(q: nat, width: nat, i: nat, w: nat)
    requires q * width <= i < w * width
    ensures q < w
  {
    if q >= w {
      MulMonotone(w, q, width);
      assert false;
    }
  }

  /** Every logical index belongs to exactly one rank. */
  lemma {:induction false} UniqueOwner(v: ReducedShardValue, i: nat, r: nat)
    requires v.Valid() && i < v.originalNumel && r < v.worldSize
    ensures v.shardNumel > 0 && 0 <= i / v.shardNumel < v.worldSize
    ensures var (start, end) := Shard(v, r).LogicalRange();
            start <= i < end <==> r == i / v.shardNumel
  {
    assert v.shardNumel > 0;
    DivisionBounds(i, v.shardNumel);
    BlockIndexBound(i / v.shardNumel, v.shardNumel, i, v.worldSize);
    SameBlock(i / v.shardNumel, r, v.shardNumel, i);
  }

  /** The valid sizes of the first `n` ranks. */
  function ValidUpTo(v: ReducedShardValue, n: nat): int {
    if n == 0 then 0 else ValidUpTo(v, n - 1) + Shard(v, n - 1).ValidNumel()
  }

  function PaddingUpTo(v: ReducedShardValue, n: nat): int {
    if n == 0 then 0 else PaddingUpTo(v, n - 1) + Shard(v, n - 1).PaddingNumel()
  }

  lemma {:induction false} SizesUpTo(v: ReducedShardValue, n: nat)
    requires v.Valid() && n <= v.worldSize
    ensures ValidUpTo(v, n) == Min(n * v.shardNumel, v.originalNumel)
    ensures ValidUpTo(v, n) + PaddingUpTo(v, n) == n * v.shardNumel
  {
    if n > 0 {
      SizesUpTo(v, n - 1);
      assert n * v.shardNumel == (n - 1) * v.shardNumel + v.shardNumel;
      MulMonotone(0, n - 1, v.shardNumel);
    }
  }

  /** Valid and padding lanes of all ranks add up to the tensor and to what was padded. */
  lemma {:induction false} SizesAddUp(v: ReducedShardValue)
    requires v.Valid()
    ensures ValidUpTo(v, v.worldSize) == v.originalNumel
    ensures PaddingUpTo(v, v.worldSize) == v.shardNumel * v.worldSize - v.originalNumel
  {
    SizesUpTo(v, v.worldSize);
  }

  /** The plan does not clamp the start of its range: its range is the value's range exactly for
      the ranks whose shard starts inside the tensor (or at its end). */
  lemma {:induction false} PlanRangeAgrees(originalNumel: nat, rank: nat, worldSize: nat, groupSize: nat)
    requires rank < worldSize && groupSize > 0
    ensures var p := CompileShardPlan(originalNumel, rank, worldSize, groupSize).value;
            var v := ReducedShardValue(rank, p.shardNumel, originalNumel, worldSize);
            && v.Valid()
            && (p.LogicalRange() == v.LogicalRange() <==> rank * p.shardNumel <= originalNumel)
            && (p.LogicalRange().0 <= p.LogicalRange().1 <==> rank * p.shardNumel <= originalNumel)
  {
    PlanIsLeastCover(originalNumel, rank, worldSize, groupSize);
  }

  /** Nine elements over four ranks in groups of sixteen: the third shard starts past the end. */
  lemma PlanRangeCanBeInverted()
    ensures CompileShardPlan(9, 2, 4, 16).value.LogicalRange() == (32, 9)
    ensures ReducedShardValue(2, 16, 9, 4).LogicalRange() == (9, 9)
  {
  }
}
