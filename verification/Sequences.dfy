/** Finite sums over ranks and equal-width blocks of a flat buffer. */
module Sequences {

  function Sum(s: seq<real>): real {
    if |s| == 0 then 0.0 else Sum(s[..|s| - 1]) + s[|s| - 1]
  }

  lemma {:induction false} SumAppend(s: seq<real>, x: real)
    ensures Sum(s + [x]) == Sum(s) + x
  {
    assert (s + [x])[..|s|] == s;
  }

  lemma {:induction false} SumConcat(a: seq<real>, b: seq<real>)
    ensures Sum(a + b) == Sum(a) + Sum(b)
    decreases |b|
  {
    if |b| == 0 {
      assert a + b == a;
    } else {
      var front := b[..|b| - 1];
      assert a + b == (a + front) + [b[|b| - 1]];
      SumAppend(a + front, b[|b| - 1]);
      SumConcat(a, front);
    }
  }

  /** Changing one summand changes the sum by the difference. */
  lemma {:induction false} SumUpdate(s: seq<real>, k: nat, x: real)
    requires k < |s|
    ensures Sum(s[k := x]) == Sum(s) - s[k] + x
    decreases |s|
  {
    var n := |s| - 1;
    if k == n {
      assert s[k := x][..n] == s[..n];
    } else {
      assert s[k := x][..n] == s[..n][k := x];
      SumUpdate(s[..n], k, x);
    }
  }

  /** Pointwise sums add. */
  lemma {:induction false} SumAdd(a: seq<real>, b: seq<real>, c: seq<real>)
    requires |a| == |b| == |c|
    requires forall i :: 0 <= i < |a| ==> c[i] == a[i] + b[i]
    ensures Sum(c) == Sum(a) + Sum(b)
    decreases |a|
  {
    if |a| > 0 {
      var n := |a| - 1;
      SumAdd(a[..n], b[..n], c[..n]);
    }
  }

  lemma {:induction false} SumZero(s: seq<real>)
    requires forall i :: 0 <= i < |s| ==> s[i] == 0.0
    ensures Sum(s) == 0.0
    decreases |s|
  {
    if |s| > 0 {
      SumZero(s[..|s| - 1]);
    }
  }

  /** `a % w` for an index at most one turn away from the range. */
  lemma WrapOnce(a: int, w: int)
    requires 0 < w && -w <= a < 2 * w
    ensures a % w == if a < 0 then a + w else if a < w then a else a - w
  {
  }

  /** Quotient and remainder are determined by `x == q * a + r`. */
  lemma DivModUnique(x: int, a: int, q: int, r: int)
    requires a > 0 && x == q * a + r && 0 <= r < a
    ensures x / a == q && x % a == r
  {
    assert x == (x / a) * a + x % a;
    assert (x / a - q) * a == (x / a) * a - q * a;
    OnlyZeroIsSmall(x / a - q, a);
  }

  lemma OnlyZeroIsSmall(d: int, a: int)
    requires a > 0 && -a < d * a < a
    ensures d == 0
  {
  }

  lemma Distribute(n: int, a: int, b: int)
    ensures n * (a + b) == n * a + n * b
  {
  }

  /** The sum of `n` consecutive entries of a ring, starting at `start`. */
  function RingSum(v: seq<real>, start: nat, n: nat): real
    requires start < |v|
  {
    if n == 0 then 0.0 else RingSum(v, start, n - 1) + v[(start + n - 1) % |v|]
  }

  lemma {:induction false} RingSumStraight(v: seq<real>, start: nat, n: nat)
    requires start < |v| && start + n <= |v|
    ensures RingSum(v, start, n) == Sum(v[start..start + n])
    decreases n
  {
    if n > 0 {
      RingSumStraight(v, start, n - 1);
      WrapOnce(start + n - 1, |v|);
      assert v[start..start + n] == v[start..start + n - 1] + [v[start + n - 1]];
      SumAppend(v[start..start + n - 1], v[start + n - 1]);
    }
  }

  lemma {:induction false} RingSumAround(v: seq<real>, start: nat, k: nat)
    requires start < |v| && k <= start
    ensures RingSum(v, start, |v| - start + k) == Sum(v[start..]) + Sum(v[..k])
    decreases k
  {
    if k == 0 {
      RingSumStraight(v, start, |v| - start);
      assert v[start..|v|] == v[start..];
    } else {
      RingSumAround(v, start, k - 1);
      WrapOnce(|v| + k - 1, |v|);
      assert v[..k] == v[..k - 1] + [v[k - 1]];
      SumAppend(v[..k - 1], v[k - 1]);
    }
  }

  /** Going once around a ring sums every entry, wherever one starts. */
  lemma {:induction false} RingSumTotal(v: seq<real>, start: nat)
    requires start < |v|
    ensures RingSum(v, start, |v|) == Sum(v)
  {
    RingSumAround(v, start, start);
    assert v == v[..start] + v[start..];
    SumConcat(v[..start], v[start..]);
  }

  /** The sum of per-rank counters. */
  ghost function Total(counts: seq<nat>): nat {
    if |counts| == 0 then 0 else Total(counts[..|counts| - 1]) + counts[|counts| - 1]
  }

  lemma {:induction false} TotalStep(counts: seq<nat>, r: nat, v: nat)
    requires r < |counts|
    ensures Total(counts[r := v]) == Total(counts) - counts[r] + v
  {
    var n := |counts| - 1;
    if r == n {
      assert counts[r := v][..n] == counts[..n];
    } else {
      assert counts[r := v][..n] == counts[..n][r := v];
      TotalStep(counts[..n], r, v);
    }
  }

  /** Counters that never pass a limit add up to the limit of all of them exactly when each has reached it. */
  lemma {:induction false} TotalBound(counts: seq<nat>, limit: nat)
    requires forall r :: 0 <= r < |counts| ==> counts[r] <= limit
    ensures Total(counts) <= |counts| * limit
    ensures Total(counts) == |counts| * limit <==> forall r :: 0 <= r < |counts| ==> counts[r] == limit
  {
    if |counts| > 0 {
      var n := |counts| - 1;
      TotalBound(counts[..n], limit);
      assert |counts| * limit == n * limit + limit;
      assert forall r :: 0 <= r < n ==> counts[..n][r] == counts[r];
    }
  }

  lemma SliceParts<T>(p: seq<T>, o: nat, w: nat, a: nat)
    requires o + w <= |p| && a <= w
    ensures p[o..o + w][..a] == p[o..o + a]
    ensures p[o..o + w][a..] == p[o + a..o + w]
  {
  }

  /** Concatenation of blocks. */
  function Flatten<T>(blocks: seq<seq<T>>): seq<T> {
    if |blocks| == 0 then [] else Flatten(blocks[..|blocks| - 1]) + blocks[|blocks| - 1]
  }

  ghost predicate Uniform<T>(blocks: seq<seq<T>>, width: nat) {
    forall i :: 0 <= i < |blocks| ==> |blocks[i]| == width
  }

  /** Element `i` of every row. */
  function Column(vs: seq<seq<real>>, n: nat, i: nat): (column: seq<real>)
    requires Uniform(vs, n) && i < n
    ensures |column| == |vs| && forall r :: 0 <= r < |vs| ==> column[r] == vs[r][i]
  {
    seq(|vs|, r requires 0 <= r < |vs| => vs[r][i])
  }

  lemma MulStep(i: nat, n: nat, w: nat)
    requires i < n
    ensures 0 <= i * w && i * w + w <= n * w && (i + 1) * w == i * w + w
  {
    assert n * w == (i + 1) * w + (n - i - 1) * w;
  }

  /** Block `i` of a buffer of `n` blocks: a group of values, the shard of a rank, or the slot of a peer. */
  function Block<T>(s: seq<T>, width: nat, n: nat, i: nat): (block: seq<T>)
    requires i < n && |s| == n * width
    ensures |block| == width
  {
    MulStep(i, n, width);
    s[i * width..i * width + width]
  }

  lemma {:induction false} FlattenLength<T>(blocks: seq<seq<T>>, width: nat)
    requires Uniform(blocks, width)
    ensures |Flatten(blocks)| == |blocks| * width
    decreases |blocks|
  {
    if |blocks| > 0 {
      FlattenLength(blocks[..|blocks| - 1], width);
    }
  }

  /** Block `i` of a concatenation of equally wide blocks is found at offset `i * width`. */
  lemma {:induction false} FlattenBlock<T>(blocks: seq<seq<T>>, width: nat, i: nat)
    requires Uniform(blocks, width) && i < |blocks|
    ensures |Flatten(blocks)| == |blocks| * width
    ensures 0 <= i * width <= i * width + width <= |blocks| * width
    ensures Flatten(blocks)[i * width..i * width + width] == blocks[i]
    decreases |blocks|
  {
    var n := |blocks| - 1;
    var front := blocks[..n];
    FlattenLength(front, width);
    FlattenLength(blocks, width);
    MulStep(i, |blocks|, width);
    if i < n {
      FlattenBlock(front, width, i);
      assert Flatten(blocks)[i * width..i * width + width]
          == Flatten(front)[i * width..i * width + width];
    }
  }

  lemma {:induction false} FlattenAt<T>(blocks: seq<seq<T>>, width: nat, i: nat, e: nat)
    requires Uniform(blocks, width) && i < |blocks| && e < width
    ensures |Flatten(blocks)| == |blocks| * width && 0 <= i * width + e < |blocks| * width
    ensures Flatten(blocks)[i * width + e] == blocks[i][e]
  {
    FlattenBlock(blocks, width, i);
    assert Flatten(blocks)[i * width + e] == Flatten(blocks)[i * width..i * width + width][e];
  }

  /** A flat buffer is the concatenation of its consecutive slices. */
  lemma {:induction false} FlattenSlices<T>(blocks: seq<seq<T>>, width: nat, s: seq<T>)
    requires |s| == |blocks| * width
    requires forall i :: 0 <= i < |blocks| ==> 0 <= i * width <= i * width + width <= |s|
                                               && blocks[i] == s[i * width..i * width + width]
    ensures Flatten(blocks) == s
    decreases |blocks|
  {
    if |blocks| > 0 {
      var n := |blocks| - 1;
      MulStep(n, |blocks|, width);
      var prefix := s[..n * width];
      forall i | 0 <= i < n
        ensures 0 <= i * width <= i * width + width <= |prefix|
        ensures blocks[i] == prefix[i * width..i * width + width]
      {
        MulStep(i, n, width);
        assert blocks[i] == s[i * width..i * width + width];
      }
      assert blocks[..n][..] == blocks[..n];
      FlattenSlices(blocks[..n], width, prefix);
      assert blocks[n] == s[n * width..n * width + width];
      assert s == prefix + s[n * width..n * width + width];
    }
  }
}
