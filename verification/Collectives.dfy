/** All ranks together: what the exchanged buffers add up to. */
module Collectives {
  import opened Sequences
  import opened Codecs
  import opened Executors
  import Shards

  // ---------------------------------------------------------------------------
  // The two collectives, as one rank sees them.

  /** Rank `r` receives slot `r` of every rank's send buffer, in rank order. */
  function AllToAll<B(!new)>(e: Exchange<B>, sends: seq<seq<B>>, r: nat): (received: seq<B>)
    requires |sends| == e.world && Uniform(sends, e.world * e.stride) && r < e.world
    ensures |received| == e.world * e.stride
  {
    FlattenLength(ReceivedSlots(e, sends, r), e.stride);
    Flatten(ReceivedSlots(e, sends, r))
  }

  function ReceivedSlots<B(!new)>(e: Exchange<B>, sends: seq<seq<B>>, r: nat): (slots: seq<seq<B>>)
    requires |sends| == e.world && Uniform(sends, e.world * e.stride) && r < e.world
    ensures |slots| == e.world && Uniform(slots, e.stride)
  {
    seq(e.world, s requires 0 <= s < e.world => Block(sends[s], e.stride, e.world, r))
  }

  /** Every rank receives all rows, in rank order. */
  function AllGather<B(!new)>(e: Exchange<B>, rows: seq<seq<B>>): (gathered: seq<B>)
    requires |rows| == e.world && Uniform(rows, e.stride)
    ensures |gathered| == e.world * e.stride
  {
    FlattenLength(rows, e.stride);
    Flatten(rows)
  }

  lemma {:induction false} SlotOfFlatten<T>(blocks: seq<seq<T>>, width: nat, d: nat)
    requires Uniform(blocks, width) && d < |blocks|
    ensures |Flatten(blocks)| == |blocks| * width
    ensures Block(Flatten(blocks), width, |blocks|, d) == blocks[d]
  {
    FlattenBlock(blocks, width, d);
  }

  /** All-to-all is a transposition: what rank `r` receives from `s` is what `s` has sent to `r`. */
  lemma {:induction false} AllToAllTransposes<B(!new)>(e: Exchange<B>, sends: seq<seq<B>>, r: nat, s: nat)
    requires |sends| == e.world && Uniform(sends, e.world * e.stride) && r < e.world && s < e.world
    ensures Block(AllToAll(e, sends, r), e.stride, e.world, s) == Block(sends[s], e.stride, e.world, r)
  {
    SlotOfFlatten(ReceivedSlots(e, sends, r), e.stride, s);
  }

  /** All-gather is a concatenation: slot `s` of the gathered buffer is the row of rank `s`. */
  lemma {:induction false} AllGatherConcatenates<B(!new)>(e: Exchange<B>, rows: seq<seq<B>>, s: nat)
    requires |rows| == e.world && Uniform(rows, e.stride) && s < e.world
    ensures Block(AllGather(e, rows), e.stride, e.world, s) == rows[s]
  {
    SlotOfFlatten(rows, e.stride, s);
  }

  lemma {:induction false} FlattenOfSlots<T>(s: seq<T>, width: nat, w: nat, slots: seq<seq<T>>)
    requires |s| == w * width && |slots| == w
    requires forall d :: 0 <= d < w ==> slots[d] == Block(s, width, w, d)
    ensures Flatten(slots) == s
  {
    forall d | 0 <= d < w
      ensures 0 <= d * width <= d * width + width <= |s| && slots[d] == s[d * width..d * width + width]
    {
      MulStep(d, w, width);
    }
    FlattenSlices(slots, width, s);
  }

  // ---------------------------------------------------------------------------
  // Images of sharded buffers.

  lemma Regroup(w: nat, m: nat, g: nat)
    ensures (w * m) * g == w * (m * g)
  {
  }

  lemma {:induction false} SlotOfAppend<T>(front: seq<T>, last: seq<T>, width: nat, w: nat, d: nat)
    requires d < w && |last| == width && |front| == (w - 1) * width
    ensures |front + last| == w * width
    ensures Block(front + last, width, w, d) == if d == w - 1 then last else Block(front, width, w - 1, d)
  {
    MulStep(w - 1, w, width);
    MulStep(d, w, width);
    if d < w - 1 {
      MulStep(d, w - 1, width);
    }
  }

  lemma {:induction false} ImageOfAppend<B(!new)>(c: Codec<B>, front: seq<real>, last: seq<real>, w: nat, m: nat)
    requires c.Valid() && w > 0
    requires |last| == m * c.groupSize && |front| == ((w - 1) * m) * c.groupSize
    ensures |front + last| == (w * m) * c.groupSize
    ensures |Image(c, front, (w - 1) * m)| == |front| && |Image(c, last, m)| == |last|
    ensures Image(c, front + last, w * m) == Image(c, front, (w - 1) * m) + Image(c, last, m)
  {
    assert (w - 1) * m + m == w * m;
    ImageConcat(c, front, (w - 1) * m, last, m);
    ImageLength(c, front, (w - 1) * m);
    ImageLength(c, last, m);
  }

  /** Shard boundaries are group boundaries: the image of a shard is the shard of the image. */
  lemma {:induction false} ImageOfSlot<B(!new)>(c: Codec<B>, p: seq<real>, w: nat, m: nat, d: nat)
    requires c.Valid() && |p| == w * (m * c.groupSize) && d < w
    ensures |p| == (w * m) * c.groupSize && |Image(c, p, w * m)| == |p|
    ensures Block(Image(c, p, w * m), m * c.groupSize, w, d) == Image(c, Block(p, m * c.groupSize, w, d), m)
    decreases w
  {
    var width := m * c.groupSize;
    MulStep(w - 1, w, width);
    Regroup(w - 1, m, c.groupSize);
    var front, last := p[..(w - 1) * width], p[(w - 1) * width..];
    assert p == front + last;
    ImageOfAppend(c, front, last, w, m);
    SlotOfAppend(front, last, width, w, d);
    SlotOfAppend(Image(c, front, (w - 1) * m), Image(c, last, m), width, w, d);
    if d < w - 1 {
      ImageOfSlot(c, front, w - 1, m, d);
    }
  }

  /** The image of a buffer does not depend on how many zero groups follow it. */
  lemma {:induction false} ImageOfPrefix<B(!new)>(c: Codec<B>, x: seq<real>, a: nat, b: nat)
    requires c.Valid() && |x| <= a * c.groupSize && a <= b
    ensures a * c.groupSize <= b * c.groupSize
    ensures |Image(c, Pad(x, a * c.groupSize), a)| == a * c.groupSize
    ensures |Image(c, Pad(x, b * c.groupSize), b)| == b * c.groupSize
    ensures Image(c, Pad(x, b * c.groupSize), b)[..|x|] == Image(c, Pad(x, a * c.groupSize), a)[..|x|]
  {
    var g := c.groupSize;
    Shards.MulMonotone(a, b, g);
    var short, long := Pad(x, a * g), Pad(x, b * g);
    assert (b - a) * g == b * g - a * g;
    assert long == short + Zeros((b - a) * g);
    ImageConcat(c, short, a, Zeros((b - a) * g), b - a);
    ImageLength(c, short, a);
    ImageLength(c, long, b);
  }

  // ---------------------------------------------------------------------------
  // The reduced tensor.

  /** Every rank's input, padded and seen through the codec once. */
  function Contributions<B(!new)>(e: Exchange<B>, xs: seq<seq<real>>): (images: seq<seq<real>>)
    requires e.Valid() && forall s :: 0 <= s < |xs| ==> |xs[s]| <= e.Padded()
    ensures |images| == |xs| && Uniform(images, e.Padded())
  {
    Regroup(e.world, e.groups, e.codec.groupSize);
    assert forall s :: 0 <= s < |xs| ==> |Image(e.codec, Pad(xs[s], e.Padded()), e.world * e.groups)| == e.Padded() by {
      forall s | 0 <= s < |xs|
        ensures |Image(e.codec, Pad(xs[s], e.Padded()), e.world * e.groups)| == e.Padded()
      {
        ImageLength(e.codec, Pad(xs[s], e.Padded()), e.world * e.groups);
      }
    }
    seq(|xs|, s requires 0 <= s < |xs| => Image(e.codec, Pad(xs[s], e.Padded()), e.world * e.groups))
  }

  /** The elementwise mean of the contributions, padding included. */
  function ReducedTensor<B(!new)>(e: Exchange<B>, xs: seq<seq<real>>): (reduced: seq<real>)
    requires e.Valid() && |xs| == e.world && forall s :: 0 <= s < |xs| ==> |xs[s]| <= e.Padded()
    ensures |reduced| == e.Padded()
  {
    MeanOf(Contributions(e, xs), e.Padded())
  }

  ghost predicate AllSend<B(!new)>(e: Exchange<B>, xs: seq<seq<real>>, sends: seq<seq<B>>) {
    && e.Valid()
    && |xs| == |sends| == e.world
    && forall s :: 0 <= s < e.world ==> |xs[s]| <= e.Padded() && SendsChunks(e, xs[s], sends[s])
  }

  lemma {:induction false} ReceivedPayload<B(!new)>(
    e: Exchange<B>, xs: seq<seq<real>>, sends: seq<seq<B>>, r: nat, s: nat)
    requires AllSend(e, xs, sends) && r < e.world && s < e.world
    ensures Uniform(sends, e.world * e.stride)
    ensures SlotPayload(e, AllToAll(e, sends, r), s) == ChunkPayload(e, xs[s], r)
  {
    assert SendsChunks(e, xs[s], sends[s]);
    SlotOfFlatten(ReceivedSlots(e, sends, r), e.stride, s);
  }

  lemma {:induction false} ReceivedImage<B(!new)>(
    e: Exchange<B>, xs: seq<seq<real>>, sends: seq<seq<B>>, r: nat, s: nat)
    requires AllSend(e, xs, sends) && r < e.world && s < e.world
    ensures Uniform(sends, e.world * e.stride)
    ensures Restored(e, AllToAll(e, sends, r))[s] == Block(Contributions(e, xs)[s], e.ShardNumel(), e.world, r)
  {
    ReceivedPayload(e, xs, sends, r, s);
    var chunk := Block(Pad(xs[s], e.Padded()), e.ShardNumel(), e.world, r);
    DequantizePayload(e.codec, e.compact, chunk, e.groups);
    ImageOfSlot(e.codec, Pad(xs[s], e.Padded()), e.world, e.groups, r);
  }

  lemma {:induction false} MeanOfSlots(
    parts: seq<seq<real>>, wholes: seq<seq<real>>, width: nat, w: nat, d: nat)
    requires |parts| == |wholes| > 0 && d < w
    requires Uniform(wholes, w * width) && Uniform(parts, width)
    requires forall s :: 0 <= s < |parts| ==> parts[s] == Block(wholes[s], width, w, d)
    ensures MeanOf(parts, width) == Block(MeanOf(wholes, w * width), width, w, d)
  {
    MulStep(d, w, width);
    forall i | 0 <= i < width
      ensures MeanOf(parts, width)[i] == Block(MeanOf(wholes, w * width), width, w, d)[i]
    {
      assert Column(parts, width, i) == Column(wholes, w * width, d * width + i);
    }
  }

  /** Reduced shard: rank `r` obtains chunk `r` of the reduced tensor, whatever the payload layout and
      whatever lies behind the payloads. */
  lemma {:induction false} ReducedShardIsSlot<B(!new)>(e: Exchange<B>, xs: seq<seq<real>>, sends: seq<seq<B>>, r: nat)
    requires AllSend(e, xs, sends) && r < e.world
    ensures Uniform(sends, e.world * e.stride)
    ensures ReduceMean(e, AllToAll(e, sends, r)) == Block(ReducedTensor(e, xs), e.ShardNumel(), e.world, r)
  {
    assert Uniform(sends, e.world * e.stride) by {
      forall s | 0 <= s < e.world
        ensures |sends[s]| == e.world * e.stride
      {
        assert SendsChunks(e, xs[s], sends[s]);
      }
    }
    var received := AllToAll(e, sends, r);
    RestoredLengths(e, received);
    forall s | 0 <= s < e.world
      ensures Restored(e, received)[s] == Block(Contributions(e, xs)[s], e.ShardNumel(), e.world, r)
    {
      ReceivedImage(e, xs, sends, r, s);
    }
    MeanOfSlots(Restored(e, received), Contributions(e, xs), e.ShardNumel(), e.world, r);
  }

  // ---------------------------------------------------------------------------
  // The full-tensor program.

  /** The facts that the per-rank methods establish, for all ranks: what each sent, what each wrote as its
      requantized shard, and what each wrote back from the gathered shards. */
  ghost predicate FullTensorRound<B(!new)>(
    e: Exchange<B>, xs: seq<seq<real>>, sends: seq<seq<B>>, rows: seq<seq<B>>, restored: seq<seq<real>>)
  {
    && AllSend(e, xs, sends)
    && Uniform(sends, e.world * e.stride)
    && |rows| == |restored| == e.world
    && Uniform(rows, e.stride)
    && (forall r :: 0 <= r < e.world ==>
          rows[r][..e.PayloadNumel()]
          == Payload(e.codec, e.compact, ReduceMean(e, AllToAll(e, sends, r)), e.groups))
    && (forall r :: 0 <= r < e.world ==> restored[r] == Flatten(Restored(e, AllGather(e, rows))))
  }

  lemma {:induction false} GatheredShard<B(!new)>(
    e: Exchange<B>, xs: seq<seq<real>>, sends: seq<seq<B>>, rows: seq<seq<B>>, restored: seq<seq<real>>, d: nat)
    requires FullTensorRound(e, xs, sends, rows, restored) && d < e.world
    ensures |ReducedTensor(e, xs)| == (e.world * e.groups) * e.codec.groupSize
    ensures |Image(e.codec, ReducedTensor(e, xs), e.world * e.groups)| == e.Padded()
    ensures Restored(e, AllGather(e, rows))[d]
         == Block(Image(e.codec, ReducedTensor(e, xs), e.world * e.groups), e.ShardNumel(), e.world, d)
  {
    ReducedShardIsSlot(e, xs, sends, d);
    var shard := ReduceMean(e, AllToAll(e, sends, d));
    SlotOfFlatten(rows, e.stride, d);
    DequantizePayload(e.codec, e.compact, shard, e.groups);
    ImageOfSlot(e.codec, ReducedTensor(e, xs), e.world, e.groups, d);
  }

  /** After the round every rank holds the same tensor: the image of the mean of the images, taken
      over the whole padded buffer as if nothing had been cut, exchanged or gathered. */
  lemma {:induction false} FullTensorIsImageOfMean<B(!new)>(
    e: Exchange<B>, xs: seq<seq<real>>, sends: seq<seq<B>>, rows: seq<seq<B>>, restored: seq<seq<real>>, r: nat)
    requires FullTensorRound(e, xs, sends, rows, restored) && r < e.world
    ensures |ReducedTensor(e, xs)| == (e.world * e.groups) * e.codec.groupSize
    ensures restored[r] == Image(e.codec, ReducedTensor(e, xs), e.world * e.groups)
  {
    var whole := Restored(e, AllGather(e, rows));
    GatheredShard(e, xs, sends, rows, restored, 0);
    var goal := Image(e.codec, ReducedTensor(e, xs), e.world * e.groups);
    forall d | 0 <= d < e.world
      ensures whole[d] == Block(goal, e.ShardNumel(), e.world, d)
    {
      GatheredShard(e, xs, sends, rows, restored, d);
    }
    FlattenOfSlots(goal, e.ShardNumel(), e.world, whole);
  }

  /** With a lossless codec the reduced tensor starts with the elementwise mean of the inputs. */
  lemma {:induction false} LosslessReduced<B(!new)>(e: Exchange<B>, xs: seq<seq<real>>, numel: nat)
    requires e.Valid() && e.codec.Lossless() && |xs| == e.world && Uniform(xs, numel) && numel <= e.Padded()
    ensures ReducedTensor(e, xs)[..numel] == MeanOf(xs, numel)
  {
    Regroup(e.world, e.groups, e.codec.groupSize);
    var images := Contributions(e, xs);
    forall s | 0 <= s < e.world
      ensures images[s] == Pad(xs[s], e.Padded())
    {
      LosslessImage(e.codec, Pad(xs[s], e.Padded()), e.world * e.groups);
    }
    forall i | 0 <= i < numel
      ensures ReducedTensor(e, xs)[i] == MeanOf(xs, numel)[i]
    {
      assert Column(images, e.Padded(), i) == Column(xs, numel, i);
    }
  }

  /** Full tensor refines the native mean: with a lossless codec every rank's trimmed result is the
      elementwise mean, for every world size, size and content of padding and slot tails. */
  lemma {:induction false} FullTensorRefinesMean<B(!new)>(
    e: Exchange<B>, xs: seq<seq<real>>, sends: seq<seq<B>>, rows: seq<seq<B>>, restored: seq<seq<real>>,
    r: nat, numel: nat)
    requires FullTensorRound(e, xs, sends, rows, restored) && r < e.world
    requires e.codec.Lossless() && Uniform(xs, numel) && numel <= e.Padded()
    ensures |restored[r]| == e.Padded() && restored[r][..numel] == MeanOf(xs, numel)
  {
    FullTensorIsImageOfMean(e, xs, sends, rows, restored, r);
    LosslessImage(e.codec, ReducedTensor(e, xs), e.world * e.groups);
    LosslessReduced(e, xs, numel);
  }

  /** Reduced shards, concatenated and trimmed, are the elementwise mean. */
  lemma {:induction false} ReducedShardsRefineMean<B(!new)>(
    e: Exchange<B>, xs: seq<seq<real>>, sends: seq<seq<B>>, shards: seq<seq<real>>, numel: nat)
    requires AllSend(e, xs, sends) && Uniform(sends, e.world * e.stride)
    requires e.codec.Lossless() && Uniform(xs, numel) && numel <= e.Padded()
    requires |shards| == e.world
    requires forall r :: 0 <= r < e.world ==> shards[r] == ReduceMean(e, AllToAll(e, sends, r))
    ensures |Flatten(shards)| == e.Padded() && Flatten(shards)[..numel] == MeanOf(xs, numel)
  {
    forall r | 0 <= r < e.world
      ensures shards[r] == Block(ReducedTensor(e, xs), e.ShardNumel(), e.world, r)
    {
      ReducedShardIsSlot(e, xs, sends, r);
    }
    FlattenOfSlots(ReducedTensor(e, xs), e.ShardNumel(), e.world, shards);
    LosslessReduced(e, xs, numel);
  }

  // ---------------------------------------------------------------------------
  // The compressed all-gather program: one slot per rank carries its whole tensor.

  /** Rank `s` sends one slot: the payload of its padded input in front, anything behind it. */
  ghost predicate AllContribute<B(!new)>(e: Exchange<B>, xs: seq<seq<real>>, rows: seq<seq<B>>) {
    && e.Valid()
    && |xs| == |rows| == e.world && Uniform(rows, e.stride)
    && forall s :: 0 <= s < e.world ==>
         |xs[s]| <= e.ShardNumel()
         && rows[s][..e.PayloadNumel()] == Payload(e.codec, e.compact, Pad(xs[s], e.ShardNumel()), e.groups)
  }

  lemma {:induction false} GatheredContribution<B(!new)>(e: Exchange<B>, xs: seq<seq<real>>, rows: seq<seq<B>>, s: nat)
    requires AllContribute(e, xs, rows) && s < e.world
    ensures Restored(e, AllGather(e, rows))[s] == Image(e.codec, Pad(xs[s], e.ShardNumel()), e.groups)
  {
    SlotOfFlatten(rows, e.stride, s);
    DequantizePayload(e.codec, e.compact, Pad(xs[s], e.ShardNumel()), e.groups);
  }

  /** Every rank computes the mean of the images of the gathered tensors. */
  lemma {:induction false} AllGatherIsMeanOfImages<B(!new)>(
    e: Exchange<B>, xs: seq<seq<real>>, rows: seq<seq<B>>, images: seq<seq<real>>)
    requires AllContribute(e, xs, rows) && |images| == e.world
    requires forall s :: 0 <= s < e.world ==> images[s] == Image(e.codec, Pad(xs[s], e.ShardNumel()), e.groups)
    ensures Uniform(images, e.ShardNumel())
    ensures ReduceMean(e, AllGather(e, rows)) == MeanOf(images, e.ShardNumel())
  {
    RestoredLengths(e, AllGather(e, rows));
    forall s | 0 <= s < e.world
      ensures images[s] == Restored(e, AllGather(e, rows))[s]
    {
      GatheredContribution(e, xs, rows, s);
    }
    assert images == Restored(e, AllGather(e, rows));
  }

  lemma {:induction false} AllGatherRefinesMean<B(!new)>(
    e: Exchange<B>, xs: seq<seq<real>>, rows: seq<seq<B>>, numel: nat)
    requires AllContribute(e, xs, rows) && e.codec.Lossless() && Uniform(xs, numel) && numel <= e.ShardNumel()
    ensures ReduceMean(e, AllGather(e, rows))[..numel] == MeanOf(xs, numel)
  {
    RestoredLengths(e, AllGather(e, rows));
    var images := Restored(e, AllGather(e, rows));
    forall s | 0 <= s < e.world
      ensures images[s] == Pad(xs[s], e.ShardNumel())
    {
      GatheredContribution(e, xs, rows, s);
      LosslessImage(e.codec, Pad(xs[s], e.ShardNumel()), e.groups);
    }
    forall i | 0 <= i < numel
      ensures ReduceMean(e, AllGather(e, rows))[i] == MeanOf(xs, numel)[i]
    {
      assert Column(images, e.ShardNumel(), i) == Column(xs, numel, i);
    }
  }

  // ---------------------------------------------------------------------------
  // What error feedback sees.

  /** Quantize and dequantize the local tensor, padded only to whole groups. */
  method ReconstructLocal<B(!new)>(c: Codec<B>, compact: bool, value: seq<real>, payload: array<B>)
    returns (restored: seq<real>)
    requires c.Valid() && payload.Length == Shards.CeilDiv(|value|, c.groupSize) * c.GroupBytes()
    modifies payload
    ensures restored == LocalReconstruction(c, value)
  {
    var n := Shards.CeilDiv(|value|, c.groupSize);
    Shards.CeilDivBounds(|value|, c.groupSize);
    var prepared := PadInto(value, n * c.groupSize);
    var source := prepared[..];
    DequantizePayload(c, compact, source, n);
    ImageLength(c, source, n);
    QuantizeInto(c, compact, source, n, payload, 0);
    assert payload[..] == Payload(c, compact, source, n);
    restored := Dequantize(c, compact, payload[..], n)[..|value|];
  }

  function LocalReconstruction<B(!new)>(c: Codec<B>, value: seq<real>): seq<real>
    requires c.Valid()
  {
    var n := Shards.CeilDiv(|value|, c.groupSize);
    Shards.CeilDivBounds(|value|, c.groupSize);
    ImageLength(c, Pad(value, n * c.groupSize), n);
    Image(c, Pad(value, n * c.groupSize), n)[..|value|]
  }

  /** Error feedback sees what was sent: the local reconstruction is the trimmed concatenation of
      what the receivers restore from this rank's slots. */
  lemma {:induction false} ReconstructionIsWhatWasSent<B(!new)>(
    e: Exchange<B>, value: seq<real>, send: seq<B>, restored: seq<seq<real>>)
    requires e.Valid() && |value| <= e.Padded() && SendsChunks(e, value, send)
    requires |restored| == e.world
    requires forall d :: 0 <= d < e.world ==>
      restored[d] == Dequantize(e.codec, e.compact, SlotPayload(e, send, d), e.groups)
    ensures |Flatten(restored)| == e.Padded()
    ensures LocalReconstruction(e.codec, value) == Flatten(restored)[..|value|]
  {
    var c, g := e.codec, e.codec.groupSize;
    var n := Shards.CeilDiv(|value|, g);
    Shards.CeilDivBounds(|value|, g);
    Regroup(e.world, e.groups, g);
    var padded := Pad(value, e.Padded());
    ImageLength(c, padded, e.world * e.groups);
    var image := Image(c, padded, e.world * e.groups);
    forall d | 0 <= d < e.world
      ensures restored[d] == Block(image, e.ShardNumel(), e.world, d)
    {
      DequantizePayload(c, e.compact, Block(padded, e.ShardNumel(), e.world, d), e.groups);
      ImageOfSlot(c, padded, e.world, e.groups, d);
    }
    FlattenOfSlots(image, e.ShardNumel(), e.world, restored);
    if e.world * e.groups < n {
      Shards.MulMonotone(e.world * e.groups, n - 1, g);
      assert false;
    }
    ImageOfPrefix(c, value, n, e.world * e.groups);
  }

  /** The mean of prefixes is the prefix of the mean. */
  lemma {:induction false} MeanOfPrefix(wholes: seq<seq<real>>, n: nat, prefixes: seq<seq<real>>, m: nat)
    requires |wholes| == |prefixes| > 0 && Uniform(wholes, n) && m <= n
    requires forall s :: 0 <= s < |wholes| ==> |prefixes[s]| == m && wholes[s][..m] == prefixes[s]
    ensures Uniform(prefixes, m) && MeanOf(wholes, n)[..m] == MeanOf(prefixes, m)
  {
    forall i | 0 <= i < m
      ensures Column(wholes, n, i) == Column(prefixes, m, i)
    {
      forall s | 0 <= s < |wholes|
        ensures wholes[s][i] == prefixes[s][i]
      {
        assert wholes[s][i] == wholes[s][..m][i];
      }
    }
  }

  /** The reduced tensor is the mean of the local reconstructions: what error feedback subtracts on
      each rank is what the collective averages. */
  lemma {:induction false} ReducedIsMeanOfReconstructions<B(!new)>(
    e: Exchange<B>, xs: seq<seq<real>>, locals: seq<seq<real>>, numel: nat)
    requires e.Valid() && |xs| == |locals| == e.world && Uniform(xs, numel) && numel <= e.Padded()
    requires forall s :: 0 <= s < e.world ==> locals[s] == LocalReconstruction(e.codec, xs[s])
    ensures Uniform(locals, numel)
    ensures ReducedTensor(e, xs)[..numel] == MeanOf(locals, numel)
  {
    var c, g := e.codec, e.codec.groupSize;
    var n := Shards.CeilDiv(numel, g);
    Shards.CeilDivBounds(numel, g);
    Regroup(e.world, e.groups, g);
    if e.world * e.groups < n {
      Shards.MulMonotone(e.world * e.groups, n - 1, g);
      assert false;
    }
    forall s | 0 <= s < e.world
      ensures |locals[s]| == numel && Contributions(e, xs)[s][..numel] == locals[s]
    {
      ImageOfPrefix(c, xs[s], n, e.world * e.groups);
    }
    MeanOfPrefix(Contributions(e, xs), e.Padded(), locals, numel);
  }
}
