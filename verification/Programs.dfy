/** The compressed programs run on all ranks, from the inputs to how each rank ends. */
module Programs {
  import opened Sequences
  import opened Codecs
  import opened Executors
  import opened Collectives
  import opened FusedKernels
  import opened Wrappers
  import opened LinearCodecs

  // ---------------------------------------------------------------------------
  // What the programs return.

  /** What every rank returns from the full-tensor program. */
  ghost function FullTensorValue<B(!new)>(
    c: Codec<B>, wire: QuantizedWire, dtype: DataType, numel: nat, xs: seq<seq<real>>): (value: seq<real>)
    requires c.Fits(wire, dtype) && |xs| > 0 && Uniform(xs, numel)
    ensures |value| == numel
  {
    var e := CompileExchange(c, wire, dtype, numel, |xs|);
    CompiledExchange(c, wire, dtype, numel, |xs|, 0);
    Regroup(e.world, e.groups, c.groupSize);
    ImageLength(c, ReducedTensor(e, xs), e.world * e.groups);
    Image(c, ReducedTensor(e, xs), e.world * e.groups)[..numel]
  }

  /** What rank `r` returns from the reduced-shard program. */
  ghost function ShardValue<B(!new)>(
    c: Codec<B>, wire: QuantizedWire, dtype: DataType, numel: nat, xs: seq<seq<real>>, r: nat): (value: seq<real>)
    requires c.Fits(wire, dtype) && |xs| > 0 && Uniform(xs, numel) && r < |xs|
    ensures |value| == CompileExchange(c, wire, dtype, numel, |xs|).ShardNumel()
  {
    var e := CompileExchange(c, wire, dtype, numel, |xs|);
    CompiledExchange(c, wire, dtype, numel, |xs|, r);
    Block(ReducedTensor(e, xs), e.ShardNumel(), e.world, r)
  }

  /** The padded inputs of the all-gather program, seen through the codec once. */
  ghost function GatheredImages<B(!new)>(e: Exchange<B>, xs: seq<seq<real>>): (images: seq<seq<real>>)
    requires e.Valid() && forall s :: 0 <= s < |xs| ==> |xs[s]| <= e.ShardNumel()
    ensures |images| == |xs| && Uniform(images, e.ShardNumel())
  {
    assert forall s :: 0 <= s < |xs| ==> |Image(e.codec, Pad(xs[s], e.ShardNumel()), e.groups)| == e.ShardNumel() by {
      forall s | 0 <= s < |xs| {
        ImageLength(e.codec, Pad(xs[s], e.ShardNumel()), e.groups);
      }
    }
    seq(|xs|, s requires 0 <= s < |xs| => Image(e.codec, Pad(xs[s], e.ShardNumel()), e.groups))
  }

  /** What every rank returns from the compressed all-gather program. */
  ghost function GatherValue<B(!new)>(
    c: Codec<B>, wire: QuantizedWire, dtype: DataType, numel: nat, xs: seq<seq<real>>): (value: seq<real>)
    requires c.Fits(wire, dtype) && |xs| > 0 && Uniform(xs, numel)
    ensures |value| == numel
  {
    var e := CompileGather(c, wire, dtype, numel, |xs|);
    CompiledGather(c, wire, dtype, numel, |xs|);
    MeanOf(GatheredImages(e, xs), e.ShardNumel())[..numel]
  }

  /** With a lossless codec the full tensor and the all-gather return the mean on every rank, and the shards
      of all ranks, concatenated and trimmed, are the mean. */
  lemma {:induction false} LosslessValues<B(!new)>(
    c: Codec<B>, wire: QuantizedWire, dtype: DataType, numel: nat, xs: seq<seq<real>>)
    requires c.Fits(wire, dtype) && c.Lossless() && |xs| > 0 && Uniform(xs, numel)
    ensures FullTensorValue(c, wire, dtype, numel, xs) == MeanOf(xs, numel)
    ensures GatherValue(c, wire, dtype, numel, xs) == MeanOf(xs, numel)
    ensures var shards := seq(|xs|, r requires 0 <= r < |xs| => ShardValue(c, wire, dtype, numel, xs, r));
            |Flatten(shards)| >= numel && Flatten(shards)[..numel] == MeanOf(xs, numel)
  {
    LosslessFullTensor(c, wire, dtype, numel, xs);
    LosslessGathered(c, wire, dtype, numel, xs);
  }

  lemma {:induction false} LosslessFullTensor<B(!new)>(
    c: Codec<B>, wire: QuantizedWire, dtype: DataType, numel: nat, xs: seq<seq<real>>)
    requires c.Fits(wire, dtype) && c.Lossless() && |xs| > 0 && Uniform(xs, numel)
    ensures FullTensorValue(c, wire, dtype, numel, xs) == MeanOf(xs, numel)
    ensures var shards := seq(|xs|, r requires 0 <= r < |xs| => ShardValue(c, wire, dtype, numel, xs, r));
            |Flatten(shards)| >= numel && Flatten(shards)[..numel] == MeanOf(xs, numel)
  {
    var e := CompileExchange(c, wire, dtype, numel, |xs|);
    CompiledExchange(c, wire, dtype, numel, |xs|, 0);
    Regroup(e.world, e.groups, c.groupSize);
    var reduced := ReducedTensor(e, xs);
    LosslessReduced(e, xs, numel);
    LosslessImage(c, reduced, e.world * e.groups);
    FlattenOfSlots(reduced, e.ShardNumel(), e.world,
                   seq(|xs|, r requires 0 <= r < |xs| => ShardValue(c, wire, dtype, numel, xs, r)));
  }

  lemma {:induction false} LosslessGathered<B(!new)>(
    c: Codec<B>, wire: QuantizedWire, dtype: DataType, numel: nat, xs: seq<seq<real>>)
    requires c.Fits(wire, dtype) && c.Lossless() && |xs| > 0 && Uniform(xs, numel)
    ensures GatherValue(c, wire, dtype, numel, xs) == MeanOf(xs, numel)
  {
    var e := CompileGather(c, wire, dtype, numel, |xs|);
    CompiledGather(c, wire, dtype, numel, |xs|);
    forall s | 0 <= s < |xs|
      ensures GatheredImages(e, xs)[s][..numel] == xs[s]
    {
      LosslessImage(c, Pad(xs[s], e.ShardNumel()), e.groups);
    }
    MeanOfPrefix(GatheredImages(e, xs), e.ShardNumel(), xs, numel);
  }

  /** With the INT8 linear codec, what every rank returns from the full-tensor program is, element by element, within
      the mean scale of the element's group over 127 of the mean, for any number of ranks. */
  lemma {:induction false} FullTensorError(
    wire: QuantizedWire, dtype: DataType, numel: nat, xs: seq<seq<real>>, k: nat)
    requires wire.Valid() && wire.bit == 8 && |xs| > 0 && Uniform(xs, numel) && k < numel
    ensures var c := Linear(wire.groupSize, dtype);
            c.Fits(wire, dtype)
            && var e := CompileExchange(c, wire, dtype, numel, |xs|);
               && numel <= e.Padded() == (e.world * e.groups) * wire.groupSize
               && 0 <= k / wire.groupSize < e.world * e.groups
               && Abs(FullTensorValue(c, wire, dtype, numel, xs)[k] - MeanOf(xs, numel)[k])
                  <= MeanScale(PaddedInputs(e, xs), wire.groupSize, e.world * e.groups, k / wire.groupSize) / 127.0
  {
    LinearFits(wire, dtype);
    var c := Linear(wire.groupSize, dtype);
    var e := CompileExchange(c, wire, dtype, numel, |xs|);
    CompiledExchange(c, wire, dtype, numel, |xs|, 0);
    Regroup(e.world, e.groups, c.groupSize);
    ResultError(e, dtype, xs, numel, k);
  }

  // ---------------------------------------------------------------------------
  // How the programs end.

  /** Rank `r` when it refuses an input of another size by itself, before the first collective; when some other
      rank has refused and it waits in that collective; when the kernels decline on all ranks; and otherwise. */
  ghost function EndingOn(xs: seq<seq<real>>, numel: nat, accepted: bool, r: nat, value: seq<real>): Ending<seq<real>>
    requires r < |xs|
  {
    if |xs[r]| != numel then Raised
    else if !Uniform(xs, numel) then Waiting
    else if !accepted then Raised
    else Returned(value)
  }

  ghost function FullTensorEnding<B(!new)>(
    c: Codec<B>, wire: QuantizedWire, dtype: DataType, numel: nat, xs: seq<seq<real>>, r: nat): Ending<seq<real>>
    requires c.Fits(wire, dtype) && r < |xs|
  {
    var value := if Uniform(xs, numel) then FullTensorValue(c, wire, dtype, numel, xs) else [];
    EndingOn(xs, numel, Accepted(wire, |xs|, numel), r, value)
  }

  ghost function ShardEnding<B(!new)>(
    c: Codec<B>, wire: QuantizedWire, dtype: DataType, numel: nat, xs: seq<seq<real>>, r: nat): Ending<seq<real>>
    requires c.Fits(wire, dtype) && r < |xs|
  {
    var value := if Uniform(xs, numel) then ShardValue(c, wire, dtype, numel, xs, r) else [];
    EndingOn(xs, numel, Accepted(wire, |xs|, numel), r, value)
  }

  ghost function GatherEnding<B(!new)>(
    c: Codec<B>, wire: QuantizedWire, dtype: DataType, numel: nat, xs: seq<seq<real>>, r: nat): Ending<seq<real>>
    requires c.Fits(wire, dtype) && r < |xs|
  {
    var value := if Uniform(xs, numel) then GatherValue(c, wire, dtype, numel, xs) else [];
    EndingOn(xs, numel, Accepted(wire, |xs|, numel), r, value)
  }

  /** A rank with another input size raises, and the others wait for it; when all sizes agree, the rank returns exactly
      for a non-empty tensor on at most eight ranks over an INT8 linear wire in groups of 64, and raises otherwise. */
  ghost predicate EndsAs(wire: QuantizedWire, numel: nat, xs: seq<seq<real>>, r: nat, ending: Ending<seq<real>>)
    requires r < |xs|
  {
    && (|xs[r]| != numel ==> ending == Raised)
    && (|xs[r]| == numel && (exists s :: 0 <= s < |xs| && |xs[s]| != numel) ==> ending == Waiting)
    && ((forall s :: 0 <= s < |xs| ==> |xs[s]| == numel) ==>
          if |xs| <= 8 && numel > 0 && wire.bit == 8 && wire.groupSize == 64 && wire.quantType == "linear"
          then ending.Returned? else ending == Raised)
  }

  lemma {:induction false} EndingOnIs(
    wire: QuantizedWire, numel: nat, xs: seq<seq<real>>, r: nat, value: seq<real>)
    requires r < |xs|
    ensures EndsAs(wire, numel, xs, r, EndingOn(xs, numel, Accepted(wire, |xs|, numel), r, value))
    ensures EndingOn(xs, numel, Accepted(wire, |xs|, numel), r, value).Returned? ==>
              Uniform(xs, numel) && EndingOn(xs, numel, Accepted(wire, |xs|, numel), r, value) == Returned(value)
  {
  }

  /** How the full-tensor program ends on every rank for all inputs; with a lossless codec it returns the mean. */
  lemma {:induction false} FullTensorEnds<B(!new)>(
    c: Codec<B>, wire: QuantizedWire, dtype: DataType, numel: nat, xs: seq<seq<real>>, r: nat)
    requires c.Fits(wire, dtype) && r < |xs|
    ensures var ending := FullTensorEnding(c, wire, dtype, numel, xs, r);
            && EndsAs(wire, numel, xs, r, ending)
            && (ending.Returned? && c.Lossless() ==> Uniform(xs, numel) && ending.value == MeanOf(xs, numel))
  {
    hide FullTensorValue, MeanOf, EndingOn, EndsAs, Accepted;
    EndingOnIs(wire, numel, xs, r, if Uniform(xs, numel) then FullTensorValue(c, wire, dtype, numel, xs) else []);
    if Uniform(xs, numel) && c.Lossless() {
      LosslessValues(c, wire, dtype, numel, xs);
    }
  }

  /** How the compressed all-gather program ends. */
  lemma {:induction false} GatherEnds<B(!new)>(
    c: Codec<B>, wire: QuantizedWire, dtype: DataType, numel: nat, xs: seq<seq<real>>, r: nat)
    requires c.Fits(wire, dtype) && r < |xs|
    ensures var ending := GatherEnding(c, wire, dtype, numel, xs, r);
            && EndsAs(wire, numel, xs, r, ending)
            && (ending.Returned? && c.Lossless() ==> Uniform(xs, numel) && ending.value == MeanOf(xs, numel))
  {
    hide GatherValue, MeanOf, EndingOn, EndsAs, Accepted;
    EndingOnIs(wire, numel, xs, r, if Uniform(xs, numel) then GatherValue(c, wire, dtype, numel, xs) else []);
    if Uniform(xs, numel) && c.Lossless() {
      LosslessValues(c, wire, dtype, numel, xs);
    }
  }

  /** The shard of rank `r` holds the mean's elements from `r` times its size on. */
  ghost predicate IsPartOf(shard: seq<real>, mean: seq<real>, r: nat) {
    forall k :: 0 <= k < |shard| && 0 <= r * |shard| + k < |mean| ==> shard[k] == mean[r * |shard| + k]
  }

  /** How the reduced-shard program ends; with a lossless codec a rank returns its part of the mean. */
  lemma {:induction false} ShardEnds<B(!new)>(
    c: Codec<B>, wire: QuantizedWire, dtype: DataType, numel: nat, xs: seq<seq<real>>, r: nat)
    requires c.Fits(wire, dtype) && r < |xs|
    ensures var ending := ShardEnding(c, wire, dtype, numel, xs, r);
            && EndsAs(wire, numel, xs, r, ending)
            && (ending.Returned? && c.Lossless() ==>
                  Uniform(xs, numel) && IsPartOf(ending.value, MeanOf(xs, numel), r))
  {
    hide ShardValue, MeanOf, EndingOn, EndsAs, Accepted, IsPartOf;
    EndingOnIs(wire, numel, xs, r, if Uniform(xs, numel) then ShardValue(c, wire, dtype, numel, xs, r) else []);
    if Uniform(xs, numel) && c.Lossless() {
      LosslessShard(c, wire, dtype, numel, xs, r);
    }
  }

  lemma {:induction false} BlockIsPart(s: seq<real>, width: nat, n: nat, r: nat, mean: seq<real>)
    requires |s| == n * width && r < n && |mean| <= |s| && s[..|mean|] == mean
    ensures IsPartOf(Block(s, width, n, r), mean, r)
  {
    MulStep(r, n, width);
    forall k | 0 <= k < width && 0 <= r * width + k < |mean|
      ensures Block(s, width, n, r)[k] == mean[r * width + k]
    {
      assert s[..|mean|][r * width + k] == s[r * width + k];
    }
  }

  lemma {:induction false} LosslessShard<B(!new)>(
    c: Codec<B>, wire: QuantizedWire, dtype: DataType, numel: nat, xs: seq<seq<real>>, r: nat)
    requires c.Fits(wire, dtype) && c.Lossless() && r < |xs| && Uniform(xs, numel)
    ensures IsPartOf(ShardValue(c, wire, dtype, numel, xs, r), MeanOf(xs, numel), r)
  {
    var e := CompileExchange(c, wire, dtype, numel, |xs|);
    CompiledExchange(c, wire, dtype, numel, |xs|, r);
    LosslessReduced(e, xs, numel);
    Regroup(e.world, e.groups, c.groupSize);
    hide MeanOf, IsPartOf, Block, Codec.Lossless;
    BlockIsPart(ReducedTensor(e, xs), e.ShardNumel(), e.world, r, MeanOf(xs, numel));
  }

  /** The size checks of all ranks: those that fail raise, and then the others wait for them. */
  method CheckSizes(xs: seq<seq<real>>, numel: nat) returns (ends: Option<seq<Ending<seq<real>>>>)
    ensures ends.None? <==> Uniform(xs, numel)
    ensures ends.Some? ==> |ends.value| == |xs| && forall r, accepted, value :: 0 <= r < |xs| ==>
              ends.value[r] == EndingOn(xs, numel, accepted, r, value)
  {
    ends := None;
    for s := 0 to |xs|
      invariant ends.None? <==> forall q :: 0 <= q < s ==> |xs[q]| == numel
      invariant ends.Some? ==> ends.value == seq(|xs|, r requires 0 <= r < |xs| =>
                                                   if |xs[r]| != numel then Raised else Waiting)
    {
      if |xs[s]| != numel {
        ends := Some(seq(|xs|, r requires 0 <= r < |xs| => if |xs[r]| != numel then Raised else Waiting));
      }
    }
  }

  /** Every rank raises. */
  function AllRaise(world: nat): (ends: seq<Ending<seq<real>>>)
    ensures |ends| == world && forall r :: 0 <= r < world ==> ends[r] == Raised
  {
    seq(world, _ => Raised)
  }

  method SendAll<B(!new)>(e: Exchange<B>, xs: seq<seq<real>>, garbage: nat -> B) returns (sends: seq<seq<B>>)
    requires e.Valid() && |xs| == e.world && forall s :: 0 <= s < |xs| ==> |xs[s]| <= e.Padded()
    ensures AllSend(e, xs, sends) && Uniform(sends, e.world * e.stride)
  {
    sends := [];
    for s := 0 to e.world
      invariant |sends| == s
      invariant forall q :: 0 <= q < s ==> SendsChunks(e, xs[q], sends[q])
    {
      var send := new B[e.world * e.stride](garbage);
      PrepareSend(e, xs[s], send);
      sends := sends + [send[..]];
    }
  }

  // ---------------------------------------------------------------------------
  // The full-tensor program.

  method RequantizeAll<B(!new)>(e: Exchange<B>, sends: seq<seq<B>>, zero: B) returns (rows: seq<seq<B>>)
    requires e.Valid() && |sends| == e.world && Uniform(sends, e.world * e.stride)
    ensures |rows| == e.world && Uniform(rows, e.stride)
    ensures forall r :: 0 <= r < e.world ==>
      rows[r][..e.PayloadNumel()] == Payload(e.codec, e.compact, ReduceMean(e, AllToAll(e, sends, r)), e.groups)
  {
    rows := [];
    for r := 0 to e.world
      invariant |rows| == r && Uniform(rows, e.stride)
      invariant forall q :: 0 <= q < r ==>
        rows[q][..e.PayloadNumel()] == Payload(e.codec, e.compact, ReduceMean(e, AllToAll(e, sends, q)), e.groups)
    {
      var reduced := new B[e.stride](_ => zero);
      RequantizeInto(e, AllToAll(e, sends, r), zero, reduced);
      assert reduced[..][..e.PayloadNumel()] == reduced[..e.PayloadNumel()];
      rows := rows + [reduced[..]];
    }
  }

  method WritebackAll<B(!new)>(e: Exchange<B>, gathered: seq<B>) returns (restored: seq<seq<real>>)
    requires e.Valid() && |gathered| == e.world * e.stride
    ensures |restored| == e.world
    ensures forall r :: 0 <= r < e.world ==> restored[r] == Flatten(Restored(e, gathered))
  {
    restored := [];
    for r := 0 to e.world
      invariant |restored| == r
      invariant forall q :: 0 <= q < r ==> restored[q] == Flatten(Restored(e, gathered))
    {
      var output := new real[e.Padded()];
      Writeback(e, gathered, output);
      restored := restored + [output[..]];
    }
  }

  lemma {:induction false} RoundIsValue<B(!new)>(
    c: Codec<B>, wire: QuantizedWire, dtype: DataType, numel: nat, xs: seq<seq<real>>,
    sends: seq<seq<B>>, rows: seq<seq<B>>, restored: seq<seq<real>>, r: nat)
    requires c.Fits(wire, dtype) && r < |xs| && Uniform(xs, numel)
    requires FullTensorRound(CompileExchange(c, wire, dtype, numel, |xs|), xs, sends, rows, restored)
    ensures |restored| == |xs| && numel <= |restored[r]|
    ensures restored[r][..numel] == FullTensorValue(c, wire, dtype, numel, xs)
  {
    var e := CompileExchange(c, wire, dtype, numel, |xs|);
    CompiledExchange(c, wire, dtype, numel, |xs|, 0);
    FullTensorIsImageOfMean(e, xs, sends, rows, restored, r);
    ImageLength(e.codec, ReducedTensor(e, xs), e.world * e.groups);
  }

  /** Every rank returns the unpadded prefix of what it wrote back. */
  function TrimAll<B(!new)>(
    ghost c: Codec<B>, ghost wire: QuantizedWire, ghost dtype: DataType, numel: nat, ghost xs: seq<seq<real>>,
    ghost sends: seq<seq<B>>, ghost rows: seq<seq<B>>, restored: seq<seq<real>>): (ends: seq<Ending<seq<real>>>)
    requires c.Fits(wire, dtype) && |xs| > 0 && Uniform(xs, numel)
    requires FullTensorRound(CompileExchange(c, wire, dtype, numel, |xs|), xs, sends, rows, restored)
    ensures |ends| == |xs|
    ensures forall r :: 0 <= r < |xs| ==> ends[r] == Returned(FullTensorValue(c, wire, dtype, numel, xs))
  {
    forall r | 0 <= r < |xs|
      ensures |restored| == |xs| && numel <= |restored[r]|
      ensures restored[r][..numel] == FullTensorValue(c, wire, dtype, numel, xs)
    {
      RoundIsValue(c, wire, dtype, numel, xs, sends, rows, restored, r);
    }
    RoundIsValue(c, wire, dtype, numel, xs, sends, rows, restored, 0);
    seq(|restored|, r requires 0 <= r < |restored| && numel <= |restored[r]| => Returned(restored[r][..numel]))
  }

  /** The full-tensor program on every rank, one stage after the other.  `garbage` is what freshly allocated
      buffers happen to contain. */
  method RunFullTensor<B(!new)>(
    c: Codec<B>, wire: QuantizedWire, dtype: DataType, numel: nat, xs: seq<seq<real>>, garbage: nat -> B, zero: B)
    returns (ends: seq<Ending<seq<real>>>)
    requires c.Fits(wire, dtype) && FusedWire(wire) && |xs| > 0
    ensures |ends| == |xs|
    ensures forall r :: 0 <= r < |xs| ==> ends[r] == FullTensorEnding(c, wire, dtype, numel, xs, r)
  {
    var refused := CheckSizes(xs, numel);
    if refused.Some? {
      return refused.value;
    }
    var world := |xs|;
    var e := CompileExchange(c, wire, dtype, numel, world);
    CompiledExchange(c, wire, dtype, numel, world, 0);
    assert e.world == world && e.codec == c;
    hide SendsChunks, RequantizeAccepts, WritebackAccepts, ReduceMean, AllToAll, AllGather, Restored, Flatten, Payload,
         CompileExchange, FullTensorValue;
    var declined := AllRaise(world);
    var sends := SendAll(e, xs, garbage);
    FullTensorKernelsAcceptIff(c, wire, dtype, numel, world);
    if !RequantizeAccepts(PayloadSizes(e), e.stride, wire, dtype) {
      return declined;
    }
    var rows := RequantizeAll(e, sends, zero);
    var gathered := AllGather(e, rows);
    if !WritebackAccepts(|gathered|, e.Padded(), wire, dtype, world, e.PayloadNumel(), e.stride, e.ShardNumel()) {
      return declined;
    }
    var restored := WritebackAll(e, gathered);
    assert FullTensorRound(e, xs, sends, rows, restored);
    ends := TrimAll(c, wire, dtype, numel, xs, sends, rows, restored);
  }

  // ---------------------------------------------------------------------------
  // The reduced-shard program.

  /** The fused reduce kernel on every rank's received slots. */
  method ReduceAll<B(!new)>(e: Exchange<B>, received: seq<seq<B>>) returns (ends: seq<Ending<seq<real>>>)
    requires e.Valid() && Uniform(received, e.world * e.stride)
    ensures |ends| == |received|
    ensures forall r :: 0 <= r < |received| ==> ends[r] == Returned(ReduceMean(e, received[r]))
  {
    ends := [];
    for r := 0 to |received|
      invariant |ends| == r
      invariant forall q :: 0 <= q < r ==> ends[q] == Returned(ReduceMean(e, received[q]))
    {
      ends := ends + [Returned(ReduceMean(e, received[r]))];
    }
  }

  /** The reduced-shard program on every rank. */
  method RunReducedShard<B(!new)>(
    c: Codec<B>, wire: QuantizedWire, dtype: DataType, numel: nat, xs: seq<seq<real>>, garbage: nat -> B)
    returns (ends: seq<Ending<seq<real>>>)
    requires c.Fits(wire, dtype) && |xs| > 0
    ensures |ends| == |xs|
    ensures forall r :: 0 <= r < |xs| ==> ends[r] == ShardEnding(c, wire, dtype, numel, xs, r)
  {
    var refused := CheckSizes(xs, numel);
    if refused.Some? {
      return refused.value;
    }
    var world := |xs|;
    var e := CompileExchange(c, wire, dtype, numel, world);
    CompiledExchange(c, wire, dtype, numel, world, 0);
    assert e.world == world;
    var sends := SendAll(e, xs, garbage);
    ReduceKernelAcceptsIff(c, wire, dtype, numel, world);
    hide AllToAll, ReduceMean, ReduceAccepts, SendsChunks;
    if !ReduceAccepts(PayloadSizes(e), e.ShardNumel(), wire, dtype) {
      return AllRaise(world);
    }
    var received := seq(world, r requires 0 <= r < world => AllToAll(e, sends, r));
    ends := ReduceAll(e, received);
    forall r | 0 <= r < world
      ensures ReduceMean(e, received[r]) == ShardValue(c, wire, dtype, numel, xs, r)
    {
      ReducedShardIsSlot(e, xs, sends, r);
    }
  }

  // ---------------------------------------------------------------------------
  // The compressed all-gather program.

  /** Pad one rank's tensor and quantize it into the front of its zeroed slot. */
  method Contribute<B(!new)>(e: Exchange<B>, value: seq<real>, zero: B) returns (row: seq<B>)
    requires e.Valid() && |value| <= e.ShardNumel()
    ensures |row| == e.stride
    ensures row[..e.PayloadNumel()] == Payload(e.codec, e.compact, Pad(value, e.ShardNumel()), e.groups)
  {
    var prepared := PadInto(value, e.ShardNumel());
    var send := new B[e.stride](_ => zero);
    PayloadLength(e.codec, e.compact, prepared[..], e.groups);
    QuantizeInto(e.codec, e.compact, prepared[..], e.groups, send, 0);
    row := send[..];
  }

  method ContributeAll<B(!new)>(e: Exchange<B>, xs: seq<seq<real>>, zero: B) returns (rows: seq<seq<B>>)
    requires e.Valid() && |xs| == e.world && forall s :: 0 <= s < |xs| ==> |xs[s]| <= e.ShardNumel()
    ensures AllContribute(e, xs, rows)
  {
    rows := [];
    for s := 0 to e.world
      invariant |rows| == s && Uniform(rows, e.stride)
      invariant forall q :: 0 <= q < s ==>
        rows[q][..e.PayloadNumel()] == Payload(e.codec, e.compact, Pad(xs[q], e.ShardNumel()), e.groups)
    {
      var row := Contribute(e, xs[s], zero);
      rows := rows + [row];
    }
  }

  /** The compressed all-gather program on every rank. */
  method RunAllGather<B(!new)>(
    c: Codec<B>, wire: QuantizedWire, dtype: DataType, numel: nat, xs: seq<seq<real>>, zero: B)
    returns (ends: seq<Ending<seq<real>>>)
    requires c.Fits(wire, dtype) && |xs| > 0
    ensures |ends| == |xs|
    ensures forall r :: 0 <= r < |xs| ==> ends[r] == GatherEnding(c, wire, dtype, numel, xs, r)
  {
    var refused := CheckSizes(xs, numel);
    if refused.Some? {
      return refused.value;
    }
    var world := |xs|;
    var e := CompileGather(c, wire, dtype, numel, world);
    CompiledGather(c, wire, dtype, numel, world);
    assert e.world == world;
    var rows := ContributeAll(e, xs, zero);
    ReduceKernelAcceptsIff(c, wire, dtype, numel, world);
    hide AllGather, ReduceMean, ReduceAccepts;
    if !ReduceAccepts(PayloadSizes(e), e.ShardNumel(), wire, dtype) {
      return AllRaise(world);
    }
    AllGatherIsMeanOfImages(e, xs, rows, GatheredImages(e, xs));
    var output := ReduceMean(e, AllGather(e, rows));
    ends := seq(world, _ => Returned(output[..numel]));
  }
}
