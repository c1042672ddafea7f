/** When the fused CUDA kernels accept the sizes that the executables compile. */
module FusedKernels {
  import opened Sequences
  import opened Codecs
  import opened Executors
  import opened Collectives
  import Shards

  const FUSED_GROUP_SIZE: nat := 64
  const FUSED_BIT: nat := 8
  const FUSED_MAX_INPUTS: nat := 8

  /** Guard of the dequantize-reduce-mean kernel. */
  predicate ReduceAccepts(inputs: seq<nat>, outputNumel: nat, wire: QuantizedWire, dtype: DataType) {
    && 0 < |inputs| <= FUSED_MAX_INPUTS
    && wire.groupSize == FUSED_GROUP_SIZE && wire.bit == FUSED_BIT && wire.quantType == "linear"
    && outputNumel != 0 && outputNumel % FUSED_GROUP_SIZE == 0
    && var groups := (outputNumel + FUSED_GROUP_SIZE - 1) / FUSED_GROUP_SIZE;
       var expected := groups * (FUSED_GROUP_SIZE + ScaleBytes(dtype));
       forall i :: 0 <= i < |inputs| ==> inputs[i] == expected
  }

  /** Guard of the dequantize-reduce-mean-requantize kernel. */
  predicate RequantizeAccepts(inputs: seq<nat>, outputBytes: nat, wire: QuantizedWire, dtype: DataType) {
    && 0 < |inputs| <= FUSED_MAX_INPUTS
    && wire.groupSize == FUSED_GROUP_SIZE && wire.bit == FUSED_BIT && wire.quantType == "linear" && !wire.compact
    && var bytesPerGroup := FUSED_GROUP_SIZE + ScaleBytes(dtype);
    && inputs[0] != 0 && inputs[0] % bytesPerGroup == 0
    && var expected := (inputs[0] / bytesPerGroup) * bytesPerGroup;
    && expected <= outputBytes && outputBytes % 16 == 0
    && forall i :: 0 <= i < |inputs| ==> inputs[i] == expected
  }

  /** Guard of the gathered-dequantize-writeback kernel. */
  predicate WritebackAccepts(
    gatheredBytes: nat, outputNumel: nat, wire: QuantizedWire, dtype: DataType,
    world: nat, payloadNumel: nat, payloadStride: nat, shardNumel: nat)
  {
    && 1 <= world <= FUSED_MAX_INPUTS
    && wire.groupSize == FUSED_GROUP_SIZE && wire.bit == FUSED_BIT && wire.quantType == "linear"
    && shardNumel > 0
    && payloadNumel <= payloadStride && payloadStride % 16 == 0
    && payloadNumel == ((shardNumel + FUSED_GROUP_SIZE - 1) / FUSED_GROUP_SIZE) * (FUSED_GROUP_SIZE + ScaleBytes(dtype))
    && gatheredBytes == world * payloadStride
    && outputNumel == world * shardNumel
  }

  // ---------------------------------------------------------------------------
  // What the guards ask for, in whole groups of 64 values and a scale of four bytes for FP32 and two otherwise.

  function FusedBytes(dtype: DataType): (bytes: nat)
    ensures bytes == match dtype case FP32 => 68 case FP16 => 66 case BF16 => 66
  {
    FUSED_GROUP_SIZE + ScaleBytes(dtype)
  }

  lemma {:induction false} ReduceAcceptsIff(
    inputs: seq<nat>, outputNumel: nat, wire: QuantizedWire, dtype: DataType, groups: nat, rest: nat)
    requires outputNumel == groups * 64 + rest && rest < 64
    ensures ReduceAccepts(inputs, outputNumel, wire, dtype) <==>
              && 1 <= |inputs| <= 8
              && wire.groupSize == 64 && wire.bit == 8 && wire.quantType == "linear"
              && groups > 0 && rest == 0
              && forall i :: 0 <= i < |inputs| ==> inputs[i] == groups * FusedBytes(dtype)
  {
    DivModUnique(outputNumel, 64, groups, rest);
    if rest == 0 {
      DivModUnique(outputNumel + 63, 64, groups, 63);
    }
  }

  lemma {:induction false} RequantizeAcceptsIff(
    inputs: seq<nat>, outputBytes: nat, wire: QuantizedWire, dtype: DataType, groups: nat, rest: nat)
    requires |inputs| > 0 ==> inputs[0] == groups * FusedBytes(dtype) + rest && rest < FusedBytes(dtype)
    ensures RequantizeAccepts(inputs, outputBytes, wire, dtype) <==>
              && 1 <= |inputs| <= 8
              && wire.groupSize == 64 && wire.bit == 8 && wire.quantType == "linear" && !wire.compact
              && groups > 0 && rest == 0
              && (forall i :: 0 <= i < |inputs| ==> inputs[i] == groups * FusedBytes(dtype))
              && groups * FusedBytes(dtype) <= outputBytes && outputBytes % 16 == 0
  {
    if |inputs| > 0 {
      var per := FusedBytes(dtype);
      DivModUnique(inputs[0], per, groups, rest);
      GroupCounts(groups, per);
    }
  }

  lemma {:induction false} WritebackAcceptsIff(
    gatheredBytes: nat, outputNumel: nat, wire: QuantizedWire, dtype: DataType,
    world: nat, payloadNumel: nat, payloadStride: nat, shardNumel: nat, groups: nat)
    requires shardNumel <= groups * 64 && (groups > 0 ==> (groups - 1) * 64 < shardNumel)
    ensures WritebackAccepts(gatheredBytes, outputNumel, wire, dtype, world, payloadNumel, payloadStride, shardNumel)
       <==> && 1 <= world <= 8
            && wire.groupSize == 64 && wire.bit == 8 && wire.quantType == "linear"
            && shardNumel != 0 && outputNumel == world * shardNumel
            && payloadNumel == groups * FusedBytes(dtype) && payloadNumel <= payloadStride
            && payloadStride % 16 == 0 && gatheredBytes == world * payloadStride
  {
    DivModUnique(shardNumel + 63, 64, groups, shardNumel + 63 - groups * 64);
  }

  /** The wires the fused kernels know: INT8 linear in groups of 64. */
  predicate FusedLinear(wire: QuantizedWire) {
    wire.bit == FUSED_BIT && wire.groupSize == FUSED_GROUP_SIZE && wire.quantType == "linear"
  }

  /** The wire the fused full-tensor executable insists on. */
  predicate FusedWire(wire: QuantizedWire) {
    !wire.compact && FusedLinear(wire)
  }

  /** The runs that the kernels do not decline. */
  predicate Accepted(wire: QuantizedWire, world: nat, numel: nat) {
    world <= FUSED_MAX_INPUTS && numel > 0 && FusedLinear(wire)
  }

  /** The sizes compiled for a tensor of `numel` elements on `world` ranks. */
  function CompileExchange<B(!new)>(
    c: Codec<B>, wire: QuantizedWire, dtype: DataType, numel: nat, world: nat): (e: Exchange<B>)
    requires c.Fits(wire, dtype) && world > 0
  {
    var groups := Shards.ShardGroups(numel, world, wire.groupSize);
    Exchange(c, wire.compact, world, groups, Align(PayloadNbytes(groups * wire.groupSize, dtype, wire), 16))
  }

  /** The sizes of the compressed all-gather: one slot per rank holds the payload of its whole tensor. */
  function CompileGather<B(!new)>(
    c: Codec<B>, wire: QuantizedWire, dtype: DataType, numel: nat, world: nat): (e: Exchange<B>)
    requires c.Fits(wire, dtype) && world > 0
  {
    Exchange(c, wire.compact, world, Shards.CeilDiv(numel, wire.groupSize),
             Align(PayloadNbytes(numel, dtype, wire), 16))
  }

  lemma {:induction false} CompiledGather<B(!new)>(
    c: Codec<B>, wire: QuantizedWire, dtype: DataType, numel: nat, world: nat)
    requires c.Fits(wire, dtype) && world > 0
    ensures var e := CompileGather(c, wire, dtype, numel, world);
            && e.Valid() && e.stride % 16 == 0
            && e.ShardNumel() == Align(numel, wire.groupSize) && numel <= e.ShardNumel()
            && e.PayloadNumel() == PayloadNbytes(numel, dtype, wire)
            && (e.groups == 0 <==> numel == 0)
  {
    Shards.CeilDivBounds(numel, wire.groupSize);
    AlignCovers(numel, wire.groupSize);
    AlignCovers(PayloadNbytes(numel, dtype, wire), 16);
  }

  /** The compiled exchange is well formed and agrees with the shard plan of every rank. */
  lemma {:induction false} CompiledExchange<B(!new)>(
    c: Codec<B>, wire: QuantizedWire, dtype: DataType, numel: nat, world: nat, rank: nat)
    requires c.Fits(wire, dtype) && rank < world
    ensures var e := CompileExchange(c, wire, dtype, numel, world);
            var p := Shards.CompileShardPlan(numel, rank, world, wire.groupSize).value;
            && e.Valid() && e.stride % 16 == 0
            && e.ShardNumel() == p.shardNumel && e.Padded() == p.paddedNumel && numel <= e.Padded()
            && e.PayloadNumel() == PayloadNbytes(p.shardNumel, dtype, wire)
            && (e.groups == 0 <==> numel == 0)
  {
    Shards.PlanIsLeastCover(numel, rank, world, wire.groupSize);
    var groups := Shards.ShardGroups(numel, world, wire.groupSize);
    Shards.CeilDivWhole(groups, wire.groupSize);
    AlignCovers(PayloadNbytes(groups * wire.groupSize, dtype, wire), 16);
  }

  /** The full-tensor kernels run exactly for non-empty tensors on at most eight ranks; the guards
      depend on sizes alone, so either every rank goes on to the second collective or none does. */
  lemma {:induction false} FullTensorKernelsAcceptIff<B(!new)>(
    c: Codec<B>, wire: QuantizedWire, dtype: DataType, numel: nat, world: nat)
    requires c.Fits(wire, dtype) && FusedWire(wire) && world > 0
    ensures var e := CompileExchange(c, wire, dtype, numel, world);
            && (RequantizeAccepts(PayloadSizes(e), e.stride, wire, dtype) <==> Accepted(wire, world, numel))
            && (WritebackAccepts(world * e.stride, e.Padded(), wire, dtype,
                                 world, e.PayloadNumel(), e.stride, e.ShardNumel())
                <==> Accepted(wire, world, numel))
  {
    var e := CompileExchange(c, wire, dtype, numel, world);
    CompiledExchange(c, wire, dtype, numel, world, 0);
    assert e.PayloadNumel() == e.groups * (64 + ScaleBytes(dtype)) && e.world == world;
    assert e.ShardNumel() == e.groups * 64;
    GroupCounts(e.groups, 64 + ScaleBytes(dtype));
    hide CompileExchange, RequantizeAccepts, WritebackAccepts;
    RequantizeGuard(e.groups, e.stride, wire, dtype, PayloadSizes(e));
    WritebackGuard(e.groups, e.stride, wire, dtype, world);
  }

  lemma GroupCounts(groups: nat, per: nat)
    requires per > 0
    ensures (groups * per) % per == 0 && groups * per / per == groups && (groups * 64 + 63) / 64 == groups
    ensures groups * per == 0 <==> groups == 0
  {
    DivModUnique(groups * per, per, groups, 0);
    DivModUnique(groups * 64 + 63, 64, groups, 63);
    if groups > 0 {
      MulStep(0, groups, per);
    }
  }

  lemma RequantizeGuard(groups: nat, stride: nat, wire: QuantizedWire, dtype: DataType, inputs: seq<nat>)
    requires FusedWire(wire) && |inputs| > 0 && groups * (64 + ScaleBytes(dtype)) <= stride && stride % 16 == 0
    requires forall i :: 0 <= i < |inputs| ==> inputs[i] == groups * (64 + ScaleBytes(dtype))
    ensures RequantizeAccepts(inputs, stride, wire, dtype) <==> |inputs| <= 8 && groups > 0
  {
    GroupCounts(groups, 64 + ScaleBytes(dtype));
  }

  lemma WritebackGuard(groups: nat, stride: nat, wire: QuantizedWire, dtype: DataType, world: nat)
    requires FusedWire(wire) && world > 0 && groups * (64 + ScaleBytes(dtype)) <= stride && stride % 16 == 0
    ensures WritebackAccepts(world * stride, world * (groups * 64), wire, dtype, world,
                             groups * (64 + ScaleBytes(dtype)), stride, groups * 64)
       <==> world <= 8 && groups > 0
  {
    GroupCounts(groups, 64 + ScaleBytes(dtype));
  }

  /** The reduce kernel on payloads and an output of `groups` groups. */
  lemma {:induction false} ReduceGuard<B(!new)>(
    c: Codec<B>, wire: QuantizedWire, dtype: DataType, world: nat, groups: nat, inputs: seq<nat>)
    requires c.Fits(wire, dtype) && world > 0 && |inputs| == world
    requires forall i :: 0 <= i < world ==> inputs[i] == groups * c.GroupBytes()
    ensures ReduceAccepts(inputs, groups * wire.groupSize, wire, dtype)
       <==> world <= FUSED_MAX_INPUTS && groups > 0 && FusedLinear(wire)
  {
    if FusedLinear(wire) {
      DivModUnique(groups * 64, 64, groups, 0);
      DivModUnique(groups * 64 + 63, 64, groups, 63);
      assert c.GroupBytes() == 64 + ScaleBytes(dtype);
    }
  }

  /** With the sizes that the reduced-shard and the all-gather executable compile, the reduce kernel runs
      exactly for non-empty tensors on at most eight ranks over an INT8 linear wire in groups of 64. */
  lemma {:induction false} ReduceKernelAcceptsIff<B(!new)>(
    c: Codec<B>, wire: QuantizedWire, dtype: DataType, numel: nat, world: nat)
    requires c.Fits(wire, dtype) && world > 0
    ensures var e := CompileExchange(c, wire, dtype, numel, world);
            ReduceAccepts(PayloadSizes(e), e.ShardNumel(), wire, dtype) <==> Accepted(wire, world, numel)
    ensures var e := CompileGather(c, wire, dtype, numel, world);
            ReduceAccepts(PayloadSizes(e), e.ShardNumel(), wire, dtype) <==> Accepted(wire, world, numel)
  {
    var shard, gather := CompileExchange(c, wire, dtype, numel, world), CompileGather(c, wire, dtype, numel, world);
    CompiledExchange(c, wire, dtype, numel, world, 0);
    CompiledGather(c, wire, dtype, numel, world);
    hide ReduceAccepts;
    ReduceGuard(c, wire, dtype, world, shard.groups, PayloadSizes(shard));
    ReduceGuard(c, wire, dtype, world, gather.groups, PayloadSizes(gather));
  }

  /** The sizes of the payloads that a kernel is called with, one per rank. */
  function PayloadSizes<B(!new)>(e: Exchange<B>): (sizes: seq<nat>)
    ensures |sizes| == e.world
  {
    seq(e.world, _ => e.PayloadNumel())
  }
}
