/** The CUDA executables: what one rank does to its buffers, and what all ranks compute together. */
module Executors {
  import opened Sequences
  import opened Codecs
  import Shards

  /** How a collective program ends on one rank: with a value, with an exception, or inside a collective that
      some other rank never joins. */
  datatype Ending<+T> = Returned(value: T) | Raised | Waiting

  // ---------------------------------------------------------------------------
  // Elementwise means.

  function Average(total: real, count: nat): real
    requires count > 0
  {
    total / (count as real)
  }

  /** The elementwise mean: what the native all-reduce leaves on every rank. */
  function MeanOf(vs: seq<seq<real>>, n: nat): (mean: seq<real>)
    requires |vs| > 0 && Uniform(vs, n)
    ensures |mean| == n && forall i :: 0 <= i < n ==> mean[i] == Average(Sum(Column(vs, n, i)), |vs|)
  {
    seq(n, i requires 0 <= i < n => Average(Sum(Column(vs, n, i)), |vs|))
  }

  /** The mean times the number of ranks is the sum of the ranks' elements. */
  lemma {:induction false} MeanTimesWorld(vs: seq<seq<real>>, n: nat, i: nat)
    requires |vs| > 0 && Uniform(vs, n) && i < n
    ensures MeanOf(vs, n)[i] * |vs| as real == Sum(seq(|vs|, s requires 0 <= s < |vs| => vs[s][i]))
  {
    assert Column(vs, n, i) == seq(|vs|, s requires 0 <= s < |vs| => vs[s][i]);
  }

  function Zeros(n: nat): seq<real> {
    seq(n, _ => 0.0)
  }

  function Pad(v: seq<real>, total: nat): (padded: seq<real>)
    requires |v| <= total
    ensures |padded| == total
  {
    v + Zeros(total - |v|)
  }

  lemma {:induction false} PadIs(v: seq<real>, total: nat, i: nat)
    requires |v| <= total && i < total
    ensures Pad(v, total)[i] == if i < |v| then v[i] else 0.0
  {
  }

  /** The sizes one executable is compiled with: `groups` groups per shard, one slot of `stride` bytes
      per peer of which the payload fills a prefix. */
  datatype Exchange<!B(!new)> = Exchange(codec: Codec<B>, compact: bool, world: nat, groups: nat, stride: nat)
  {
    function ShardNumel(): nat {
      groups * codec.groupSize
    }

    function PayloadNumel(): nat {
      groups * codec.GroupBytes()
    }

    ghost predicate Valid() {
      codec.Valid() && world > 0 && PayloadNumel() <= stride
    }

    function Padded(): nat {
      world * ShardNumel()
    }
  }

  // ---------------------------------------------------------------------------
  // One rank.

  /** The bytes of slot `d` that carry a payload. */
  function SlotPayload<B(!new)>(e: Exchange<B>, buffer: seq<B>, d: nat): (p: seq<B>)
    requires e.PayloadNumel() <= e.stride && d < e.world && |buffer| == e.world * e.stride
    ensures |p| == e.PayloadNumel()
  {
    Block(buffer, e.stride, e.world, d)[..e.PayloadNumel()]
  }

  /** Native quantization of `source` into a caller-owned slice; nothing else is written. */
  method QuantizeInto<B(!new)>(
    c: Codec<B>, compact: bool, source: seq<real>, n: nat, output: array<B>, offset: nat)
    requires c.Valid() && |source| == n * c.groupSize
    requires offset + n * c.GroupBytes() <= output.Length
    modifies output
    ensures output[..] == old(output[..offset]) + Payload(c, compact, source, n)
                          + old(output[offset + n * c.GroupBytes()..])
  {
    PayloadLength(c, compact, source, n);
    var payload := Payload(c, compact, source, n);
    forall i | 0 <= i < |payload| {
      output[offset + i] := payload[i];
    }
    assert output[..offset] == old(output[..offset]);
    assert output[offset..offset + |payload|] == payload;
    assert output[offset + |payload|..] == old(output[offset + |payload|..]);
  }

  function ChunkPayload<B(!new)>(e: Exchange<B>, value: seq<real>, d: nat): seq<B>
    requires |value| <= e.Padded() && d < e.world
  {
    Payload(e.codec, e.compact, Block(Pad(value, e.Padded()), e.ShardNumel(), e.world, d), e.groups)
  }

  ghost predicate SendsFirst<B(!new)>(e: Exchange<B>, value: seq<real>, send: seq<B>, n: nat)
    requires e.Valid() && |value| <= e.Padded() && n <= e.world && |send| == e.world * e.stride
  {
    forall d :: 0 <= d < n ==> SlotPayload(e, send, d) == ChunkPayload(e, value, d)
  }

  /** What a send buffer must hold: in every slot the payload of that destination's chunk.  The bytes
      behind the payloads are whatever the buffer held before. */
  ghost predicate SendsChunks<B(!new)>(e: Exchange<B>, value: seq<real>, send: seq<B>)
    requires e.Valid() && |value| <= e.Padded()
  {
    |send| == e.world * e.stride && SendsFirst(e, value, send, e.world)
  }

  /** Only payload bytes differ. */
  ghost predicate TailsKept<B(!new)>(e: Exchange<B>, before: seq<B>, after: seq<B>)
    requires |before| == |after| == e.world * e.stride
  {
    forall d, i :: 0 <= d < e.world && e.PayloadNumel() <= i < e.stride ==>
      Block(after, e.stride, e.world, d)[i] == Block(before, e.stride, e.world, d)[i]
  }

  lemma SliceApart<T>(before: seq<T>, payload: seq<T>, o: nat, a: nat, b: nat)
    requires o + |payload| <= |before| && a <= b <= |before|
    requires b <= o || o + |payload| <= a
    ensures (before[..o] + payload + before[o + |payload|..])[a..b] == before[a..b]
  {
  }

  lemma {:induction false} SlotWritten<B(!new)>(
    e: Exchange<B>, before: seq<B>, after: seq<B>, payload: seq<B>, d: nat, q: nat)
    requires e.PayloadNumel() <= e.stride && d < e.world && q < e.world
    requires |before| == |after| == e.world * e.stride && |payload| == e.PayloadNumel()
    requires 0 <= d * e.stride && d * e.stride + e.PayloadNumel() <= |before|
    requires after == before[..d * e.stride] + payload + before[d * e.stride + e.PayloadNumel()..]
    ensures SlotPayload(e, after, q) == if q == d then payload else SlotPayload(e, before, q)
  {
    var o, a := d * e.stride, q * e.stride;
    MulStep(d, e.world, e.stride);
    MulStep(q, e.world, e.stride);
    SliceParts(after, a, e.stride, e.PayloadNumel());
    SliceParts(before, a, e.stride, e.PayloadNumel());
    if q == d {
      assert after[o..o + e.PayloadNumel()] == payload;
    } else {
      if q < d {
        MulStep(q, d, e.stride);
      } else {
        MulStep(d, q, e.stride);
      }
      SliceApart(before, payload, o, a, a + e.PayloadNumel());
    }
  }

  lemma {:induction false} TailKept<B(!new)>(
    e: Exchange<B>, before: seq<B>, after: seq<B>, payload: seq<B>, d: nat, q: nat, i: nat)
    requires d < e.world && q < e.world && e.PayloadNumel() <= i < e.stride
    requires |before| == |after| == e.world * e.stride && |payload| == e.PayloadNumel()
    requires 0 <= d * e.stride && d * e.stride + e.PayloadNumel() <= |before|
    requires after == before[..d * e.stride] + payload + before[d * e.stride + e.PayloadNumel()..]
    ensures Block(after, e.stride, e.world, q)[i] == Block(before, e.stride, e.world, q)[i]
  {
    MulStep(q, e.world, e.stride);
    assert Block(after, e.stride, e.world, q)[i] == after[q * e.stride + i];
    assert Block(before, e.stride, e.world, q)[i] == before[q * e.stride + i];
    if q < d {
      MulStep(q, d, e.stride);
    } else if d < q {
      MulStep(d, q, e.stride);
    }
  }

  lemma {:induction false} SendStep<B(!new)>(e: Exchange<B>, value: seq<real>, before: seq<B>, after: seq<B>, d: nat)
    requires e.Valid() && |value| <= e.Padded() && d < e.world
    requires |before| == |after| == e.world * e.stride
    requires |ChunkPayload(e, value, d)| == e.PayloadNumel()
    requires 0 <= d * e.stride && d * e.stride + e.PayloadNumel() <= |before|
    requires after == before[..d * e.stride] + ChunkPayload(e, value, d) + before[d * e.stride + e.PayloadNumel()..]
    requires SendsFirst(e, value, before, d)
    ensures SendsFirst(e, value, after, d + 1) && TailsKept(e, before, after)
  {
    var payload := ChunkPayload(e, value, d);
    forall q | 0 <= q < d + 1
      ensures SlotPayload(e, after, q) == ChunkPayload(e, value, q)
    {
      SlotWritten(e, before, after, payload, d, q);
    }
    forall q, i | 0 <= q < e.world && e.PayloadNumel() <= i < e.stride
      ensures Block(after, e.stride, e.world, q)[i] == Block(before, e.stride, e.world, q)[i]
    {
      TailKept(e, before, after, payload, d, q, i);
    }
  }

  method PadInto(value: seq<real>, total: nat) returns (padded: array<real>)
    requires |value| <= total
    ensures fresh(padded) && padded[..] == Pad(value, total)
  {
    padded := new real[total](_ => 0.0);
    forall i | 0 <= i < |value| {
      padded[i] := value[i];
    }
  }

  /** Quantize the chunk of one destination into its slot. */
  method SendChunk<B(!new)>(e: Exchange<B>, ghost value: seq<real>, padded: seq<real>, send: array<B>, d: nat)
    requires e.Valid() && |value| <= e.Padded() && d < e.world && send.Length == e.world * e.stride
    requires padded == Pad(value, e.Padded()) && SendsFirst(e, value, send[..], d)
    modifies send
    ensures SendsFirst(e, value, send[..], d + 1) && TailsKept(e, old(send[..]), send[..])
  {
    MulStep(d, e.world, e.stride);
    var chunk := Block(padded, e.ShardNumel(), e.world, d);
    PayloadLength(e.codec, e.compact, chunk, e.groups);
    assert Payload(e.codec, e.compact, chunk, e.groups) == ChunkPayload(e, value, d);
    QuantizeInto(e.codec, e.compact, chunk, e.groups, send, d * e.stride);
    SendStep(e, value, old(send[..]), send[..], d);
  }

  /** Pad the input and quantize one chunk per destination into the send buffer. */
  method PrepareSend<B(!new)>(e: Exchange<B>, value: seq<real>, send: array<B>)
    requires e.Valid() && |value| <= e.Padded() && send.Length == e.world * e.stride
    modifies send
    ensures SendsChunks(e, value, send[..])
    ensures TailsKept(e, old(send[..]), send[..])
  {
    var padded := PadInto(value, e.Padded());
    var source := padded[..];
    for destination := 0 to e.world
      invariant SendsFirst(e, value, send[..], destination)
      invariant TailsKept(e, old(send[..]), send[..])
    {
      ghost var before := send[..];
      SendChunk(e, value, source, send, destination);
      assert TailsKept(e, before, send[..]);
    }
  }

  /** The tensors restored from the payloads of all slots. */
  function Restored<B(!new)>(e: Exchange<B>, received: seq<B>): (vs: seq<seq<real>>)
    requires e.PayloadNumel() <= e.stride && |received| == e.world * e.stride
    ensures |vs| == e.world
  {
    seq(e.world, s requires 0 <= s < e.world =>
      Dequantize(e.codec, e.compact, SlotPayload(e, received, s), e.groups))
  }

  lemma {:induction false} DequantizeLength<B(!new)>(c: Codec<B>, compact: bool, payload: seq<B>, n: nat)
    requires c.Valid() && |payload| == n * c.GroupBytes()
    ensures |Dequantize(c, compact, payload, n)| == n * c.groupSize
  {
    var decoded := seq(n, i requires 0 <= i < n => DecodeGroup(c, compact, payload, n, i));
    forall i | 0 <= i < n
      ensures |decoded[i]| == c.groupSize
    {
      OffsetsFit(c, compact, n, i);
    }
    FlattenLength(decoded, c.groupSize);
  }

  lemma RestoredLengths<B(!new)>(e: Exchange<B>, received: seq<B>)
    requires e.Valid() && |received| == e.world * e.stride
    ensures Uniform(Restored(e, received), e.ShardNumel())
  {
    forall s | 0 <= s < e.world
      ensures |Restored(e, received)[s]| == e.ShardNumel()
    {
      DequantizeLength(e.codec, e.compact, SlotPayload(e, received, s), e.groups);
    }
  }

  /** The fused dequantize-reduce-mean kernel. */
  function ReduceMean<B(!new)>(e: Exchange<B>, received: seq<B>): (reduced: seq<real>)
    requires e.Valid() && |received| == e.world * e.stride
    ensures |reduced| == e.ShardNumel()
  {
    RestoredLengths(e, received);
    MeanOf(Restored(e, received), e.ShardNumel())
  }

  method Fill<B>(output: array<B>, start: nat, value: B)
    requires start <= output.Length
    modifies output
    ensures output[..start] == old(output[..start])
    ensures forall i :: start <= i < output.Length ==> output[i] == value
  {
    forall i | start <= i < output.Length {
      output[i] := value;
    }
  }

  /** The fused dequantize-reduce-mean-requantize kernel: it writes the payload of the reduced shard and
      zeroes the rest of the output. */
  method RequantizeInto<B(!new)>(e: Exchange<B>, received: seq<B>, zero: B, output: array<B>)
    requires e.Valid() && |received| == e.world * e.stride && output.Length == e.stride
    modifies output
    ensures output[..e.PayloadNumel()] == Payload(e.codec, e.compact, ReduceMean(e, received), e.groups)
    ensures forall i :: e.PayloadNumel() <= i < e.stride ==> output[i] == zero
  {
    var reduced := ReduceMean(e, received);
    PayloadLength(e.codec, e.compact, reduced, e.groups);
    QuantizeInto(e.codec, e.compact, reduced, e.groups, output, 0);
    assert output[..e.PayloadNumel()] == Payload(e.codec, e.compact, reduced, e.groups);
    Fill(output, e.PayloadNumel(), zero);
  }

  lemma OwnerInRange(i: nat, width: nat, n: nat)
    requires i < n * width
    ensures width > 0 && 0 <= i / width < n
    ensures 0 <= (i / width) * width <= i < (i / width) * width + width
  {
    assert width > 0;
    Shards.DivisionBounds(i, width);
    if i / width >= n {
      Shards.MulMonotone(n, i / width, width);
      assert false;
    }
  }

  /** Element `index` of the writeback, at the kernel's own offsets. */
  function GatheredElement<B(!new)>(e: Exchange<B>, gathered: seq<B>, index: nat): real
    requires e.Valid() && |gathered| == e.world * e.stride && index < e.Padded()
  {
    OwnerInRange(index, e.ShardNumel(), e.world);
    var rank := index / e.ShardNumel();
    var local := index - rank * e.ShardNumel();
    OwnerInRange(local, e.codec.groupSize, e.groups);
    var group := local / e.codec.groupSize;
    var element := local - group * e.codec.groupSize;
    OffsetsFit(e.codec, e.compact, e.groups, group);
    DecodeGroup(e.codec, e.compact, SlotPayload(e, gathered, rank), e.groups, group)[element]
  }

  lemma {:induction false} DequantizeAt<B(!new)>(c: Codec<B>, compact: bool, payload: seq<B>, n: nat, i: nat, x: nat)
    requires c.Valid() && |payload| == n * c.GroupBytes() && i < n && x < c.groupSize
    ensures |Dequantize(c, compact, payload, n)| == n * c.groupSize && 0 <= i * c.groupSize + x < n * c.groupSize
    ensures |DecodeGroup(c, compact, payload, n, i)| == c.groupSize
    ensures Dequantize(c, compact, payload, n)[i * c.groupSize + x] == DecodeGroup(c, compact, payload, n, i)[x]
  {
    var decoded := seq(n, i requires 0 <= i < n => DecodeGroup(c, compact, payload, n, i));
    forall i | 0 <= i < n
      ensures |decoded[i]| == c.groupSize
    {
      OffsetsFit(c, compact, n, i);
    }
    FlattenAt(decoded, c.groupSize, i, x);
  }

  lemma {:induction false} GatheredElementIs<B(!new)>(e: Exchange<B>, gathered: seq<B>, index: nat)
    requires e.Valid() && |gathered| == e.world * e.stride && index < e.Padded()
    ensures |Flatten(Restored(e, gathered))| == e.Padded()
    ensures GatheredElement(e, gathered, index) == Flatten(Restored(e, gathered))[index]
  {
    OwnerInRange(index, e.ShardNumel(), e.world);
    var rank := index / e.ShardNumel();
    var local := index - rank * e.ShardNumel();
    OwnerInRange(local, e.codec.groupSize, e.groups);
    var group := local / e.codec.groupSize;
    RestoredLengths(e, gathered);
    FlattenAt(Restored(e, gathered), e.ShardNumel(), rank, local);
    DequantizeAt(e.codec, e.compact, SlotPayload(e, gathered, rank), e.groups, group,
                 local - group * e.codec.groupSize);
  }

  /** The gathered-dequantize-writeback kernel. */
  method Writeback<B(!new)>(e: Exchange<B>, gathered: seq<B>, restored: array<real>)
    requires e.Valid() && |gathered| == e.world * e.stride && restored.Length == e.Padded()
    modifies restored
    ensures restored[..] == Flatten(Restored(e, gathered))
  {
    ghost var goal := Flatten(Restored(e, gathered));
    RestoredLengths(e, gathered);
    FlattenLength(Restored(e, gathered), e.ShardNumel());
    for index := 0 to restored.Length
      invariant forall i :: 0 <= i < index ==> restored[i] == goal[i]
    {
      GatheredElementIs(e, gathered, index);
      restored[index] := GatheredElement(e, gathered, index);
    }
  }
}
