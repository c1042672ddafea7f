/** Wire types, payload sizes and the group-wise codec contract of the native kernels. */
module Codecs {
  import opened Sequences
  import opened Wrappers
  import Shards

  datatype DataType = FP16 | BF16 | FP32

  function ScaleBytes(d: DataType): nat {
    match d
    case FP32 => 4
    case _ => 2
  }

  datatype QuantizedWire = QuantizedWire(bit: int, groupSize: int, quantType: string, compact: bool)
  {
    /** What the constructor accepts; `quantType.strip()` is non-empty when some character is no white space. */
    ghost predicate Valid() {
      && (bit == 4 || bit == 8)
      && (groupSize == 16 || groupSize == 32 || groupSize == 64)
      && exists i :: 0 <= i < |quantType| && !IsSpace(quantType[i])
    }
  }

  function Align(value: nat, alignment: nat): nat
    requires alignment > 0
  {
    if value != 0 then Shards.CeilDiv(value, alignment) * alignment else 0
  }

  lemma {:induction false} AlignCovers(value: nat, alignment: nat)
    requires alignment > 0
    ensures value <= Align(value, alignment) < value + alignment
    ensures Align(value, alignment) % alignment == 0
  {
    Shards.CeilDivBounds(value, alignment);
    if value != 0 {
      MultipleOf(Shards.CeilDiv(value, alignment), alignment);
    }
  }

  lemma AlignWhole(value: nat, alignment: nat)
    requires alignment > 0 && value % alignment == 0
    ensures Align(value, alignment) == value
  {
    var q := value / alignment;
    assert value == q * alignment;
    Shards.CeilDivWhole(q, alignment);
    assert Shards.CeilDiv(value, alignment) == q;
    hide Shards.CeilDiv;
  }

  lemma MultipleOf(q: nat, a: nat)
    requires a > 0
    ensures (q * a) % a == 0
    ensures (q - 1) * a == q * a - a
  {
    DivModUnique(q * a, a, q, 0);
  }

  /** Bytes of a payload for `numel` values. */
  function PayloadNbytes(numel: nat, dtype: DataType, wire: QuantizedWire): nat
    requires wire.Valid()
  {
    Shards.CeilDiv(numel, wire.groupSize) * (wire.groupSize * wire.bit / 8 + ScaleBytes(dtype))
  }

  /** The announced bytes: those of `q` groups, the least number that holds the values, each with `bit` bits per value
      and a scale of four bytes for FP32 and two otherwise. */
  lemma {:induction false} AnnouncedBytes(numel: nat, dtype: DataType, wire: QuantizedWire, q: nat)
    requires wire.Valid() && numel <= q * wire.groupSize && (q > 0 ==> (q - 1) * wire.groupSize < numel)
    ensures PayloadNbytes(numel, dtype, wire)
         == q * (wire.groupSize * wire.bit / 8 + match dtype case FP32 => 4 case FP16 => 2 case BF16 => 2)
  {
    var g := wire.groupSize;
    Shards.CeilDivBounds(numel, g);
    DivModUnique(numel + g - 1, g, q, numel + g - 1 - q * g);
  }

  // ---------------------------------------------------------------------------
  // The codec: one group of values becomes value bytes and scale bytes.

  datatype Codec<!B(!new)> = Codec(
    groupSize: nat,
    valueBytes: nat,
    scaleBytes: nat,
    encodeValues: seq<real> -> seq<B>,
    encodeScale: seq<real> -> seq<B>,
    decode: (seq<B>, seq<B>) -> seq<real>)
  {
    ghost predicate Valid() {
      && groupSize > 0
      && (forall v :: |v| == groupSize ==> |encodeValues(v)| == valueBytes)
      && (forall v :: |v| == groupSize ==> |encodeScale(v)| == scaleBytes)
      && (forall a, b :: |a| == valueBytes && |b| == scaleBytes ==> |decode(a, b)| == groupSize)
    }

    /** The codec has the sizes the wire and element type prescribe. */
    ghost predicate Fits(wire: QuantizedWire, dtype: DataType) {
      && Valid() && wire.Valid()
      && groupSize == wire.groupSize
      && valueBytes == wire.groupSize * wire.bit / 8
      && scaleBytes == ScaleBytes(dtype)
    }

    /** A lossless codec restores every group. */
    ghost predicate Lossless() {
      forall v :: |v| == groupSize ==> decode(encodeValues(v), encodeScale(v)) == v
    }

    function GroupBytes(): nat {
      valueBytes + scaleBytes
    }

    function EncodedValues(v: seq<real>): (b: seq<B>)
      ensures Valid() && |v| == groupSize ==> |b| == valueBytes
    {
      encodeValues(v)
    }

    function EncodedScale(v: seq<real>): (b: seq<B>)
      ensures Valid() && |v| == groupSize ==> |b| == scaleBytes
    {
      encodeScale(v)
    }

    /** What one group looks like after being sent. */
    function GroupImage(v: seq<real>): seq<real> {
      decode(EncodedValues(v), EncodedScale(v))
    }
  }

  /** A codec that stores the values as they are: lossless codecs of the prescribed sizes exist. */
  function Verbatim(g: nat, dtype: DataType): Codec<real> {
    Codec(g, g, ScaleBytes(dtype), v => v, v => seq(ScaleBytes(dtype), _ => 0.0), (values, scale) => values)
  }

  lemma VerbatimIsLossless(wire: QuantizedWire, dtype: DataType)
    requires wire.Valid() && wire.bit == 8
    ensures Verbatim(wire.groupSize, dtype).Fits(wire, dtype) && Verbatim(wire.groupSize, dtype).Lossless()
  {
  }

  function ImageBlocks<B(!new)>(c: Codec<B>, v: seq<real>, n: nat): (blocks: seq<seq<real>>)
    requires |v| == n * c.groupSize
    ensures |blocks| == n && (c.Valid() ==> Uniform(blocks, c.groupSize))
  {
    seq(n, i requires 0 <= i < n => c.GroupImage(Block(v, c.groupSize, n, i)))
  }

  function ValueBlocks<B(!new)>(c: Codec<B>, v: seq<real>, n: nat): (blocks: seq<seq<B>>)
    requires |v| == n * c.groupSize
    ensures |blocks| == n && (c.Valid() ==> Uniform(blocks, c.valueBytes))
  {
    seq(n, i requires 0 <= i < n => c.EncodedValues(Block(v, c.groupSize, n, i)))
  }

  function ScaleBlocks<B(!new)>(c: Codec<B>, v: seq<real>, n: nat): (blocks: seq<seq<B>>)
    requires |v| == n * c.groupSize
    ensures |blocks| == n && (c.Valid() ==> Uniform(blocks, c.scaleBytes))
  {
    seq(n, i requires 0 <= i < n => c.EncodedScale(Block(v, c.groupSize, n, i)))
  }

  function CompactBlocks<B(!new)>(c: Codec<B>, v: seq<real>, n: nat): (blocks: seq<seq<B>>)
    requires |v| == n * c.groupSize
    ensures |blocks| == n && (c.Valid() ==> Uniform(blocks, c.GroupBytes()))
  {
    seq(n, i requires 0 <= i < n =>
      c.EncodedValues(Block(v, c.groupSize, n, i)) + c.EncodedScale(Block(v, c.groupSize, n, i)))
  }

  /** The buffer after each group is sent and restored. */
  function Image<B(!new)>(c: Codec<B>, v: seq<real>, n: nat): seq<real>
    requires |v| == n * c.groupSize
  {
    Flatten(ImageBlocks(c, v, n))
  }

  /** The payload layout: interleaved groups when compact, all values before all scales otherwise. */
  function Payload<B(!new)>(c: Codec<B>, compact: bool, v: seq<real>, n: nat): seq<B>
    requires |v| == n * c.groupSize
  {
    if compact then Flatten(CompactBlocks(c, v, n))
    else Flatten(ValueBlocks(c, v, n)) + Flatten(ScaleBlocks(c, v, n))
  }

  function ValueOffset<B(!new)>(c: Codec<B>, compact: bool, i: nat): nat {
    if compact then i * c.GroupBytes() else i * c.valueBytes
  }

  function ScaleOffset<B(!new)>(c: Codec<B>, compact: bool, n: nat, i: nat): nat {
    if compact then i * c.GroupBytes() + c.valueBytes else n * c.valueBytes + i * c.scaleBytes
  }

  lemma {:induction false} OffsetsFit<B(!new)>(c: Codec<B>, compact: bool, n: nat, i: nat)
    requires i < n
    ensures ValueOffset(c, compact, i) + c.valueBytes <= n * c.GroupBytes()
    ensures ScaleOffset(c, compact, n, i) + c.scaleBytes <= n * c.GroupBytes()
  {
    MulStep(i, n, c.GroupBytes());
    MulStep(i, n, c.valueBytes);
    MulStep(i, n, c.scaleBytes);
    Distribute(n, c.valueBytes, c.scaleBytes);
  }

  /** Decode group `i` of a payload of `n` groups, reading at the kernel's offsets. */
  function DecodeGroup<B(!new)>(c: Codec<B>, compact: bool, payload: seq<B>, n: nat, i: nat): seq<real>
    requires i < n && |payload| == n * c.GroupBytes()
  {
    OffsetsFit(c, compact, n, i);
    var vo, so := ValueOffset(c, compact, i), ScaleOffset(c, compact, n, i);
    c.decode(payload[vo..vo + c.valueBytes], payload[so..so + c.scaleBytes])
  }

  function Dequantize<B(!new)>(c: Codec<B>, compact: bool, payload: seq<B>, n: nat): seq<real>
    requires |payload| == n * c.GroupBytes()
  {
    Flatten(seq(n, i requires 0 <= i < n => DecodeGroup(c, compact, payload, n, i)))
  }

  lemma {:induction false} PayloadLength<B(!new)>(c: Codec<B>, compact: bool, v: seq<real>, n: nat)
    requires c.Valid() && |v| == n * c.groupSize
    ensures |Payload(c, compact, v, n)| == n * c.GroupBytes()
  {
    FlattenLength(CompactBlocks(c, v, n), c.GroupBytes());
    FlattenLength(ValueBlocks(c, v, n), c.valueBytes);
    FlattenLength(ScaleBlocks(c, v, n), c.scaleBytes);
    Distribute(n, c.valueBytes, c.scaleBytes);
  }

  /** The size of a payload is what `PayloadNbytes` announces, for every numel before padding. */
  lemma {:induction false} PayloadHasAnnouncedSize<B(!new)>(
    c: Codec<B>, wire: QuantizedWire, dtype: DataType, v: seq<real>, numel: nat)
    requires c.Fits(wire, dtype)
    requires |v| == Align(numel, c.groupSize)
    ensures |v| == Shards.CeilDiv(numel, c.groupSize) * c.groupSize
    ensures |Payload(c, wire.compact, v, Shards.CeilDiv(numel, c.groupSize))| == PayloadNbytes(numel, dtype, wire)
  {
    Shards.CeilDivBounds(numel, c.groupSize);
    PayloadLength(c, wire.compact, v, Shards.CeilDiv(numel, c.groupSize));
  }

  lemma {:induction false} CompactLayout<B(!new)>(c: Codec<B>, v: seq<real>, n: nat, i: nat)
    requires c.Valid() && |v| == n * c.groupSize && i < n
    ensures |Payload(c, true, v, n)| == n * c.GroupBytes()
    ensures var o, p, x := i * c.GroupBytes(), Payload(c, true, v, n), Block(v, c.groupSize, n, i);
            && o + c.GroupBytes() <= |p|
            && p[o..o + c.valueBytes] == c.EncodedValues(x)
            && p[o + c.valueBytes..o + c.valueBytes + c.scaleBytes] == c.EncodedScale(x)
  {
    PayloadLength(c, true, v, n);
    var p, block := Payload(c, true, v, n), CompactBlocks(c, v, n)[i];
    var x := Block(v, c.groupSize, n, i);
    FlattenBlock(CompactBlocks(c, v, n), c.GroupBytes(), i);
    SliceParts(p, i * c.GroupBytes(), c.GroupBytes(), c.valueBytes);
    assert block == c.EncodedValues(x) + c.EncodedScale(x);
  }

  lemma {:induction false} PlanarLayout<B(!new)>(c: Codec<B>, v: seq<real>, n: nat, i: nat)
    requires c.Valid() && |v| == n * c.groupSize && i < n
    ensures |Payload(c, false, v, n)| == n * c.GroupBytes()
    ensures var p, x := Payload(c, false, v, n), Block(v, c.groupSize, n, i);
            var a, b := i * c.valueBytes, n * c.valueBytes + i * c.scaleBytes;
            && 0 <= a <= a + c.valueBytes <= |p| && 0 <= b <= b + c.scaleBytes <= |p|
            && p[a..a + c.valueBytes] == c.EncodedValues(x) && p[b..b + c.scaleBytes] == c.EncodedScale(x)
  {
    PayloadLength(c, false, v, n);
    var p := Payload(c, false, v, n);
    var values, scales := ValueBlocks(c, v, n), ScaleBlocks(c, v, n);
    FlattenBlock(values, c.valueBytes, i);
    FlattenBlock(scales, c.scaleBytes, i);
    OffsetsFit(c, false, n, i);
    var a, b := i * c.valueBytes, i * c.scaleBytes;
    assert p[a..a + c.valueBytes] == Flatten(values)[a..a + c.valueBytes];
    assert p[n * c.valueBytes + b..n * c.valueBytes + b + c.scaleBytes] == Flatten(scales)[b..b + c.scaleBytes];
  }

  lemma {:induction false} ReadGroup<B(!new)>(c: Codec<B>, compact: bool, v: seq<real>, n: nat, i: nat)
    requires c.Valid() && |v| == n * c.groupSize && i < n
    ensures |Payload(c, compact, v, n)| == n * c.GroupBytes()
    ensures DecodeGroup(c, compact, Payload(c, compact, v, n), n, i) == c.GroupImage(Block(v, c.groupSize, n, i))
  {
    OffsetsFit(c, compact, n, i);
    if compact {
      CompactLayout(c, v, n, i);
    } else {
      PlanarLayout(c, v, n, i);
    }
  }

  /** Where a payload keeps group `i`: interleaved, its values and then its scale behind `i` whole groups; planar, its
      values among the values of all groups, and its scale among the scales behind them. */
  lemma {:induction false} PayloadLayout<B(!new)>(c: Codec<B>, compact: bool, v: seq<real>, n: nat, i: nat)
    requires c.Valid() && |v| == n * c.groupSize && i < n
    ensures 0 <= i * c.groupSize && i * c.groupSize + c.groupSize <= |v|
    ensures var p, x := Payload(c, compact, v, n), v[i * c.groupSize..i * c.groupSize + c.groupSize];
            var values := if compact then i * (c.valueBytes + c.scaleBytes) else i * c.valueBytes;
            var scale := if compact then values + c.valueBytes else n * c.valueBytes + i * c.scaleBytes;
            && |p| == n * (c.valueBytes + c.scaleBytes)
            && 0 <= values <= values + c.valueBytes <= |p| && 0 <= scale <= scale + c.scaleBytes <= |p|
            && p[values..values + c.valueBytes] == c.encodeValues(x)
            && p[scale..scale + c.scaleBytes] == c.encodeScale(x)
  {
    MulStep(i, n, c.groupSize);
    OffsetsFit(c, compact, n, i);
    if compact {
      CompactLayout(c, v, n, i);
    } else {
      PlanarLayout(c, v, n, i);
    }
  }

  /** Either layout is read back group by group: a received payload restores the image of what was sent. */
  lemma {:induction false} DequantizePayload<B(!new)>(c: Codec<B>, compact: bool, v: seq<real>, n: nat)
    requires c.Valid() && |v| == n * c.groupSize
    ensures |Payload(c, compact, v, n)| == n * c.GroupBytes()
    ensures Dequantize(c, compact, Payload(c, compact, v, n), n) == Image(c, v, n)
  {
    PayloadLength(c, compact, v, n);
    var p := Payload(c, compact, v, n);
    var decoded := seq(n, i requires 0 <= i < n => DecodeGroup(c, compact, p, n, i));
    var images := ImageBlocks(c, v, n);
    forall i | 0 <= i < n
      ensures decoded[i] == images[i]
    {
      ReadGroup(c, compact, v, n, i);
    }
    assert decoded == images;
  }

  lemma {:induction false} ImageLength<B(!new)>(c: Codec<B>, v: seq<real>, n: nat)
    requires c.Valid() && |v| == n * c.groupSize
    ensures |Image(c, v, n)| == |v|
  {
    FlattenLength(ImageBlocks(c, v, n), c.groupSize);
  }

  /** Element `e` of group `i` of the image. */
  lemma {:induction false} ImageAt<B(!new)>(c: Codec<B>, v: seq<real>, n: nat, i: nat, e: nat)
    requires c.Valid() && |v| == n * c.groupSize && i < n && e < c.groupSize
    ensures |Image(c, v, n)| == |v| && 0 <= i * c.groupSize + e < |v|
    ensures |c.GroupImage(Block(v, c.groupSize, n, i))| == c.groupSize
    ensures Image(c, v, n)[i * c.groupSize + e] == c.GroupImage(Block(v, c.groupSize, n, i))[e]
  {
    var g := c.groupSize;
    var blocks := ImageBlocks(c, v, n);
    FlattenBlock(blocks, g, i);
    MulStep(i, n, g);
    assert Image(c, v, n)[i * g..i * g + g][e] == blocks[i][e];
  }

  lemma {:induction false} LosslessImage<B(!new)>(c: Codec<B>, v: seq<real>, n: nat)
    requires c.Valid() && c.Lossless() && |v| == n * c.groupSize
    ensures Image(c, v, n) == v
  {
    var g := c.groupSize;
    var blocks := ImageBlocks(c, v, n);
    forall i | 0 <= i < n
      ensures 0 <= i * g <= i * g + g <= |v| && blocks[i] == v[i * g..i * g + g]
    {
      MulStep(i, n, g);
    }
    FlattenSlices(blocks, g, v);
  }

  lemma {:induction false} FlattenConcat<T>(a: seq<seq<T>>, b: seq<seq<T>>)
    ensures Flatten(a + b) == Flatten(a) + Flatten(b)
    decreases |b|
  {
    if |b| == 0 {
      assert a + b == a;
    } else {
      var front := b[..|b| - 1];
      assert (a + b)[..|a + b| - 1] == a + front;
      FlattenConcat(a, front);
    }
  }

  /** Images can be taken piece by piece when pieces end at group boundaries. */
  lemma {:induction false} ImageConcat<B(!new)>(c: Codec<B>, a: seq<real>, m: nat, b: seq<real>, n: nat)
    requires c.Valid() && |a| == m * c.groupSize && |b| == n * c.groupSize
    ensures |a + b| == (m + n) * c.groupSize
    ensures Image(c, a + b, m + n) == Image(c, a, m) + Image(c, b, n)
  {
    var g := c.groupSize;
    assert (m + n) * g == m * g + n * g;
    var left, right, whole := ImageBlocks(c, a, m), ImageBlocks(c, b, n), ImageBlocks(c, a + b, m + n);
    forall i | 0 <= i < m + n
      ensures whole[i] == (left + right)[i]
    {
      MulStep(i, m + n, g);
      if i < m {
        MulStep(i, m, g);
        assert Block(a + b, g, m + n, i) == Block(a, g, m, i);
      } else {
        MulStep(i - m, n, g);
        assert i * g == m * g + (i - m) * g;
        assert Block(a + b, g, m + n, i) == Block(b, g, n, i - m);
      }
    }
    assert whole == left + right;
    FlattenConcat(left, right);
  }
}
