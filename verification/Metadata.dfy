/** The fixed 24-word metadata packet. */
module Metadata {
  import opened Codecs
  import opened Wrappers

  const PROTOCOL_VERSION: int := 1
  const MAX_NDIM: nat := 8
  const PACKET_WORDS: nat := 24
  const DIMS_OFFSET: nat := 16

  datatype Packet = Packet(
    shape: seq<int>, dtype: DataType, wire: QuantizedWire, payloadNumel: int, layoutGeneration: int, flags: int)

  datatype PacketError =
    | WrongLength | WrongVersion | RankTooLarge | ReservedNotZero | UnusedDimensionNotZero
    | UnknownDtype | UnknownQuantType | BadCompact | BadWire | NegativeField | NumelMismatch

  datatype Decoded = Accepted(packet: Packet) | Refused(error: PacketError)

  function Product(shape: seq<int>): int {
    if shape == [] then 1 else Product(shape[..|shape| - 1]) * shape[|shape| - 1]
  }

  function DtypeCode(d: DataType): int {
    match d
    case FP16 => 1
    case BF16 => 2
    case FP32 => 3
  }

  function QuantName(code: int): string
    requires 1 <= code <= 5
  {
    if code == 1 then "linear" else if code == 2 then "normal" else if code == 3 then "uniform"
    else if code == 4 then "e3m0" else "e2m1"
  }

  /** The code of a quantization type; 0 for a name the protocol does not know. */
  function QuantCode(name: string): int {
    if name == "linear" then 1 else if name == "normal" then 2 else if name == "uniform" then 3
    else if name == "e3m0" then 4 else if name == "e2m1" then 5 else 0
  }

  lemma QuantCodesInverse(code: int)
    requires 1 <= code <= 5
    ensures QuantCode(QuantName(code)) == code && |QuantName(code)| > 0 && QuantName(code)[0] != ' '
  {
  }

  lemma QuantNamesInverse(name: string)
    requires QuantCode(name) != 0
    ensures 1 <= QuantCode(name) <= 5 && QuantName(QuantCode(name)) == name
  {
  }

  predicate NonNegative(shape: seq<int>) {
    forall i :: 0 <= i < |shape| ==> shape[i] >= 0
  }

  /** What the packet constructor accepts. */
  ghost predicate Valid(p: Packet) {
    && |p.shape| <= MAX_NDIM
    && NonNegative(p.shape)
    && p.wire.Valid() && QuantCode(p.wire.quantType) != 0
    && p.payloadNumel >= 0 && p.layoutGeneration >= 0 && p.flags >= 0
  }

  function Padding(n: nat): seq<int> {
    seq(n, _ => 0)
  }

  function Header(p: Packet): seq<int> {
    [PROTOCOL_VERSION, |p.shape|, DtypeCode(p.dtype), p.payloadNumel, p.wire.bit, p.wire.groupSize,
     QuantCode(p.wire.quantType), if p.wire.compact then 1 else 0, p.layoutGeneration, p.flags, Product(p.shape)]
  }

  function Encode(p: Packet): (words: seq<int>)
    requires |p.shape| <= MAX_NDIM
    ensures |words| == PACKET_WORDS
  {
    Header(p) + Padding(5) + p.shape + Padding(MAX_NDIM - |p.shape|)
  }

  method WriteHeader(p: Packet, values: array<int>)
    requires values.Length == PACKET_WORDS
    modifies values
    ensures values[..11] == Header(p) && values[11..] == old(values[11..])
  {
    values[0] := PROTOCOL_VERSION;
    values[1] := |p.shape|;
    values[2] := DtypeCode(p.dtype);
    values[3] := p.payloadNumel;
    values[4] := p.wire.bit;
    values[5] := p.wire.groupSize;
    values[6] := QuantCode(p.wire.quantType);
    values[7] := if p.wire.compact then 1 else 0;
    values[8] := p.layoutGeneration;
    values[9] := p.flags;
    values[10] := Product(p.shape);
  }

  lemma FourParts(v: seq<int>, header: seq<int>, shape: seq<int>)
    requires |v| == PACKET_WORDS && |header| == 11 && |shape| <= MAX_NDIM
    requires v[..11] == header && v[11..16] == Padding(5)
    requires v[16..16 + |shape|] == shape && v[16 + |shape|..] == Padding(MAX_NDIM - |shape|)
    ensures v == header + Padding(5) + shape + Padding(MAX_NDIM - |shape|)
  {
    assert v == v[..11] + v[11..16] + v[16..16 + |shape|] + v[16 + |shape|..];
  }

  /** Fill a zeroed packet word by word. */
  method ToValues(p: Packet) returns (values: array<int>)
    requires |p.shape| <= MAX_NDIM
    ensures fresh(values) && values[..] == Encode(p)
  {
    values := new int[PACKET_WORDS](_ => 0);
    WriteHeader(p, values);
    ghost var rest := values[11..];
    forall i | 0 <= i < |p.shape| {
      values[DIMS_OFFSET + i] := p.shape[i];
    }
    assert rest == Padding(13);
    ghost var v := values[..];
    assert v[..11] == values[..11];
    forall i | 11 <= i < 16 || 16 + |p.shape| <= i < PACKET_WORDS
      ensures v[i] == 0
    {
      assert rest[i - 11] == 0;
    }
    assert v[11..16] == Padding(5);
    assert v[16..16 + |p.shape|] == p.shape;
    assert v[16 + |p.shape|..] == Padding(MAX_NDIM - |p.shape|);
    FourParts(v, Header(p), p.shape);
  }

  predicate AllZero(words: seq<int>) {
    forall i :: 0 <= i < |words| ==> words[i] == 0
  }

  function Decode(values: seq<int>): Decoded {
    if |values| != PACKET_WORDS then Refused(WrongLength)
    else if values[0] != PROTOCOL_VERSION then Refused(WrongVersion)
    else if values[1] < 0 || values[1] > MAX_NDIM then Refused(RankTooLarge)
    else if !AllZero(values[11..DIMS_OFFSET]) then Refused(ReservedNotZero)
    else if !AllZero(values[DIMS_OFFSET..][values[1]..]) then Refused(UnusedDimensionNotZero)
    else if values[2] < 1 || values[2] > 3 then Refused(UnknownDtype)
    else if values[6] < 1 || values[6] > 5 then Refused(UnknownQuantType)
    else if values[7] != 0 && values[7] != 1 then Refused(BadCompact)
    else if (values[4] != 4 && values[4] != 8) || (values[5] != 16 && values[5] != 32 && values[5] != 64) then
      Refused(BadWire)
    else
      var dtype := if values[2] == 1 then FP16 else if values[2] == 2 then BF16 else FP32;
      var wire := QuantizedWire(values[4], values[5], QuantName(values[6]), values[7] == 1);
      var packet := Packet(values[DIMS_OFFSET..][..values[1]], dtype, wire, values[3], values[8], values[9]);
      if !NonNegative(packet.shape) || packet.payloadNumel < 0 || packet.layoutGeneration < 0 || packet.flags < 0 then
        Refused(NegativeField)
      else if Product(packet.shape) != values[10] then Refused(NumelMismatch)
      else Accepted(packet)
  }

  /** Decoding an encoded packet gives the packet back. */
  lemma {:induction false} DecodeEncode(p: Packet)
    requires Valid(p)
    ensures Decode(Encode(p)) == Accepted(p)
  {
    var v := Encode(p);
    QuantNamesInverse(p.wire.quantType);
    assert v[..11] == Header(p);
    assert v[11..16] == Padding(5);
    assert v[16..][..|p.shape|] == p.shape;
    assert v[16..][|p.shape|..] == Padding(MAX_NDIM - |p.shape|);
    HeaderWords(p, v);
  }

  lemma HeaderWords(p: Packet, v: seq<int>)
    requires |v| >= 11 && v[..11] == Header(p)
    ensures v[0] == PROTOCOL_VERSION && v[1] == |p.shape| && v[2] == DtypeCode(p.dtype) && v[3] == p.payloadNumel
    ensures v[4] == p.wire.bit && v[5] == p.wire.groupSize && v[6] == QuantCode(p.wire.quantType)
    ensures v[7] == (if p.wire.compact then 1 else 0) && v[8] == p.layoutGeneration && v[9] == p.flags
    ensures v[10] == Product(p.shape)
  {
    forall i | 0 <= i < 11
      ensures v[i] == Header(p)[i]
    {
      assert v[..11][i] == v[i];
    }
  }

  lemma {:induction false} ProductConcat(a: seq<int>, b: seq<int>)
    ensures Product(a + b) == Product(a) * Product(b)
    decreases |b|
  {
    if b == [] {
      assert a + b == a;
    } else {
      var front, last := b[..|b| - 1], b[|b| - 1];
      ProductConcat(a, front);
      assert (a + b)[..|a + b| - 1] == a + front;
      assert Product(a) * Product(front) * last == Product(a) * (Product(front) * last);
    }
  }

  lemma ProductOfOne(d: int)
    ensures Product([]) == 1 && Product([d]) == d
  {
    assert [d][..0] == [];
  }

  /** The words of a packet, one by one, with the protocol's codes. */
  lemma {:induction false} PacketWords(p: Packet)
    requires |p.shape| <= 8
    ensures var w := Encode(p);
            && |w| == 24 && w[0] == 1 && w[1] == |p.shape|
            && w[2] == (match p.dtype case FP16 => 1 case BF16 => 2 case FP32 => 3)
            && w[3] == p.payloadNumel && w[4] == p.wire.bit && w[5] == p.wire.groupSize
            && (w[6] == 1 <==> p.wire.quantType == "linear") && (w[6] == 2 <==> p.wire.quantType == "normal")
            && (w[6] == 3 <==> p.wire.quantType == "uniform") && (w[6] == 4 <==> p.wire.quantType == "e3m0")
            && (w[6] == 5 <==> p.wire.quantType == "e2m1") && 0 <= w[6] <= 5
            && w[7] == (if p.wire.compact then 1 else 0)
            && w[8] == p.layoutGeneration && w[9] == p.flags && w[10] == Product(p.shape)
            && (forall i :: 11 <= i < 16 ==> w[i] == 0)
            && (forall i :: 0 <= i < |p.shape| ==> w[16 + i] == p.shape[i])
            && (forall i :: 16 + |p.shape| <= i < 24 ==> w[i] == 0)
  {
  }

  /** The first check that fails decides how a packet is refused. */
  lemma {:induction false} RefusedWith(v: seq<int>)
    ensures Decode(v) == Refused(WrongLength) <==> |v| != 24
    ensures |v| == 24 ==>
              var version, ranks := v[0] == 1, 0 <= v[1] <= 8;
              var reserved := forall i :: 11 <= i < 16 ==> v[i] == 0;
              var unused := forall i :: 16 <= i < 24 && 16 + v[1] <= i ==> v[i] == 0;
              var dtype, quant, compact := 1 <= v[2] <= 3, 1 <= v[6] <= 5, v[7] == 0 || v[7] == 1;
              var wire := (v[4] == 4 || v[4] == 8) && (v[5] == 16 || v[5] == 32 || v[5] == 64);
              && (Decode(v) == Refused(WrongVersion) <==> !version)
              && (Decode(v) == Refused(RankTooLarge) <==> version && !ranks)
              && (Decode(v) == Refused(ReservedNotZero) <==> version && ranks && !reserved)
              && (Decode(v) == Refused(UnusedDimensionNotZero) <==> version && ranks && reserved && !unused)
              && var sound := version && ranks && reserved && unused;
              && (Decode(v) == Refused(UnknownDtype) <==> sound && !dtype)
              && (Decode(v) == Refused(UnknownQuantType) <==> sound && dtype && !quant)
              && (Decode(v) == Refused(BadCompact) <==> sound && dtype && quant && !compact)
              && (Decode(v) == Refused(BadWire) <==> sound && dtype && quant && compact && !wire)
              && (sound && dtype && quant && compact && wire ==>
                    var shape := v[16..16 + v[1]];
                    var negative := v[3] < 0 || v[8] < 0 || v[9] < 0 || exists i :: 0 <= i < |shape| && shape[i] < 0;
                    && (Decode(v) == Refused(NegativeField) <==> negative)
                    && (Decode(v) == Refused(NumelMismatch) <==> !negative && v[10] != Product(shape))
                    && (Decode(v).Accepted? <==> !negative && v[10] == Product(shape)))
  {
    if |v| == 24 && 0 <= v[1] <= 8 {
      AllZeroFrom(v, 11, 16);
      assert v[16..][..v[1]] == v[16..16 + v[1]];
      var unused := v[16..][v[1]..];
      assert |unused| == 8 - v[1] && forall i :: 0 <= i < |unused| ==> unused[i] == v[16 + v[1] + i];
      assert AllZero(unused) <==> forall i :: 16 <= i < 24 && 16 + v[1] <= i ==> v[i] == 0 by {
        if AllZero(unused) {
          forall i | 16 <= i < 24 && 16 + v[1] <= i
            ensures v[i] == 0
          {
            assert unused[i - 16 - v[1]] == v[i];
          }
        }
      }
    }
  }

  lemma AllZeroFrom(v: seq<int>, a: nat, b: nat)
    requires a <= b <= |v|
    ensures AllZero(v[a..b]) <==> forall i :: a <= i < b ==> v[i] == 0
  {
    if AllZero(v[a..b]) {
      forall i | a <= i < b
        ensures v[i] == 0
      {
        assert v[a..b][i - a] == v[i];
      }
    }
  }

  /** Every accepted word sequence is the encoding of the packet it decodes to. */
  lemma {:induction false} EncodeDecode(values: seq<int>)
    requires Decode(values).Accepted?
    ensures Valid(Decode(values).packet)
    ensures Encode(Decode(values).packet) == values
  {
    var p := Decode(values).packet;
    QuantCodesInverse(values[6]);
    var name := p.wire.quantType;
    assert 0 <= 0 < |name| && !IsSpace(name[0]);
    assert p.wire.Valid();
    var n := values[1];
    var header := Header(p);
    forall i | 0 <= i < 11
      ensures header[i] == values[i]
    {
    }
    assert values[..11] == header;
    assert values[11..16] == Padding(5);
    assert values[16..][n..] == Padding(MAX_NDIM - n);
    assert values == values[..11] + values[11..16] + values[16..][..n] + values[16..][n..];
  }

  /** The accepted sequences are exactly the encodings of valid packets, and distinct packets have
      distinct encodings. */
  lemma {:induction false} AcceptedIffEncoding(values: seq<int>, p: Packet)
    requires Valid(p)
    ensures Decode(values) == Accepted(p) <==> values == Encode(p)
  {
    DecodeEncode(p);
    if Decode(values) == Accepted(p) {
      EncodeDecode(values);
    }
  }
}
