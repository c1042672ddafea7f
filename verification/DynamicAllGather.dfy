/** Quantized all-gather of differently shaped tensors: a metadata round, then a payload round. */
module DynamicAllGather {
  import opened Sequences
  import opened Wrappers
  import opened Codecs
  import opened Executors
  import opened Collectives
  import opened Metadata
  import Shards

  /** What one rank's gatherer was constructed with. */
  datatype Config = Config(dtype: DataType, wire: QuantizedWire, layoutGeneration: nat)
  {
    ghost predicate Valid() {
      wire.Valid() && QuantCode(wire.quantType) != 0
    }
  }

  datatype Tensor = Tensor(shape: seq<int>, values: seq<real>)
  {
    ghost predicate Valid() {
      NonNegative(shape) && |values| == Product(shape)
    }
  }

  function PacketOf(config: Config, t: Tensor): (p: Packet)
    requires config.Valid()
    ensures p.payloadNumel >= 0
  {
    Packet(t.shape, config.dtype, config.wire, PayloadNbytes(|t.values|, config.dtype, config.wire),
           config.layoutGeneration, 0)
  }

  /** A rank can build its packet, and so join the metadata collective, exactly up to eight dimensions. */
  lemma {:induction false} PacketIsValidIff(config: Config, t: Tensor)
    requires config.Valid() && t.Valid()
    ensures Metadata.Valid(PacketOf(config, t)) <==> |t.shape| <= MAX_NDIM
  {
  }

  /** What a rank announces. */
  lemma {:induction false} PacketIs(config: Config, t: Tensor)
    requires config.Valid() && t.Valid()
    ensures var p := PacketOf(config, t);
            && p.shape == t.shape && p.dtype == config.dtype && p.wire == config.wire
            && p.payloadNumel == PayloadNbytes(Product(t.shape), config.dtype, config.wire)
            && p.layoutGeneration == config.layoutGeneration && p.flags == 0
  {
  }

  /** The packets of all ranks, gathered. */
  function GatheredWords(configs: seq<Config>, ts: seq<Tensor>): (words: seq<seq<int>>)
    requires |configs| == |ts|
    requires forall s :: 0 <= s < |ts| ==> configs[s].Valid() && |ts[s].shape| <= MAX_NDIM
    ensures |words| == |ts| && Uniform(words, PACKET_WORDS)
  {
    seq(|ts|, s requires 0 <= s < |ts| => Encode(PacketOf(configs[s], ts[s])))
  }

  ghost predicate Matches(config: Config, p: Packet) {
    p.dtype == config.dtype && p.wire == config.wire && p.layoutGeneration == config.layoutGeneration
  }

  /** Decode every gathered packet, then compare every packet with the rank's own configuration. */
  method CheckSchemas(config: Config, words: seq<seq<int>>) returns (r: Result<seq<Packet>>)
    ensures r.Ok? <==> forall s :: 0 <= s < |words| ==>
                         Decode(words[s]).Accepted? && Matches(config, Decode(words[s]).packet)
    ensures r.Ok? ==> |r.value| == |words| && forall s :: 0 <= s < |words| ==>
                        Decode(words[s]) == Accepted(r.value[s])
  {
    var packets := [];
    for s := 0 to |words|
      invariant |packets| == s
      invariant forall q :: 0 <= q < s ==> Decode(words[q]) == Accepted(packets[q])
    {
      match Decode(words[s]) {
        case Refused(_) => return Err("metadata packet refused");
        case Accepted(p) => packets := packets + [p];
      }
    }
    for s := 0 to |packets|
      invariant forall q :: 0 <= q < s ==> Matches(config, packets[q])
    {
      if packets[s].dtype != config.dtype || packets[s].wire != config.wire {
        return Err("dynamic all-gather metadata schema mismatch");
      }
      if packets[s].layoutGeneration != config.layoutGeneration {
        return Err("dynamic all-gather layout generation mismatch");
      }
    }
    r := Ok(packets);
  }

  ghost predicate SameConfig(configs: seq<Config>) {
    forall s, q :: 0 <= s < |configs| && 0 <= q < |configs| ==> configs[s] == configs[q]
  }

  /** Rank `r` accepts the gathered schemas. */
  ghost predicate Accepts(configs: seq<Config>, ts: seq<Tensor>, r: nat)
    requires |configs| == |ts| && r < |ts|
    requires forall s :: 0 <= s < |ts| ==> configs[s].Valid() && |ts[s].shape| <= MAX_NDIM
  {
    forall s :: 0 <= s < |ts| ==>
      var d := Decode(GatheredWords(configs, ts)[s]);
      d.Accepted? && Matches(configs[r], d.packet)
  }

  /** Either every rank accepts or none does, whatever their configurations: they accept exactly when all
      configurations are the same.  No rank enters the payload collective alone. */
  lemma {:induction false} AllAcceptOrNone(configs: seq<Config>, ts: seq<Tensor>, r: nat)
    requires |configs| == |ts| && r < |ts|
    requires forall s :: 0 <= s < |ts| ==> configs[s].Valid() && ts[s].Valid() && |ts[s].shape| <= MAX_NDIM
    ensures Accepts(configs, ts, r) <==> SameConfig(configs)
  {
    var words := GatheredWords(configs, ts);
    forall s | 0 <= s < |ts|
      ensures Decode(words[s]) == Accepted(PacketOf(configs[s], ts[s]))
    {
      DecodeEncode(PacketOf(configs[s], ts[s]));
    }
    if Accepts(configs, ts, r) {
      forall s | 0 <= s < |ts|
        ensures configs[s] == configs[r]
      {
        assert Matches(configs[r], Decode(words[s]).packet);
      }
    }
  }

  function MaxOf(sizes: seq<nat>): nat {
    if sizes == [] then 0
    else
      var rest := MaxOf(sizes[..|sizes| - 1]);
      if sizes[|sizes| - 1] > rest then sizes[|sizes| - 1] else rest
  }

  lemma {:induction false} MaxOfIsMax(sizes: seq<nat>)
    ensures forall i :: 0 <= i < |sizes| ==> sizes[i] <= MaxOf(sizes)
    ensures sizes != [] ==> MaxOf(sizes) in sizes
  {
    if sizes != [] {
      MaxOfIsMax(sizes[..|sizes| - 1]);
    }
  }

  /** The common slot size. */
  function Stride(sizes: seq<nat>): nat {
    Align(MaxOf(sizes), 16)
  }

  /** The least multiple of sixteen that holds every payload. */
  lemma {:induction false} StrideIsLeastAligned(sizes: seq<nat>, other: nat)
    requires sizes != []
    ensures Stride(sizes) % 16 == 0
    ensures forall i :: 0 <= i < |sizes| ==> sizes[i] <= Stride(sizes)
    ensures other % 16 == 0 && (forall i :: 0 <= i < |sizes| ==> sizes[i] <= other) ==> Stride(sizes) <= other
  {
    MaxOfIsMax(sizes);
    AlignCovers(MaxOf(sizes), 16);
    if other % 16 == 0 && forall i :: 0 <= i < |sizes| ==> sizes[i] <= other {
      assert MaxOf(sizes) <= other;
      assert Stride(sizes) < other + 16;
    }
  }

  function Sizes(packets: seq<Packet>): (sizes: seq<nat>)
    requires forall s :: 0 <= s < |packets| ==> packets[s].payloadNumel >= 0
    ensures |sizes| == |packets| && forall s :: 0 <= s < |packets| ==> sizes[s] == packets[s].payloadNumel
  {
    seq(|packets|, s requires 0 <= s < |packets| => packets[s].payloadNumel)
  }

  /** Put the payload in front of a zeroed slot. */
  method FillSlot<B(!new)>(payload: seq<B>, stride: nat, zero: B) returns (send: array<B>)
    requires |payload| <= stride
    ensures fresh(send) && send.Length == stride && send[..|payload|] == payload
  {
    send := new B[stride](_ => zero);
    forall i | 0 <= i < |payload| {
      send[i] := payload[i];
    }
  }

  /** Decode one output per rank from the gathered slots. */
  method DecodeOutputs<B(!new)>(c: Codec<B>, compact: bool, packets: seq<Packet>, gathered: seq<B>, stride: nat)
    returns (outputs: seq<Tensor>)
    requires c.Valid() && |gathered| == |packets| * stride
    requires forall s :: 0 <= s < |packets| ==> ReadsSlot(c, packets[s], stride)
    ensures |outputs| == |packets|
    ensures forall s :: 0 <= s < |packets| ==> outputs[s] == DecodedSlot(c, compact, packets, gathered, stride, s)
  {
    outputs := [];
    for rank := 0 to |packets|
      invariant |outputs| == rank
      invariant forall s :: 0 <= s < rank ==> outputs[s] == DecodedSlot(c, compact, packets, gathered, stride, s)
    {
      outputs := outputs + [DecodedSlot(c, compact, packets, gathered, stride, rank)];
    }
  }

  /** The packet announces a whole payload for its shape that fits a slot. */
  ghost predicate ReadsSlot<B(!new)>(c: Codec<B>, p: Packet, stride: nat)
    requires c.Valid()
  {
    && Product(p.shape) >= 0
    && p.payloadNumel == Shards.CeilDiv(Product(p.shape), c.groupSize) * c.GroupBytes() <= stride
  }

  function DecodedSlot<B(!new)>(
    c: Codec<B>, compact: bool, packets: seq<Packet>, gathered: seq<B>, stride: nat, s: nat): Tensor
    requires c.Valid() && |gathered| == |packets| * stride && s < |packets| && ReadsSlot(c, packets[s], stride)
  {
    var numel := Product(packets[s].shape);
    var n := Shards.CeilDiv(numel, c.groupSize);
    var payload := Block(gathered, stride, |packets|, s)[..packets[s].payloadNumel];
    DequantizeLength(c, compact, payload, n);
    Shards.CeilDivBounds(numel, c.groupSize);
    Tensor(packets[s].shape, Dequantize(c, compact, payload, n)[..numel])
  }

  /** What rank `s` sends in the payload round. */
  function PayloadOf<B(!new)>(c: Codec<B>, compact: bool, t: Tensor): seq<B>
    requires c.Valid()
  {
    var n := Shards.CeilDiv(|t.values|, c.groupSize);
    Shards.CeilDivBounds(|t.values|, c.groupSize);
    Payload(c, compact, Pad(t.values, n * c.groupSize), n)
  }

  lemma {:induction false} PayloadFitsPacket<B(!new)>(c: Codec<B>, config: Config, t: Tensor)
    requires config.Valid() && t.Valid() && c.Fits(config.wire, config.dtype)
    ensures |PayloadOf(c, config.wire.compact, t)| == PacketOf(config, t).payloadNumel
    ensures PacketOf(config, t).payloadNumel == Shards.CeilDiv(Product(t.shape), c.groupSize) * c.GroupBytes()
  {
    var n := Shards.CeilDiv(|t.values|, c.groupSize);
    Shards.CeilDivBounds(|t.values|, c.groupSize);
    PayloadLength(c, config.wire.compact, Pad(t.values, n * c.groupSize), n);
  }

  /** The packets are those of the tensors. */
  ghost predicate Announced(config: Config, ts: seq<Tensor>, packets: seq<Packet>) {
    && config.Valid() && |packets| == |ts| > 0
    && forall q :: 0 <= q < |ts| ==>
         ts[q].Valid() && packets[q].payloadNumel >= 0 && packets[q] == PacketOf(config, ts[q])
  }

  /** Every slot starts with its rank's payload. */
  ghost predicate Carries<B(!new)>(c: Codec<B>, compact: bool, ts: seq<Tensor>, rows: seq<seq<B>>)
    requires c.Valid()
  {
    && |rows| == |ts|
    && forall q :: 0 <= q < |ts| ==>
         var p := PayloadOf(c, compact, ts[q]);
         |p| <= |rows[q]| && rows[q][..|p|] == p
  }

  /** After acceptance all ranks agree on one sixteen-byte aligned stride, every payload fits its own slot
      (the slots are disjoint), and output `s` of every rank is rank `s`'s shape with the codec image of
      rank `s`'s values, whatever follows the payloads in the slots. */
  lemma {:induction false} OutputsAreImages<B(!new)>(
    c: Codec<B>, config: Config, ts: seq<Tensor>, packets: seq<Packet>, rows: seq<seq<B>>, s: nat)
    requires Announced(config, ts, packets) && c.Fits(config.wire, config.dtype) && s < |ts|
    requires Carries(c, config.wire.compact, ts, rows) && Uniform(rows, Stride(Sizes(packets)))
    ensures |Flatten(rows)| == |packets| * Stride(Sizes(packets))
    ensures Stride(Sizes(packets)) % 16 == 0 && ReadsSlot(c, packets[s], Stride(Sizes(packets)))
    ensures DecodedSlot(c, config.wire.compact, packets, Flatten(rows), Stride(Sizes(packets)), s)
         == Tensor(ts[s].shape, LocalReconstruction(c, ts[s].values))
  {
    var stride := Stride(Sizes(packets));
    StrideIsLeastAligned(Sizes(packets), 0);
    assert Sizes(packets)[s] <= stride;
    PayloadFitsPacket(c, config, ts[s]);
    SlotOfFlatten(rows, stride, s);
    var n := Shards.CeilDiv(|ts[s].values|, c.groupSize);
    Shards.CeilDivBounds(|ts[s].values|, c.groupSize);
    DequantizePayload(c, config.wire.compact, Pad(ts[s].values, n * c.groupSize), n);
  }

  /** With a lossless codec every rank ends with every tensor. */
  lemma {:induction false} LosslessGather<B(!new)>(c: Codec<B>, t: Tensor)
    requires c.Valid() && c.Lossless()
    ensures LocalReconstruction(c, t.values) == t.values
  {
    var n := Shards.CeilDiv(|t.values|, c.groupSize);
    Shards.CeilDivBounds(|t.values|, c.groupSize);
    LosslessImage(c, Pad(t.values, n * c.groupSize), n);
  }

  /** The metadata round: every rank fills its packet, and the collective concatenates them. */
  method GatherMetadata(configs: seq<Config>, ts: seq<Tensor>) returns (words: seq<seq<int>>)
    requires |configs| == |ts|
    requires forall s :: 0 <= s < |ts| ==> configs[s].Valid() && ts[s].Valid() && |ts[s].shape| <= MAX_NDIM
    ensures words == GatheredWords(configs, ts)
  {
    words := [];
    for s := 0 to |ts|
      invariant |words| == s
      invariant forall q :: 0 <= q < s ==> words[q] == Encode(PacketOf(configs[q], ts[q]))
    {
      PacketIsValidIff(configs[s], ts[s]);
      var values := ToValues(PacketOf(configs[s], ts[s]));
      words := words + [values[..]];
    }
  }

  /** Every rank checks the gathered packets; either all accept them, as those of the tensors, or none does. */
  method CheckAll(configs: seq<Config>, ts: seq<Tensor>) returns (checked: seq<Result<seq<Packet>>>)
    requires |configs| == |ts| > 0
    requires forall s :: 0 <= s < |ts| ==> configs[s].Valid() && ts[s].Valid() && |ts[s].shape| <= MAX_NDIM
    ensures |checked| == |ts|
    ensures forall r :: 0 <= r < |ts| ==> (checked[r].Ok? <==> SameConfig(configs))
    ensures forall r :: 0 <= r < |ts| && checked[r].Ok? ==>
              Announced(configs[0], ts, checked[r].value) && checked[r] == checked[0]
  {
    var words := GatherMetadata(configs, ts);
    checked := [];
    for r := 0 to |ts|
      invariant |checked| == r
      invariant forall q :: 0 <= q < r ==> (checked[q].Ok? <==> SameConfig(configs))
      invariant forall q :: 0 <= q < r && checked[q].Ok? ==>
                  Announced(configs[0], ts, checked[q].value) && checked[q] == checked[0]
    {
      var packets := CheckSchemas(configs[r], words);
      AllAcceptOrNone(configs, ts, r);
      assert packets.Ok? <==> Accepts(configs, ts, r);
      if packets.Ok? {
        AcceptedPackets(configs, ts, packets.value);
        assert r > 0 ==> checked[0].Ok? && checked[0].value == packets.value;
      }
      checked := checked + [packets];
    }
  }

  /** The packets that accepting ranks have decoded. */
  lemma {:induction false} AcceptedPackets(configs: seq<Config>, ts: seq<Tensor>, packets: seq<Packet>)
    requires |configs| == |ts| == |packets| > 0 && SameConfig(configs)
    requires forall s :: 0 <= s < |ts| ==> configs[s].Valid() && ts[s].Valid() && |ts[s].shape| <= MAX_NDIM
    requires forall s :: 0 <= s < |ts| ==> Decode(GatheredWords(configs, ts)[s]) == Accepted(packets[s])
    ensures packets == seq(|ts|, s requires 0 <= s < |ts| => PacketOf(configs[0], ts[s]))
    ensures Announced(configs[0], ts, packets)
  {
    forall s | 0 <= s < |ts|
      ensures packets[s] == PacketOf(configs[0], ts[s])
    {
      assert configs[s] == configs[0];
      DecodeEncode(PacketOf(configs[s], ts[s]));
    }
  }

  lemma {:induction false} PayloadFitsStride<B(!new)>(
    c: Codec<B>, config: Config, ts: seq<Tensor>, packets: seq<Packet>, s: nat)
    requires Announced(config, ts, packets) && c.Fits(config.wire, config.dtype) && s < |ts|
    ensures |PayloadOf(c, config.wire.compact, ts[s])| <= Stride(Sizes(packets))
  {
    StrideIsLeastAligned(Sizes(packets), 0);
    PayloadFitsPacket(c, config, ts[s]);
    assert Sizes(packets)[s] <= Stride(Sizes(packets));
  }

  /** The payload round. */
  method SendPayloads<B(!new)>(c: Codec<B>, config: Config, ts: seq<Tensor>, packets: seq<Packet>, zero: B)
    returns (rows: seq<seq<B>>)
    requires Announced(config, ts, packets) && c.Fits(config.wire, config.dtype)
    ensures Carries(c, config.wire.compact, ts, rows) && Uniform(rows, Stride(Sizes(packets)))
  {
    hide PayloadOf, Stride;
    var stride := Stride(Sizes(packets));
    rows := [];
    for s := 0 to |ts|
      invariant |rows| == s && Uniform(rows, stride)
      invariant Carries(c, config.wire.compact, ts[..s], rows)
    {
      PayloadFitsStride(c, config, ts, packets, s);
      var payload := PayloadOf(c, config.wire.compact, ts[s]);
      var send := FillSlot(payload, stride, zero);
      var row := send[..];
      assert row[..|payload|] == payload;
      rows := rows + [row];
    }
    assert ts[..|ts|] == ts;
  }

  /** The codec a gatherer uses has the sizes of its configuration. */
  ghost predicate Fitted<B(!new)>(codecOf: Config -> Codec<B>, config: Config) {
    codecOf(config).Fits(config.wire, config.dtype)
  }

  /** Some rank cannot build its packet: it raises, and the others enter the metadata collective without it. */
  method RefusedAlone(ts: seq<Tensor>) returns (ends: seq<Ending<seq<Tensor>>>)
    ensures |ends| == |ts|
    ensures forall r :: 0 <= r < |ts| ==> ends[r] == if |ts[r].shape| > MAX_NDIM then Raised else Waiting
  {
    ends := [];
    for r := 0 to |ts|
      invariant |ends| == r
      invariant forall q :: 0 <= q < r ==> ends[q] == if |ts[q].shape| > MAX_NDIM then Raised else Waiting
    {
      ends := ends + [if |ts[r].shape| > MAX_NDIM then Raised else Waiting];
    }
  }

  method AllFit(ts: seq<Tensor>) returns (fit: bool)
    ensures fit <==> forall s :: 0 <= s < |ts| ==> |ts[s].shape| <= MAX_NDIM
  {
    for s := 0 to |ts|
      invariant forall q :: 0 <= q < s ==> |ts[q].shape| <= MAX_NDIM
    {
      if |ts[s].shape| > MAX_NDIM {
        return false;
      }
    }
    fit := true;
  }

  /** The payload round and what each rank decodes from it. */
  method GatherPayloads<B(!new)>(c: Codec<B>, config: Config, ts: seq<Tensor>, packets: seq<Packet>, zero: B)
    returns (outputs: seq<Tensor>)
    requires Announced(config, ts, packets) && c.Fits(config.wire, config.dtype)
    ensures |outputs| == |ts|
    ensures forall s :: 0 <= s < |ts| ==> outputs[s] == Tensor(ts[s].shape, LocalReconstruction(c, ts[s].values))
  {
    var rows := SendPayloads(c, config, ts, packets, zero);
    var stride := Stride(Sizes(packets));
    forall s | 0 <= s < |ts|
      ensures |Flatten(rows)| == |packets| * stride && ReadsSlot(c, packets[s], stride)
      ensures DecodedSlot(c, config.wire.compact, packets, Flatten(rows), stride, s)
           == Tensor(ts[s].shape, LocalReconstruction(c, ts[s].values))
    {
      OutputsAreImages(c, config, ts, packets, rows, s);
    }
    assert ReadsSlot(c, packets[0], stride);
    outputs := DecodeOutputs(c, config.wire.compact, packets, Flatten(rows), stride);
  }

  /** Both rounds on every rank of a group, whatever its gatherers were constructed with.  A rank refuses a tensor of
      more than eight dimensions by itself, before the first collective, and then the others wait there; otherwise all
      ranks raise if any two configurations differ, and else every rank returns all tensors in rank order, as the codec
      restores them. */
  method RunDynamicAllGather<B(!new)>(codecOf: Config -> Codec<B>, configs: seq<Config>, ts: seq<Tensor>, zero: B)
    returns (ends: seq<Ending<seq<Tensor>>>)
    requires |configs| == |ts| > 0
    requires forall s :: 0 <= s < |ts| ==> configs[s].Valid() && ts[s].Valid() && Fitted(codecOf, configs[s])
    ensures |ends| == |ts|
    ensures forall r :: 0 <= r < |ts| && |ts[r].shape| > 8 ==> ends[r] == Raised
    ensures forall r, s :: 0 <= r < |ts| && 0 <= s < |ts| && |ts[r].shape| <= 8 && |ts[s].shape| > 8 ==>
              ends[r] == Waiting
    ensures (forall s :: 0 <= s < |ts| ==> |ts[s].shape| <= 8) ==>
              forall r :: 0 <= r < |ts| ==>
                (if exists s, q :: 0 <= s < |ts| && 0 <= q < |ts| && configs[s] != configs[q] then ends[r] == Raised
                 else ends[r].Returned? && |ends[r].value| == |ts|)
    ensures forall r, s :: 0 <= r < |ts| && 0 <= s < |ts| && ends[r].Returned? ==>
              && s < |ends[r].value| && ends[r].value[s].shape == ts[s].shape
              && codecOf(configs[r]).Valid()
              && ends[r].value[s].values == LocalReconstruction(codecOf(configs[r]), ts[s].values)
              && (codecOf(configs[r]).Lossless() ==> ends[r].value[s] == ts[s])
  {
    var fit := AllFit(ts);
    if !fit {
      ends := RefusedAlone(ts);
      return;
    }
    ends := RunFitting(codecOf, configs, ts, zero);
    forall r, s | 0 <= r < |ts| && 0 <= s < |ts| && ends[r].Returned? && codecOf(configs[r]).Lossless()
      ensures codecOf(configs[r]).Valid() && LocalReconstruction(codecOf(configs[r]), ts[s].values) == ts[s].values
    {
      assert AreImages(codecOf(configs[r]), ts, ends[r].value);
      LosslessGather(codecOf(configs[r]), ts[s]);
    }
  }

  /** Both rounds when every rank joins the first. */
  method RunFitting<B(!new)>(codecOf: Config -> Codec<B>, configs: seq<Config>, ts: seq<Tensor>, zero: B)
    returns (ends: seq<Ending<seq<Tensor>>>)
    requires |configs| == |ts| > 0
    requires forall s :: 0 <= s < |ts| ==> configs[s].Valid() && ts[s].Valid() && Fitted(codecOf, configs[s])
    requires forall s :: 0 <= s < |ts| ==> |ts[s].shape| <= MAX_NDIM
    ensures |ends| == |ts|
    ensures forall r :: 0 <= r < |ts| ==> if SameConfig(configs) then ends[r].Returned? else ends[r] == Raised
    ensures forall r :: 0 <= r < |ts| && ends[r].Returned? ==> AreImages(codecOf(configs[r]), ts, ends[r].value)
  {
    var checked := CheckAll(configs, ts);
    ends := [];
    for r := 0 to |ts|
      invariant |ends| == r
      invariant forall q :: 0 <= q < r ==> if SameConfig(configs) then ends[q].Returned? else ends[q] == Raised
      invariant forall q :: 0 <= q < r && ends[q].Returned? ==> AreImages(codecOf(configs[q]), ts, ends[q].value)
    {
      if checked[r].Err? {
        ends := ends + [Raised];
      } else {
        assert configs[r] == configs[0];
        var outputs := GatherPayloads(codecOf(configs[r]), configs[r], ts, checked[r].value, zero);
        ends := ends + [Returned(outputs)];
      }
    }
  }

  /** One tensor per rank, in rank order, as the codec restores it. */
  ghost predicate AreImages<B(!new)>(c: Codec<B>, ts: seq<Tensor>, outputs: seq<Tensor>) {
    && c.Valid() && |outputs| == |ts|
    && forall s :: 0 <= s < |ts| ==> outputs[s] == Tensor(ts[s].shape, LocalReconstruction(c, ts[s].values))
  }
}
