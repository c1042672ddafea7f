/** Quantized point-to-point: metadata and payload on two physical tags of one peer. */
module P2P {
  import opened Sequences
  import opened Wrappers
  import opened Codecs
  import opened Executors
  import opened Collectives
  import opened Metadata
  import opened DynamicAllGather
  import Shards

  datatype Tags = Tags(metadata: nat, payload: nat)

  function FromLogical(tag: int): (r: Result<Tags>)
    ensures r.Ok? <==> tag >= 0
  {
    if tag < 0 then Err("tag must be non-negative") else Ok(Tags(2 * tag, 2 * tag + 1))
  }

  /** The physical tags of different logical tags, and the two of one logical tag, are all different. */
  lemma {:induction false} TagsNeverCollide(a: nat, b: nat)
    ensures var (x, y) := (FromLogical(a).value, FromLogical(b).value);
            && x.metadata == 2 * a && x.payload == 2 * a + 1
            && x.metadata != y.payload
            && (x.metadata == y.metadata <==> a == b)
            && (x.payload == y.payload <==> a == b)
  {
  }

  // ---------------------------------------------------------------------------
  // One sender, one receiver, many logical tags.

  datatype Endpoint = Endpoint(dtype: DataType, wire: QuantizedWire)
  {
    ghost predicate Valid() {
      wire.Valid() && QuantCode(wire.quantType) != 0
    }
  }

  /** One `isend`. */
  datatype Item = Item(tensor: Tensor, layoutGeneration: int, flags: int)

  datatype Message<B> = Words(words: seq<int>) | Bytes(bytes: seq<B>)

  /** Why a receive raises. */
  datatype ReceiveError =
    | BadPacket(error: PacketError) | WrongDtype | WrongWire | WrongPayloadLength | TransportMismatch

  datatype Received = Delivered(tensor: Tensor) | Failed(error: ReceiveError)

  datatype Admission = Admitted(packet: Packet) | Rejected(error: ReceiveError)

  /** `half` is set between the two posts of an `isend`. */
  datatype Sender = Sender(sent: seq<Item>, half: bool)

  /** `begun` counts metadata packets taken; `pending` are accepted packets whose payload is awaited;
      `consumed` counts payloads taken. */
  datatype Receiver = Receiver(begun: nat, pending: map<nat, Packet>, consumed: nat, results: map<nat, Received>)

  /** `channel[p]` is the FIFO channel of physical tag `p`. */
  datatype State<B> = State(channel: seq<seq<Message<B>>>, sender: seq<Sender>, receiver: seq<Receiver>)

  /** What belongs to one logical tag. */
  datatype Lane<B> = Lane(metadata: seq<Message<B>>, payload: seq<Message<B>>, sender: Sender, receiver: Receiver)

  datatype Action =
    | PostMetadata(tag: nat, item: Item) | PostPayload(tag: nat)
    | TakeMetadata(tag: nat) | TakePayload(tag: nat, index: nat)

  /** The endpoints of the link, tag by tag, and the codec of each tag's sender. */
  datatype Link<!B(!new)> = Link(senders: seq<Endpoint>, receivers: seq<Endpoint>, codecs: seq<Codec<B>>)
  {
    ghost predicate Valid() {
      && |senders| == |receivers| == |codecs|
      && forall t :: 0 <= t < |senders| ==>
           senders[t].Valid() && receivers[t].Valid() && codecs[t].Fits(senders[t].wire, senders[t].dtype)
    }
  }

  /** The items `isend` accepts. */
  ghost predicate Sendable(item: Item) {
    item.tensor.Valid() && |item.tensor.shape| <= MAX_NDIM && item.layoutGeneration >= 0 && item.flags >= 0
  }

  function ItemPacket(e: Endpoint, item: Item): (p: Packet)
    requires e.wire.Valid()
    ensures p.payloadNumel >= 0
  {
    Packet(item.tensor.shape, e.dtype, e.wire, PayloadNbytes(|item.tensor.values|, e.dtype, e.wire),
           item.layoutGeneration, item.flags)
  }

  /** The receiver's checks on a metadata packet, in order. */
  function Admit(e: Endpoint, words: seq<int>): Admission
    requires e.wire.Valid()
  {
    match Decode(words)
    case Refused(error) => Rejected(BadPacket(error))
    case Accepted(p) =>
      if p.dtype != e.dtype then Rejected(WrongDtype)
      else if p.wire != e.wire then Rejected(WrongWire)
      else if Product(p.shape) < 0 || p.payloadNumel != PayloadNbytes(Product(p.shape), p.dtype, p.wire) then
        Rejected(WrongPayloadLength)
      else Admitted(p)
  }

  /** The first check that fails decides how a packet is rejected. */
  lemma {:induction false} RejectedWith(e: Endpoint, words: seq<int>)
    requires e.wire.Valid()
    ensures Decode(words).Refused? <==> Admit(e, words).Rejected? && Admit(e, words).error.BadPacket?
    ensures Decode(words).Refused? ==> Admit(e, words) == Rejected(BadPacket(Decode(words).error))
    ensures Decode(words).Accepted? ==>
              var p, a := Decode(words).packet, Admit(e, words);
              var fits := Product(p.shape) >= 0 && p.payloadNumel == PayloadNbytes(Product(p.shape), e.dtype, e.wire);
              && (a == Rejected(WrongDtype) <==> p.dtype != e.dtype)
              && (a == Rejected(WrongWire) <==> p.dtype == e.dtype && p.wire != e.wire)
              && (a == Rejected(WrongPayloadLength) <==> p.dtype == e.dtype && p.wire == e.wire && !fits)
              && (a == Admitted(p) <==> p.dtype == e.dtype && p.wire == e.wire && fits)
  {
  }

  /** What `isend` announces. */
  lemma {:induction false} ItemPacketIs(e: Endpoint, item: Item)
    requires e.wire.Valid() && item.tensor.Valid()
    ensures var p := ItemPacket(e, item);
            && p.shape == item.tensor.shape && p.dtype == e.dtype && p.wire == e.wire
            && p.payloadNumel == PayloadNbytes(Product(item.tensor.shape), e.dtype, e.wire)
            && p.layoutGeneration == item.layoutGeneration && p.flags == item.flags
  {
  }

  /** Restore a payload with the sizes its packet announces. */
  function RestoreItem<B(!new)>(c: Codec<B>, compact: bool, p: Packet, bytes: seq<B>): Received
    requires c.Valid()
  {
    var n := if Product(p.shape) >= 0 then Shards.CeilDiv(Product(p.shape), c.groupSize) else 0;
    if Product(p.shape) < 0 || |bytes| != p.payloadNumel || |bytes| != n * c.GroupBytes() then
      Failed(TransportMismatch)
    else
      DequantizeLength(c, compact, bytes, n);
      Shards.CeilDivBounds(Product(p.shape), c.groupSize);
      Delivered(Tensor(p.shape, Dequantize(c, compact, bytes, n)[..Product(p.shape)]))
  }

  /** A payload that is not as long as announced is a transport error, and only that is. */
  lemma {:induction false} TransportMismatchIff<B(!new)>(c: Codec<B>, compact: bool, p: Packet, bytes: seq<B>, n: nat)
    requires c.Valid() && 0 <= Product(p.shape) <= n * c.groupSize
    requires n > 0 ==> (n - 1) * c.groupSize < Product(p.shape)
    ensures RestoreItem(c, compact, p, bytes) == Failed(TransportMismatch)
       <==> |bytes| != p.payloadNumel || |bytes| != n * (c.valueBytes + c.scaleBytes)
  {
    var g, numel := c.groupSize, Product(p.shape);
    Shards.CeilDivBounds(numel, g);
    DivModUnique(numel + g - 1, g, n, numel + g - 1 - n * g);
  }

  ghost predicate WellShaped<B(!new)>(link: Link<B>, s: State<B>) {
    && link.Valid()
    && |s.sender| == |s.receiver| == |link.senders| && |s.channel| == 2 * |link.senders|
  }

  ghost function Initial<B(!new)>(link: Link<B>): State<B> {
    State(seq(2 * |link.senders|, _ => []),
          seq(|link.senders|, _ => Sender([], false)),
          seq(|link.senders|, _ => Receiver(0, map[], 0, map[])))
  }

  ghost function View<B(!new)>(link: Link<B>, s: State<B>, t: nat): Lane<B>
    requires WellShaped(link, s) && t < |link.senders|
  {
    var tags := FromLogical(t).value;
    Lane(s.channel[tags.metadata], s.channel[tags.payload], s.sender[t], s.receiver[t])
  }

  /** With `single`, a receiver posts a receive on a tag only when none is outstanding there. */
  ghost predicate LaneEnabled<B(!new)>(single: bool, l: Lane<B>, a: Action) {
    match a
    case PostMetadata(_, item) => Sendable(item) && !l.sender.half
    case PostPayload(_) => l.sender.half && |l.sender.sent| > 0
    case TakeMetadata(_) => |l.metadata| > 0 && (single ==> l.receiver.pending == map[])
    case TakePayload(_, i) => i in l.receiver.pending && |l.payload| > 0
  }

  ghost function TakeOneMetadata(r: Receiver, admitted: Admission): Receiver {
    match admitted
    case Admitted(p) => r.(begun := r.begun + 1, pending := r.pending[r.begun := p])
    case Rejected(error) => r.(begun := r.begun + 1, results := r.results[r.begun := Failed(error)])
  }

  function PayloadTaken(r: Receiver, i: nat, outcome: Received): Receiver {
    Receiver(r.begun, r.pending - {i}, r.consumed + 1, r.results[i := outcome])
  }

  ghost function LaneStep<B(!new)>(c: Codec<B>, e: Endpoint, f: Endpoint, l: Lane<B>, a: Action): Lane<B>
    requires c.Valid() && e.wire.Valid() && f.wire.Valid() && LaneEnabled(false, l, a)
  {
    match a
    case PostMetadata(_, item) =>
      l.(metadata := l.metadata + [ItemWords(e, item)], sender := Sender(l.sender.sent + [item], true))
    case PostPayload(_) =>
      l.(payload := l.payload + [ItemBytes(c, e, l.sender.sent[|l.sender.sent| - 1])],
         sender := Sender(l.sender.sent, false))
    case TakeMetadata(_) =>
      var message := l.metadata[0];
      var admitted := if message.Words? then Admit(f, message.words) else Rejected(BadPacket(WrongLength));
      l.(metadata := l.metadata[1..], receiver := TakeOneMetadata(l.receiver, admitted))
    case TakePayload(_, i) =>
      var r, message := l.receiver, l.payload[0];
      var outcome := if message.Bytes? then RestoreItem(c, f.wire.compact, r.pending[i], message.bytes)
                     else Failed(TransportMismatch);
      l.(payload := l.payload[1..],
         receiver := PayloadTaken(r, i, outcome))
  }

  function ItemWords<B(!new)>(e: Endpoint, item: Item): Message<B>
    requires e.wire.Valid()
  {
    Words(if |item.tensor.shape| <= MAX_NDIM then Encode(ItemPacket(e, item)) else [])
  }

  function ItemBytes<B(!new)>(c: Codec<B>, e: Endpoint, item: Item): Message<B>
    requires c.Valid()
  {
    Bytes(PayloadOf(c, e.wire.compact, item.tensor))
  }

  /** The flat values padded with zeros to whole groups; whole groups are sent as they are. */
  method PadSource(values: array<real>, groupSize: nat) returns (padded: array<real>)
    requires groupSize > 0
    ensures padded.Length == Align(values.Length, groupSize)
    ensures padded[..] == Pad(values[..], Align(values.Length, groupSize))
    ensures padded == values <==> values.Length % groupSize == 0
    ensures padded != values ==> fresh(padded)
  {
    AlignCovers(values.Length, groupSize);
    if values.Length % groupSize == 0 {
      AlignWhole(values.Length, groupSize);
      assert values[..] == Pad(values[..], values.Length);
      return values;
    }
    padded := PadInto(values[..], Align(values.Length, groupSize));
  }

  /** What one `isend` puts on the two channels; a refused call posts nothing. */
  method Isend<B(!new)>(c: Codec<B>, e: Endpoint, item: Item, values: array<real>, blank: B)
    returns (r: Result<(array<int>, array<B>)>)
    requires c.Fits(e.wire, e.dtype) && item.tensor.Valid() && values[..] == item.tensor.values
    ensures r.Ok? <==> Sendable(item) && QuantCode(e.wire.quantType) != 0
    ensures r.Ok? ==> Message<B>.Words(r.value.0[..]) == ItemWords(e, item)
                      && Bytes(r.value.1[..]) == ItemBytes(c, e, item)
    ensures values[..] == old(values[..])
  {
    var n := Shards.CeilDiv(values.Length, c.groupSize);
    Shards.CeilDivBounds(values.Length, c.groupSize);
    var prepared := PadSource(values, c.groupSize);
    PayloadHasAnnouncedSize(c, e.wire, e.dtype, prepared[..], values.Length);
    var payload := new B[PayloadNbytes(values.Length, e.dtype, e.wire)](_ => blank);
    PayloadLength(c, e.wire.compact, prepared[..], n);
    QuantizeInto(c, e.wire.compact, prepared[..], n, payload, 0);
    assert payload[..] == Payload(c, e.wire.compact, prepared[..], n);
    if |item.tensor.shape| > MAX_NDIM || QuantCode(e.wire.quantType) == 0
       || item.layoutGeneration < 0 || item.flags < 0 {
      return Err("invalid metadata packet");
    }
    var metadata := ToValues(ItemPacket(e, item));
    return Ok((metadata, payload));
  }

  /** `_finish` on a received metadata packet; `incoming` is what the peer sends on the payload tag. */
  method Finish<B(!new)>(c: Codec<B>, f: Endpoint, metadata: array<int>, incoming: seq<B>, blank: B)
    returns (r: Received)
    requires c.Fits(f.wire, f.dtype)
    ensures r == match Admit(f, metadata[..])
                 case Rejected(error) => Failed(error)
                 case Admitted(p) => RestoreItem(c, f.wire.compact, p, incoming)
  {
    var decoded := Decode(metadata[..]);
    if decoded.Refused? {
      return Failed(BadPacket(decoded.error));
    }
    var p := decoded.packet;
    if p.dtype != f.dtype {
      return Failed(WrongDtype);
    }
    if p.wire != f.wire {
      return Failed(WrongWire);
    }
    var numel := Product(p.shape);
    if numel < 0 || p.payloadNumel != PayloadNbytes(numel, p.dtype, p.wire) {
      return Failed(WrongPayloadLength);
    }
    r := ReceivePayload(c, f.wire.compact, p, incoming, blank);
  }

  /** Receive into a buffer of the announced size and restore what the packet's shape needs of it. */
  method ReceivePayload<B(!new)>(c: Codec<B>, compact: bool, p: Packet, incoming: seq<B>, blank: B)
    returns (r: Received)
    requires c.Valid() && Product(p.shape) >= 0
    requires p.payloadNumel == Shards.CeilDiv(Product(p.shape), c.groupSize) * c.GroupBytes()
    ensures r == RestoreItem(c, compact, p, incoming)
  {
    var payload := new B[p.payloadNumel](_ => blank);
    if |incoming| != payload.Length {
      return Failed(TransportMismatch);
    }
    forall i | 0 <= i < payload.Length {
      payload[i] := incoming[i];
    }
    assert payload[..] == incoming;
    var n := Shards.CeilDiv(Product(p.shape), c.groupSize);
    Shards.CeilDivBounds(Product(p.shape), c.groupSize);
    var output := DequantizeInto(c, compact, payload[..], n);
    return Delivered(Tensor(p.shape, output[..Product(p.shape)]));
  }

  /** Native dequantization into a fresh padded buffer. */
  method DequantizeInto<B(!new)>(c: Codec<B>, compact: bool, payload: seq<B>, n: nat) returns (output: array<real>)
    requires c.Valid() && |payload| == n * c.GroupBytes()
    ensures fresh(output) && output.Length == n * c.groupSize && output[..] == Dequantize(c, compact, payload, n)
  {
    DequantizeLength(c, compact, payload, n);
    var values := Dequantize(c, compact, payload, n);
    output := new real[n * c.groupSize](_ => 0.0);
    forall i | 0 <= i < |values| {
      output[i] := values[i];
    }
  }

  /** One send answered by one receive with the same endpoint settings. */
  method SendAndReceive<B(!new)>(c: Codec<B>, e: Endpoint, item: Item, values: array<real>, blank: B)
    returns (r: Received)
    requires c.Fits(e.wire, e.dtype) && e.Valid() && Sendable(item) && values[..] == item.tensor.values
    ensures r == Delivered(ItemImage(c, item))
  {
    var posted := Isend(c, e, item, values, blank);
    AdmitIff(e, e, item);
    RestoreOwnPayload(c, e, item, item);
    r := Finish(c, e, posted.value.0, posted.value.1[..], blank);
  }

  ghost predicate Enabled<B(!new)>(link: Link<B>, single: bool, s: State<B>, a: Action)
    requires WellShaped(link, s)
  {
    a.tag < |link.senders| && LaneEnabled(single, View(link, s, a.tag), a)
  }

  /** An action posts to, or takes from, the two physical tags of its logical tag. */
  ghost function Apply<B(!new)>(link: Link<B>, s: State<B>, a: Action): State<B>
    requires WellShaped(link, s) && Enabled(link, false, s, a)
  {
    var t := a.tag;
    var tags := FromLogical(t).value;
    var l := LaneStep(link.codecs[t], link.senders[t], link.receivers[t], View(link, s, t), a);
    State(s.channel[tags.metadata := l.metadata][tags.payload := l.payload],
          s.sender[t := l.sender], s.receiver[t := l.receiver])
  }

  lemma {:induction false} TagsAreIndependent<B(!new)>(link: Link<B>, s: State<B>, a: Action, q: nat)
    requires WellShaped(link, s) && Enabled(link, false, s, a) && q < |link.senders|
    ensures WellShaped(link, Apply(link, s, a))
    ensures View(link, Apply(link, s, a), q)
         == if q == a.tag then LaneStep(link.codecs[q], link.senders[q], link.receivers[q], View(link, s, q), a)
            else View(link, s, q)
  {
    hide LaneStep, LaneEnabled;
    TagsNeverCollide(a.tag, q);
  }

  ghost predicate IsRun<B(!new)>(link: Link<B>, single: bool, run: seq<State<B>>, actions: seq<Action>) {
    && link.Valid()
    && |run| == |actions| + 1
    && run[0] == Initial(link)
    && forall i :: 0 <= i < |actions| ==>
         WellShaped(link, run[i]) && Enabled(link, single, run[i], actions[i])
         && run[i + 1] == Apply(link, run[i], actions[i])
  }

  // ---------------------------------------------------------------------------
  // The invariant of one tag.

  ghost predicate Agrees<B(!new)>(link: Link<B>, t: nat)
    requires link.Valid() && t < |link.senders|
  {
    link.senders[t] == link.receivers[t]
  }

  function AllWords<B(!new)>(e: Endpoint, sent: seq<Item>): (m: seq<Message<B>>)
    requires e.wire.Valid()
    ensures |m| == |sent|
  {
    seq(|sent|, i requires 0 <= i < |sent| => ItemWords(e, sent[i]))
  }

  function AllBytes<B(!new)>(c: Codec<B>, e: Endpoint, sent: seq<Item>): (m: seq<Message<B>>)
    requires c.Valid()
    ensures |m| == |sent|
  {
    seq(|sent|, i requires 0 <= i < |sent| => ItemBytes(c, e, sent[i]))
  }

  function Complete(s: Sender): nat {
    if s.half && |s.sent| > 0 then |s.sent| - 1 else |s.sent|
  }

  /** The channels hold what was posted and not yet taken, in order. */
  ghost predicate QueueInv<B(!new)>(c: Codec<B>, e: Endpoint, l: Lane<B>)
    requires c.Valid() && e.wire.Valid()
  {
    && (forall i :: 0 <= i < |l.sender.sent| ==> Sendable(l.sender.sent[i]))
    && (l.sender.half ==> |l.sender.sent| > 0)
    && l.receiver.begun <= |l.sender.sent| && l.receiver.consumed <= Complete(l.sender)
    && l.metadata == AllWords(e, l.sender.sent)[l.receiver.begun..]
    && l.payload == AllBytes(c, e, l.sender.sent)[l.receiver.consumed..Complete(l.sender)]
  }

  /** How a receive fails when the endpoints of its tag disagree. */
  function Disagreement(sender: Endpoint, receiver: Endpoint): ReceiveError {
    if sender.dtype != receiver.dtype then WrongDtype else WrongWire
  }

  /** Every begun receive is waiting for its payload, with its own packet, or has a result. */
  ghost predicate BookInv(e: Endpoint, f: Endpoint, sent: seq<Item>, r: Receiver)
    requires e.wire.Valid()
  {
    && r.begun <= |sent|
    && (forall i :: i in r.pending ==> i < r.begun && e == f && r.pending[i] == ItemPacket(e, sent[i]))
    && (forall i :: i in r.results ==> i < r.begun && i !in r.pending)
    && (e != f ==> r.consumed == 0 && forall i :: i in r.results ==> r.results[i] == Failed(Disagreement(e, f)))
  }

  /** With one outstanding receive per tag, payloads are consumed in the order of the receives. */
  ghost predicate SingleInv<B(!new)>(c: Codec<B>, e: Endpoint, f: Endpoint, sent: seq<Item>, r: Receiver)
    requires c.Valid()
  {
    e == f ==>
      && (r.pending == map[] ==> r.consumed == r.begun)
      && (r.pending != map[] ==> r.consumed + 1 == r.begun && r.pending.Keys == {r.consumed})
      && (forall i :: i in r.results ==>
            i < r.consumed && i < |sent| && r.results[i] == Delivered(ItemImage(c, sent[i])))
  }

  /** What the receiver should obtain for an item. */
  function ItemImage<B(!new)>(c: Codec<B>, item: Item): Tensor
    requires c.Valid()
  {
    Tensor(item.tensor.shape, LocalReconstruction(c, item.tensor.values))
  }

  /** With a lossless codec that is the item's tensor. */
  lemma {:induction false} LosslessItem<B(!new)>(c: Codec<B>, item: Item)
    requires c.Valid() && c.Lossless()
    ensures ItemImage(c, item) == item.tensor
  {
    LosslessGather(c, item.tensor);
  }

  ghost predicate LaneInv<B(!new)>(single: bool, c: Codec<B>, e: Endpoint, f: Endpoint, l: Lane<B>)
    requires c.Valid() && e.wire.Valid()
  {
    && QueueInv(c, e, l)
    && BookInv(e, f, l.sender.sent, l.receiver)
    && (single ==> SingleInv(c, e, f, l.sender.sent, l.receiver))
  }

  ghost predicate Inv<B(!new)>(link: Link<B>, single: bool, s: State<B>) {
    && WellShaped(link, s)
    && forall t :: 0 <= t < |link.senders| ==>
         LaneInv(single, link.codecs[t], link.senders[t], link.receivers[t], View(link, s, t))
  }

  /** A receiver admits a sender's packet exactly when element type and wire agree. */
  lemma {:induction false} AdmitIff(sender: Endpoint, receiver: Endpoint, item: Item)
    requires sender.Valid() && receiver.Valid() && Sendable(item)
    ensures Admit(receiver, Encode(ItemPacket(sender, item)))
         == if sender == receiver then Admitted(ItemPacket(sender, item))
            else Rejected(Disagreement(sender, receiver))
  {
    DecodeEncode(ItemPacket(sender, item));
  }

  /** The payload of an item, restored with its own packet, is the item's image; it has exactly the
      length the packet announces. */
  lemma {:induction false} RestoreOwnPayload<B(!new)>(c: Codec<B>, e: Endpoint, packetOf: Item, payloadOf: Item)
    requires e.Valid() && c.Fits(e.wire, e.dtype) && Sendable(packetOf) && Sendable(payloadOf)
    ensures |PayloadOf(c, e.wire.compact, payloadOf.tensor)| == ItemPacket(e, payloadOf).payloadNumel
    ensures packetOf.tensor.shape == payloadOf.tensor.shape ==>
              RestoreItem(c, e.wire.compact, ItemPacket(e, packetOf), PayloadOf(c, e.wire.compact, payloadOf.tensor))
              == Delivered(ItemImage(c, payloadOf))
  {
    var t := payloadOf.tensor;
    var n := Shards.CeilDiv(|t.values|, c.groupSize);
    Shards.CeilDivBounds(|t.values|, c.groupSize);
    var padded := Pad(t.values, n * c.groupSize);
    PayloadLength(c, e.wire.compact, padded, n);
    DequantizePayload(c, e.wire.compact, padded, n);
  }

  /** The image of an item's values, padded to whole groups. */
  function PaddedImage<B(!new)>(c: Codec<B>, item: Item): (v: seq<real>)
    requires c.Valid()
    ensures |v| == Groups(c, item) * c.groupSize && |item.tensor.values| <= |v|
  {
    Shards.CeilDivBounds(|item.tensor.values|, c.groupSize);
    var padded := Pad(item.tensor.values, Groups(c, item) * c.groupSize);
    ImageLength(c, padded, Groups(c, item));
    Image(c, padded, Groups(c, item))
  }

  function Groups<B(!new)>(c: Codec<B>, item: Item): nat
    requires c.Valid()
  {
    Shards.CeilDiv(|item.tensor.values|, c.groupSize)
  }

  /** The payload of one item, restored with the packet of another, gives the tensor of the packet exactly if both
      have as many groups and their images agree on its elements. */
  lemma {:induction false} RestoreIsOwnIff<B(!new)>(c: Codec<B>, e: Endpoint, packetOf: Item, payloadOf: Item)
    requires e.Valid() && c.Fits(e.wire, e.dtype) && Sendable(packetOf) && Sendable(payloadOf)
    ensures RestoreItem(c, e.wire.compact, ItemPacket(e, packetOf), PayloadOf(c, e.wire.compact, payloadOf.tensor))
            == Delivered(ItemImage(c, packetOf))
       <==> Groups(c, payloadOf) == Groups(c, packetOf)
            && PaddedImage(c, payloadOf)[..|packetOf.tensor.values|]
               == PaddedImage(c, packetOf)[..|packetOf.tensor.values|]
  {
    var n, m := Groups(c, packetOf), Groups(c, payloadOf);
    var padded := Pad(payloadOf.tensor.values, |PaddedImage(c, payloadOf)|);
    PayloadLength(c, e.wire.compact, padded, m);
    DequantizePayload(c, e.wire.compact, padded, m);
    assert ItemImage(c, packetOf).values == PaddedImage(c, packetOf)[..|packetOf.tensor.values|];
    SameGroups(n, m, c.GroupBytes());
  }

  lemma SameGroups(n: nat, m: nat, bytes: nat)
    requires bytes > 0
    ensures n * bytes == m * bytes <==> n == m
  {
    assert (n - m) * bytes == n * bytes - m * bytes;
    if n * bytes == m * bytes {
      OnlyZeroIsSmall(n - m, bytes);
    }
  }

  ghost predicate EndsFit<B(!new)>(c: Codec<B>, e: Endpoint, f: Endpoint) {
    e.Valid() && f.Valid() && c.Fits(e.wire, e.dtype)
  }

  lemma {:induction false} PostMetadataKeeps<B(!new)>(
    single: bool, c: Codec<B>, e: Endpoint, f: Endpoint, l: Lane<B>, t: nat, item: Item)
    requires EndsFit(c, e, f) && LaneInv(single, c, e, f, l) && LaneEnabled(single, l, PostMetadata(t, item))
    ensures LaneInv(single, c, e, f, LaneStep(c, e, f, l, PostMetadata(t, item)))
  {
    hide Encode, PayloadOf;
    var sent := l.sender.sent;
    assert AllWords<B>(e, sent + [item]) == AllWords(e, sent) + [ItemWords(e, item)];
    assert AllBytes(c, e, sent + [item]) == AllBytes(c, e, sent) + [ItemBytes(c, e, item)];
  }

  lemma {:induction false} PostPayloadKeeps<B(!new)>(
    single: bool, c: Codec<B>, e: Endpoint, f: Endpoint, l: Lane<B>, t: nat)
    requires EndsFit(c, e, f) && LaneInv(single, c, e, f, l) && LaneEnabled(single, l, PostPayload(t))
    ensures LaneInv(single, c, e, f, LaneStep(c, e, f, l, PostPayload(t)))
  {
    hide Encode, PayloadOf;
    var n := |l.sender.sent|;
    var all := AllBytes(c, e, l.sender.sent);
    assert all[l.receiver.consumed..n] == all[l.receiver.consumed..n - 1] + [all[n - 1]];
  }

  lemma {:induction false} AdmittedBook<B(!new)>(
    single: bool, c: Codec<B>, e: Endpoint, f: Endpoint, sent: seq<Item>, r: Receiver, admitted: Admission)
    requires EndsFit(c, e, f) && BookInv(e, f, sent, r) && r.begun < |sent|
    requires admitted == if e == f then Admitted(ItemPacket(e, sent[r.begun])) else Rejected(Disagreement(e, f))
    requires single ==> SingleInv(c, e, f, sent, r) && r.pending == map[]
    ensures BookInv(e, f, sent, TakeOneMetadata(r, admitted))
    ensures single ==> SingleInv(c, e, f, sent, TakeOneMetadata(r, admitted))
  {
    hide ItemPacket, ItemImage;
    if e == f {
      var u := TakeOneMetadata(r, admitted);
      assert r.pending == map[] ==> u.pending.Keys == {r.begun};
    }
  }

  lemma {:induction false} TakeMetadataKeeps<B(!new)>(
    single: bool, c: Codec<B>, e: Endpoint, f: Endpoint, l: Lane<B>, t: nat)
    requires EndsFit(c, e, f) && LaneInv(single, c, e, f, l) && LaneEnabled(single, l, TakeMetadata(t))
    ensures LaneInv(single, c, e, f, LaneStep(c, e, f, l, TakeMetadata(t)))
  {
    var r, item := l.receiver, l.sender.sent[l.receiver.begun];
    assert l.metadata[0] == ItemWords(e, item);
    AdmitIff(e, f, item);
    var admitted := if e == f then Admitted(ItemPacket(e, item)) else Rejected(Disagreement(e, f));
    AdmittedBook(single, c, e, f, l.sender.sent, r, admitted);
    hide Encode, PayloadOf, Admit, BookInv, SingleInv, ItemPacket;
    assert l.metadata[1..] == AllWords(e, l.sender.sent)[r.begun + 1..];
  }

  lemma {:induction false} TakenBook<B(!new)>(
    single: bool, c: Codec<B>, e: Endpoint, f: Endpoint, sent: seq<Item>, r: Receiver, i: nat, outcome: Received)
    requires EndsFit(c, e, f) && BookInv(e, f, sent, r) && i in r.pending
    requires single ==> SingleInv(c, e, f, sent, r)
    requires single && i < |sent| ==> outcome == Delivered(ItemImage(c, sent[i]))
    ensures BookInv(e, f, sent, PayloadTaken(r, i, outcome))
    ensures single ==> i == r.consumed && SingleInv(c, e, f, sent, PayloadTaken(r, i, outcome))
  {
    hide ItemPacket, ItemImage;
    if single {
      assert i in r.pending.Keys;
      assert r.pending - {i} == map[];
    }
  }

  lemma {:induction false} TakenQueue<B(!new)>(c: Codec<B>, e: Endpoint, l: Lane<B>, r: Receiver)
    requires c.Valid() && e.wire.Valid() && QueueInv(c, e, l) && |l.payload| > 0
    requires r.begun == l.receiver.begun && r.consumed == l.receiver.consumed + 1
    ensures l.receiver.consumed < |l.sender.sent|
    ensures l.payload[0] == ItemBytes(c, e, l.sender.sent[l.receiver.consumed])
    ensures QueueInv(c, e, l.(payload := l.payload[1..], receiver := r))
  {
    hide ItemBytes, Encode, PayloadOf;
    assert l.payload[1..] == AllBytes(c, e, l.sender.sent)[l.receiver.consumed + 1..Complete(l.sender)];
  }

  lemma {:induction false} TakePayloadKeeps<B(!new)>(
    single: bool, c: Codec<B>, e: Endpoint, f: Endpoint, l: Lane<B>, t: nat, i: nat)
    requires EndsFit(c, e, f) && LaneInv(single, c, e, f, l) && LaneEnabled(single, l, TakePayload(t, i))
    ensures LaneInv(single, c, e, f, LaneStep(c, e, f, l, TakePayload(t, i)))
  {
    var r, sent := l.receiver, l.sender.sent;
    var after := LaneStep(c, e, f, l, TakePayload(t, i));
    TakenQueue(c, e, l, after.receiver);
    assert single ==> i == r.consumed by {
      assert i in r.pending.Keys;
    }
    RestoreOwnPayload(c, e, sent[i], sent[i]);
    hide QueueInv, Encode, PayloadOf, ItemImage, ItemPacket;
    TakenBook(single, c, e, f, sent, r, i, after.receiver.results[i]);
  }

  lemma {:induction false} LaneStepKeeps<B(!new)>(
    single: bool, c: Codec<B>, e: Endpoint, f: Endpoint, l: Lane<B>, a: Action)
    requires EndsFit(c, e, f) && LaneInv(single, c, e, f, l) && LaneEnabled(single, l, a)
    ensures LaneEnabled(false, l, a) && LaneInv(single, c, e, f, LaneStep(c, e, f, l, a))
  {
    hide LaneInv, LaneStep;
    match a {
      case PostMetadata(t, item) => PostMetadataKeeps(single, c, e, f, l, t, item);
      case PostPayload(t) => PostPayloadKeeps(single, c, e, f, l, t);
      case TakeMetadata(t) => TakeMetadataKeeps(single, c, e, f, l, t);
      case TakePayload(t, i) => TakePayloadKeeps(single, c, e, f, l, t, i);
    }
  }

  lemma {:induction false} ActionKeepsInv<B(!new)>(link: Link<B>, single: bool, s: State<B>, a: Action)
    requires Inv(link, single, s) && Enabled(link, single, s, a)
    ensures Enabled(link, false, s, a) && Inv(link, single, Apply(link, s, a))
  {
    var t := a.tag;
    LaneStepKeeps(single, link.codecs[t], link.senders[t], link.receivers[t], View(link, s, t), a);
    hide LaneInv, LaneStep, View, Apply, LaneEnabled;
    forall q | 0 <= q < |link.senders|
      ensures WellShaped(link, Apply(link, s, a))
      ensures LaneInv(single, link.codecs[q], link.senders[q], link.receivers[q], View(link, Apply(link, s, a), q))
    {
      TagsAreIndependent(link, s, a, q);
    }
    TagsAreIndependent(link, s, a, t);
  }

  lemma {:induction false} RunKeepsInv<B(!new)>(
    link: Link<B>, single: bool, run: seq<State<B>>, actions: seq<Action>, i: nat)
    requires IsRun(link, single, run, actions) && i < |run|
    ensures Inv(link, single, run[i])
  {
    if i == 0 {
      forall t | 0 <= t < |link.senders|
        ensures LaneInv(single, link.codecs[t], link.senders[t], link.receivers[t], View(link, run[0], t))
      {
        assert View(link, run[0], t) == Lane([], [], Sender([], false), Receiver(0, map[], 0, map[]));
      }
    } else {
      RunKeepsInv(link, single, run, actions, i - 1);
      assert Enabled(link, single, run[i - 1], actions[i - 1]);
      ActionKeepsInv(link, single, run[i - 1], actions[i - 1]);
    }
  }

  // ---------------------------------------------------------------------------
  // Main results.

  /** For any interleaving of sends and receives over any tags, with one outstanding receive per tag: the
      `k`-th finished receive of a tag whose endpoints agree delivers the `k`-th tensor sent on that tag, with its
      shape and codec image. */
  lemma {:induction false} KthReceiveDeliversKthSend<B(!new)>(
    link: Link<B>, run: seq<State<B>>, actions: seq<Action>, i: nat, t: nat, k: nat)
    requires IsRun(link, true, run, actions) && i < |run| && t < |link.senders| && Agrees(link, t)
    requires WellShaped(link, run[i]) && k in run[i].receiver[t].results
    ensures k < |run[i].sender[t].sent|
    ensures run[i].receiver[t].results[k] == Delivered(ItemImage(link.codecs[t], run[i].sender[t].sent[k]))
  {
    RunKeepsInv(link, true, run, actions, i);
    assert LaneInv(true, link.codecs[t], link.senders[t], link.receivers[t], View(link, run[i], t));
  }

  /** If the endpoints of a tag disagree, every receive fails and no payload is ever taken. */
  lemma {:induction false} DisagreeingEndpointsFail<B(!new)>(
    link: Link<B>, single: bool, run: seq<State<B>>, actions: seq<Action>, i: nat, t: nat, k: nat)
    requires IsRun(link, single, run, actions) && i < |run| && t < |link.senders| && !Agrees(link, t)
    requires WellShaped(link, run[i])
    ensures run[i].receiver[t].consumed == 0 && forall j :: j !in run[i].receiver[t].pending
    ensures k in run[i].receiver[t].results ==>
              run[i].receiver[t].results[k] == Failed(Disagreement(link.senders[t], link.receivers[t]))
  {
    RunKeepsInv(link, single, run, actions, i);
    assert LaneInv(single, link.codecs[t], link.senders[t], link.receivers[t], View(link, run[i], t));
  }

  /** Without the one-receive discipline: receive `k` takes the payload of send `consumed`, the next one in order.
      It delivers the `k`-th tensor exactly if that payload has as many groups as its own and restores the
      same elements; in particular when the payloads of exactly the earlier receives were taken before. */
  lemma {:induction false} PayloadTakenIsNextInOrder<B(!new)>(
    link: Link<B>, run: seq<State<B>>, actions: seq<Action>, i: nat, t: nat, k: nat)
    requires IsRun(link, false, run, actions) && i < |actions| && actions[i] == TakePayload(t, k)
    ensures WellShaped(link, run[i]) && t < |link.senders| && k in run[i].receiver[t].pending
    ensures var c, e, sent := link.codecs[t], link.senders[t], run[i].sender[t].sent;
            var consumed := run[i].receiver[t].consumed;
            && consumed < |sent| && k < |sent|
            && run[i + 1].receiver[t].results[k]
               == RestoreItem(c, e.wire.compact, ItemPacket(e, sent[k]),
                              PayloadOf(c, e.wire.compact, sent[consumed].tensor))
            && (run[i + 1].receiver[t].results[k] == Delivered(ItemImage(c, sent[k]))
                <==> Groups(c, sent[consumed]) == Groups(c, sent[k])
                     && PaddedImage(c, sent[consumed])[..|sent[k].tensor.values|]
                        == PaddedImage(c, sent[k])[..|sent[k].tensor.values|])
            && (sent[consumed].tensor.shape == sent[k].tensor.shape ==>
                  run[i + 1].receiver[t].results[k] == Delivered(ItemImage(c, sent[consumed])))
  {
    RunKeepsInv(link, false, run, actions, i);
    var s := run[i];
    assert Enabled(link, false, s, actions[i]);
    var c, e, l := link.codecs[t], link.senders[t], View(link, s, t);
    assert LaneInv(false, c, e, link.receivers[t], l);
    TagsAreIndependent(link, s, actions[i], t);
    var r, sent := s.receiver[t], s.sender[t].sent;
    assert l.payload[0] == ItemBytes(c, e, sent[r.consumed]);
    assert r.pending[k] == ItemPacket(e, sent[k]);
    RestoreOwnPayload(c, e, sent[k], sent[r.consumed]);
    RestoreIsOwnIff(c, e, sent[k], sent[r.consumed]);
    hide PayloadOf, RestoreItem, ItemImage, PaddedImage, Groups;
  }

  ghost function Lanes<B(!new)>(c: Codec<B>, e: Endpoint, a: Item, b: Item, n: nat): Lane<B>
    requires EndsFit(c, e, e) && n <= 6
  {
    var (wa, wb, ba, bb) := (ItemWords(e, a), ItemWords(e, b), ItemBytes(c, e, a), ItemBytes(c, e, b));
    var (pa, pb) := (ItemPacket(e, a), ItemPacket(e, b));
    if n == 0 then Lane([], [], Sender([], false), Receiver(0, map[], 0, map[]))
    else if n == 1 then Lane([wa], [], Sender([a], true), Receiver(0, map[], 0, map[]))
    else if n == 2 then Lane([wa], [ba], Sender([a], false), Receiver(0, map[], 0, map[]))
    else if n == 3 then Lane([wa, wb], [ba], Sender([a, b], true), Receiver(0, map[], 0, map[]))
    else if n == 4 then Lane([wa, wb], [ba, bb], Sender([a, b], false), Receiver(0, map[], 0, map[]))
    else if n == 5 then Lane([wb], [ba, bb], Sender([a, b], false), Receiver(1, map[0 := pa], 0, map[]))
    else Lane([], [ba, bb], Sender([a, b], false), Receiver(2, map[0 := pa, 1 := pb], 0, map[]))
  }

  function Crossing(t: nat, a: Item, b: Item, n: nat): Action {
    if n == 0 then PostMetadata(t, a) else if n == 1 then PostPayload(t)
    else if n == 2 then PostMetadata(t, b) else if n == 3 then PostPayload(t)
    else if n < 6 then TakeMetadata(t)
    else TakePayload(t, 1)
  }

  lemma {:induction false} CrossingPost<B(!new)>(c: Codec<B>, e: Endpoint, t: nat, a: Item, b: Item, n: nat)
    requires EndsFit(c, e, e) && Sendable(a) && Sendable(b) && n < 4
    ensures LaneEnabled(false, Lanes(c, e, a, b, n), Crossing(t, a, b, n))
    ensures LaneStep(c, e, e, Lanes(c, e, a, b, n), Crossing(t, a, b, n)) == Lanes(c, e, a, b, n + 1)
  {
    hide ItemWords, ItemBytes, ItemPacket;
  }

  lemma {:induction false} CrossingTake<B(!new)>(c: Codec<B>, e: Endpoint, t: nat, a: Item, b: Item, n: nat)
    requires EndsFit(c, e, e) && Sendable(a) && Sendable(b) && 4 <= n < 6
    ensures LaneEnabled(false, Lanes(c, e, a, b, n), Crossing(t, a, b, n))
    ensures LaneStep(c, e, e, Lanes(c, e, a, b, n), Crossing(t, a, b, n)) == Lanes(c, e, a, b, n + 1)
  {
    var item := if n == 4 then a else b;
    AdmitIff(e, e, item);
    var words := Encode(ItemPacket(e, item));
    assert ItemWords<B>(e, item) == Words(words);
    hide ItemWords, ItemBytes, ItemPacket, Admit, Encode;
    assert [ItemWords<B>(e, a), ItemWords<B>(e, b)][1..] == [ItemWords<B>(e, b)];
    if n == 5 {
      assert map[0 := ItemPacket(e, a)][1 := ItemPacket(e, b)] == map[0 := ItemPacket(e, a), 1 := ItemPacket(e, b)];
    }
  }

  /** The state in which only tag `t` has been used. */
  ghost function OnlyTag<B(!new)>(link: Link<B>, t: nat, l: Lane<B>): (s: State<B>)
    requires link.Valid() && t < |link.senders|
    ensures WellShaped(link, s) && View(link, s, t) == l
  {
    var s := Initial(link);
    State(s.channel[2 * t := l.metadata][2 * t + 1 := l.payload], s.sender[t := l.sender], s.receiver[t := l.receiver])
  }

  lemma {:induction false} OnlyTagStep<B(!new)>(link: Link<B>, t: nat, l: Lane<B>, a: Action)
    requires link.Valid() && t < |link.senders| && a.tag == t && LaneEnabled(false, l, a)
    ensures Enabled(link, false, OnlyTag(link, t, l), a)
    ensures Apply(link, OnlyTag(link, t, l), a)
         == OnlyTag(link, t, LaneStep(link.codecs[t], link.senders[t], link.receivers[t], l, a))
  {
    hide LaneStep, LaneEnabled;
  }

  /** The states of the crossing run. */
  ghost function Crossed<B(!new)>(link: Link<B>, t: nat, a: Item, b: Item, n: nat): (s: State<B>)
    requires link.Valid() && t < |link.senders| && Agrees(link, t) && Sendable(a) && Sendable(b) && n <= 7
    requires a.tensor.shape == b.tensor.shape
    ensures WellShaped(link, s)
    ensures n == 7 ==> View(link, s, t).sender.sent == [a, b]
                       && View(link, s, t).receiver.results == map[1 := Delivered(ItemImage(link.codecs[t], a))]
  {
    var c, e := link.codecs[t], link.senders[t];
    if n < 7 then OnlyTag(link, t, Lanes(c, e, a, b, n))
    else
      CrossedOutcome(c, e, t, a, b);
      OnlyTag(link, t, LaneStep(c, e, e, Lanes(c, e, a, b, 6), TakePayload(t, 1)))
  }

  lemma {:induction false} CrossedStates<B(!new)>(link: Link<B>, t: nat, a: Item, b: Item, n: nat)
    requires link.Valid() && t < |link.senders| && Agrees(link, t) && Sendable(a) && Sendable(b) && n < 7
    requires a.tensor.shape == b.tensor.shape
    ensures Enabled(link, false, Crossed(link, t, a, b, n), Crossing(t, a, b, n))
    ensures Apply(link, Crossed(link, t, a, b, n), Crossing(t, a, b, n)) == Crossed(link, t, a, b, n + 1)
    ensures Crossed(link, t, a, b, 0) == Initial(link)
  {
    var c, e := link.codecs[t], link.senders[t];
    InitialIsOnlyTag(link, t);
    if n < 4 {
      CrossingPost(c, e, t, a, b, n);
    } else if n < 6 {
      CrossingTake(c, e, t, a, b, n);
    } else {
      CrossedOutcome(c, e, t, a, b);
    }
    OnlyTagStep(link, t, Lanes(c, e, a, b, n), Crossing(t, a, b, n));
    hide Lanes, OnlyTag, LaneStep, LaneEnabled, Apply, Enabled, Initial, ItemImage;
    assert n < 6 ==> Crossed(link, t, a, b, n + 1) == OnlyTag(link, t, Lanes(c, e, a, b, n + 1)) by {
      CrossedIs(link, t, a, b, n + 1);
    }
  }

  lemma CrossedIs<B(!new)>(link: Link<B>, t: nat, a: Item, b: Item, n: nat)
    requires link.Valid() && t < |link.senders| && Agrees(link, t) && Sendable(a) && Sendable(b) && n <= 7
    requires a.tensor.shape == b.tensor.shape
    ensures n < 7 ==> Crossed(link, t, a, b, n) == OnlyTag(link, t, Lanes(link.codecs[t], link.senders[t], a, b, n))
  {
  }

  /** On any tag whose endpoints agree, any two tensors of one shape and two outstanding receives: there is a run in
      which the second receive's payload is posted first, and it delivers the first tensor. */
  lemma {:induction false} CrossedReceivesSwap<B(!new)>(link: Link<B>, t: nat, a: Item, b: Item)
    returns (run: seq<State<B>>, actions: seq<Action>)
    requires link.Valid() && t < |link.senders| && Agrees(link, t)
    requires Sendable(a) && Sendable(b) && a.tensor.shape == b.tensor.shape
    ensures |run| == |actions| + 1 && IsRun(link, false, run, actions) && WellShaped(link, run[|actions|])
    ensures View(link, run[|actions|], t).sender.sent == [a, b]
    ensures View(link, run[|actions|], t).receiver.results == map[1 := Delivered(ItemImage(link.codecs[t], a))]
  {
    hide Crossed, Apply, Enabled, View, Initial, Crossing, ItemImage;
    run := seq(8, (n: nat) requires n < 8 => Crossed(link, t, a, b, n));
    actions := seq(7, (n: nat) => Crossing(t, a, b, n));
    forall n | 0 <= n < 7
      ensures Enabled(link, false, run[n], actions[n]) && run[n + 1] == Apply(link, run[n], actions[n])
    {
      CrossedStates(link, t, a, b, n);
    }
    CrossedStates(link, t, a, b, 0);
  }

  lemma {:induction false} InitialIsOnlyTag<B(!new)>(link: Link<B>, t: nat)
    requires link.Valid() && t < |link.senders|
    ensures OnlyTag(link, t, Lane([], [], Sender([], false), Receiver(0, map[], 0, map[]))) == Initial(link)
  {
  }

  lemma {:induction false} CrossedOutcome<B(!new)>(c: Codec<B>, e: Endpoint, t: nat, a: Item, b: Item)
    requires EndsFit(c, e, e) && Sendable(a) && Sendable(b) && a.tensor.shape == b.tensor.shape
    ensures LaneEnabled(false, Lanes(c, e, a, b, 6), TakePayload(t, 1))
    ensures var l := LaneStep(c, e, e, Lanes(c, e, a, b, 6), TakePayload(t, 1));
            l.sender.sent == [a, b] && l.receiver.results == map[1 := Delivered(ItemImage(c, a))]
  {
    RestoreOwnPayload(c, e, b, a);
    hide Encode, PayloadOf, RestoreItem, ItemPacket, ItemImage;
  }
}
