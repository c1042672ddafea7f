/** The ring schedule and the asynchronous all-reduce it describes. */
module Ring {
  import opened Sequences
  import opened Wrappers

  datatype RingStep = RingStep(sendPeer: nat, recvPeer: nat, sendChunk: nat, recvChunk: nat)

  datatype RingSchedule =
    RingSchedule(rank: nat, worldSize: nat, reduceScatter: seq<RingStep>, allGather: seq<RingStep>)

  function CompileRingSchedule(worldSize: int, rank: int): (r: Result<RingSchedule>)
    ensures r.Ok? <==> 0 <= rank < worldSize
    ensures r.Ok? ==> r.value.rank == rank && r.value.worldSize == worldSize && PassesOn(r.value)
  {
    if worldSize <= 0 then Err("world_size must be positive")
    else if rank < 0 || rank >= worldSize then Err("rank must be within world_size")
    else
      SchedulePassesOn(worldSize, rank);
      Ok(Schedule(worldSize, rank))
  }

  /** The rank sends its own chunk first and from then on what it has received in the step before, over both
      halves; every step receives from the predecessor the chunk below the one it sends to the successor. */
  ghost predicate PassesOn(s: RingSchedule) {
    var steps := s.reduceScatter + s.allGather;
    && s.worldSize > 0 && |s.reduceScatter| == |s.allGather| == s.worldSize - 1
    && (steps != [] ==> steps[0].sendChunk == s.rank)
    && (forall k, l :: 0 <= k < |steps| && l == k + 1 < |steps| ==> steps[l].sendChunk == steps[k].recvChunk)
    && (forall k :: 0 <= k < |steps| ==>
          && steps[k].recvChunk == (steps[k].sendChunk - 1) % s.worldSize
          && steps[k].sendPeer == (s.rank + 1) % s.worldSize
          && steps[k].recvPeer == (s.rank - 1) % s.worldSize)
  }

  function Schedule(worldSize: nat, rank: nat): RingSchedule
    requires rank < worldSize
  {
    var successor := (rank + 1) % worldSize;
    var predecessor := (rank - 1) % worldSize;
    RingSchedule(
      rank, worldSize,
      seq(worldSize - 1, step =>
        RingStep(successor, predecessor, (rank - step) % worldSize, (rank - step - 1) % worldSize)),
      seq(worldSize - 1, step =>
        RingStep(successor, predecessor, (rank - step + 1) % worldSize, (rank - step) % worldSize)))
  }

  /** Every rank executes the reduce-scatter steps and then the all-gather steps. */
  function Steps(w: nat): nat
    requires 0 < w
  {
    2 * (w - 1)
  }

  function StepAt(w: nat, r: nat, k: nat): RingStep
    requires r < w && k < Steps(w)
  {
    var schedule := Schedule(w, r);
    if k < w - 1 then schedule.reduceScatter[k] else schedule.allGather[k - (w - 1)]
  }

  function Successor(w: nat, r: nat): nat
    requires r < w
  {
    (r + 1) % w
  }

  function Predecessor(w: nat, r: nat): nat
    requires r < w
  {
    (r - 1) % w
  }

  // ---------------------------------------------------------------------------
  // The distributed machine.  A message carries its chunk index so that a
  // receiver's expectation can be compared with what was sent.

  datatype Message = Message(chunk: nat, value: real)

  /** `sent[r]` and `received[r]` count the finished operations of rank `r`; `channel[r]` is the
      FIFO channel from the predecessor of `r` into `r`. */
  datatype State = State(
    chunks: seq<seq<real>>,
    sent: seq<nat>,
    received: seq<nat>,
    channel: seq<seq<Message>>)

  datatype Action = Send(rank: nat) | Receive(rank: nat)

  ghost predicate Square(x: seq<seq<real>>) {
    |x| > 0 && forall r :: 0 <= r < |x| ==> |x[r]| == |x|
  }

  ghost predicate WellShaped(w: nat, s: State) {
    && |s.chunks| == |s.sent| == |s.received| == |s.channel| == w
    && forall r :: 0 <= r < w ==> |s.chunks[r]| == w
  }

  function Initial(x: seq<seq<real>>): State {
    State(x, seq(|x|, r => 0), seq(|x|, r => 0), seq(|x|, r => []))
  }

  /** Within one step a rank may send and receive in either order; the next step starts when both are done. */
  ghost predicate Enabled(w: nat, s: State, a: Action)
    requires 0 < w && WellShaped(w, s)
  {
    match a
    case Send(r) => r < w && s.sent[r] < Steps(w) && s.sent[r] <= s.received[r]
    case Receive(r) =>
      r < w && s.received[r] < Steps(w) && s.received[r] <= s.sent[r] && |s.channel[r]| > 0
  }

  ghost function Apply(w: nat, s: State, a: Action): State
    requires 0 < w && WellShaped(w, s) && Enabled(w, s, a)
  {
    match a
    case Send(r) =>
      var step := StepAt(w, r, s.sent[r]);
      var message := Message(step.sendChunk, s.chunks[r][step.sendChunk]);
      s.(sent := s.sent[r := s.sent[r] + 1],
         channel := s.channel[step.sendPeer := s.channel[step.sendPeer] + [message]])
    case Receive(r) =>
      var step := StepAt(w, r, s.received[r]);
      var message := s.channel[r][0];
      var before := s.chunks[r][step.recvChunk];
      var after := if s.received[r] < w - 1 then before + message.value else message.value;
      s.(received := s.received[r := s.received[r] + 1],
         chunks := s.chunks[r := s.chunks[r][step.recvChunk := after]],
         channel := s.channel[r := s.channel[r][1..]])
  }

  ghost predicate Next(w: nat, s: State, t: State)
    requires 0 < w
  {
    WellShaped(w, s) && exists a :: Enabled(w, s, a) && t == Apply(w, s, a)
  }

  ghost predicate IsRun(x: seq<seq<real>>, run: seq<State>) {
    && Square(x)
    && |run| > 0
    && run[0] == Initial(x)
    && forall i :: 0 <= i < |run| - 1 ==> Next(|x|, run[i], run[i + 1])
  }

  ghost predicate Finished(w: nat, s: State)
    requires 0 < w && WellShaped(w, s)
  {
    forall r :: 0 <= r < w ==> s.sent[r] == Steps(w) && s.received[r] == Steps(w)
  }

  // ---------------------------------------------------------------------------
  // Closed forms.

  /** How many ranks `r` is past the rank whose index is `c`. */
  function Behind(w: nat, r: nat, c: nat): nat
    requires r < w && c < w
  {
    if r >= c then r - c else r - c + w
  }

  /** The contributions of ranks `c .. c + d` to chunk `c`. */
  function Partial(x: seq<seq<real>>, c: nat, d: nat): real
    requires Square(x) && c < |x|
  {
    RingSum(Column(x, |x|, c), c, d + 1)
  }

  /** What rank `r` holds in chunk `c` after `n` receives. */
  function Expect(x: seq<seq<real>>, r: nat, c: nat, n: nat): real
    requires Square(x) && r < |x| && c < |x|
  {
    var w := |x|;
    var d := Behind(w, r, c);
    if n <= w - 1 then
      if 1 <= d <= n then Partial(x, c, d) else x[r][c]
    else if d == w - 1 || d < n - (w - 1) then Partial(x, c, w - 1)
    else if d >= 1 then Partial(x, c, d) else x[r][c]
  }

  function SentMessage(x: seq<seq<real>>, p: nat, k: nat): Message
    requires Square(x) && p < |x| && k < Steps(|x|)
  {
    var c := StepAt(|x|, p, k).sendChunk;
    Message(c, Expect(x, p, c, k))
  }

  lemma ReduceStepFacts(w: nat, r: nat, k: nat)
    requires r < w && k < w - 1
    ensures var s := StepAt(w, r, k);
            && s.sendPeer == Successor(w, r) && s.recvPeer == Predecessor(w, r)
            && s.sendChunk == (if k <= r then r - k else r - k + w)
            && s.recvChunk == if k + 1 <= r then r - k - 1 else r - k - 1 + w
  {
    WrapOnce(r - k, w);
    WrapOnce(r - k - 1, w);
  }

  lemma GatherStepFacts(w: nat, r: nat, j: nat)
    requires r < w && j < w - 1
    ensures var s := StepAt(w, r, w - 1 + j);
            && s.sendPeer == Successor(w, r) && s.recvPeer == Predecessor(w, r)
            && s.sendChunk == (if r - j + 1 == w then 0 else if j <= r + 1 then r - j + 1 else r - j + 1 + w)
            && s.recvChunk == if j <= r then r - j else r - j + w
  {
    WrapOnce(r - j, w);
    WrapOnce(r - j + 1, w);
  }

  /** What the `k`-th step of rank `r` sends and receives, without `%`. */
  lemma StepFacts(w: nat, r: nat, k: nat)
    requires r < w && k < Steps(w)
    ensures var s := StepAt(w, r, k);
            && s.sendPeer == Successor(w, r) < w && s.recvPeer == Predecessor(w, r) < w
            && s.sendChunk < w && s.recvChunk < w && s.sendChunk != s.recvChunk
            && Behind(w, r, s.sendChunk) == (if k < w - 1 then k else if k == w - 1 then w - 1 else k - w)
            && Behind(w, r, s.recvChunk) == if k < w - 1 then k + 1 else k - (w - 1)
  {
    hide StepAt;
    NeighbourFacts(w, r);
    if k < w - 1 {
      ReduceStepFacts(w, r, k);
    } else {
      GatherStepFacts(w, r, k - (w - 1));
    }
  }

  lemma NeighbourFacts(w: nat, r: nat)
    requires r < w
    ensures Successor(w, r) == if r + 1 == w then 0 else r + 1
    ensures Predecessor(w, r) == if r == 0 then w - 1 else r - 1
  {
    WrapOnce(r + 1, w);
    WrapOnce(r - 1, w);
  }

  lemma StepRelays(w: nat, r: nat, k: nat)
    requires r < w && k < Steps(w)
    ensures StepAt(w, r, k).sendChunk < w
    ensures StepAt(w, r, k).recvChunk == (StepAt(w, r, k).sendChunk - 1) % w
    ensures k == 0 ==> StepAt(w, r, k).sendChunk == r
    ensures k + 1 < Steps(w) ==> StepAt(w, r, k + 1).sendChunk == StepAt(w, r, k).recvChunk
  {
    hide StepAt;
    StepFacts(w, r, k);
    if k < w - 1 {
      ReduceStepFacts(w, r, k);
    } else {
      GatherStepFacts(w, r, k - (w - 1));
    }
    if k + 1 < w - 1 {
      ReduceStepFacts(w, r, k + 1);
    } else if k + 1 < Steps(w) {
      GatherStepFacts(w, r, k + 1 - (w - 1));
    }
    WrapOnce(StepAt(w, r, k).sendChunk - 1, w);
  }

  lemma {:induction false} SchedulePassesOn(w: nat, r: nat)
    requires r < w
    ensures PassesOn(Schedule(w, r))
  {
    var steps := Schedule(w, r).reduceScatter + Schedule(w, r).allGather;
    forall k | 0 <= k < |steps|
      ensures steps[k] == StepAt(w, r, k)
      ensures steps[k].recvChunk == (steps[k].sendChunk - 1) % w && (k == 0 ==> steps[k].sendChunk == r)
      ensures k + 1 < |steps| ==> steps[k + 1].sendChunk == steps[k].recvChunk
      ensures steps[k].sendPeer == (r + 1) % w && steps[k].recvPeer == (r - 1) % w
    {
      StepRelays(w, r, k);
      StepFacts(w, r, k);
    }
  }

  /** The `k`-th message of the predecessor is the chunk rank `r` expects at its step `k`. */
  lemma {:induction false} SchedulesMatch(w: nat, r: nat, k: nat)
    requires r < w && k < Steps(w)
    ensures var p := Predecessor(w, r);
            && p < w && Successor(w, p) == r
            && StepAt(w, r, k).recvPeer == p && StepAt(w, p, k).sendPeer == r
            && StepAt(w, p, k).sendChunk == StepAt(w, r, k).recvChunk
  {
    NeighbourFacts(w, r);
    var p := Predecessor(w, r);
    NeighbourFacts(w, p);
    StepFacts(w, r, k);
    StepFacts(w, p, k);
  }

  lemma {:induction false} PartialGrows(x: seq<seq<real>>, r: nat, c: nat)
    requires Square(x) && r < |x| && c < |x|
    ensures Partial(x, c, 0) == x[c][c]
    ensures Behind(|x|, r, c) > 0 ==>
      Partial(x, c, Behind(|x|, r, c)) == Partial(x, c, Behind(|x|, r, c) - 1) + x[r][c]
  {
    var w := |x|;
    var d := Behind(w, r, c);
    WrapOnce(c + d, w);
    WrapOnce(c, w);
    assert RingSum(Column(x, |x|, c), c, 0) == 0.0;
  }

  /** Receiving the predecessor's message of step `k` takes rank `r` from its `k`-th to its next value. */
  lemma {:induction false} ReceiveValue(x: seq<seq<real>>, r: nat, k: nat)
    requires Square(x) && r < |x| && k < Steps(|x|)
    ensures var w := |x|;
            var p := Predecessor(w, r);
            var c := StepAt(w, r, k).recvChunk;
            && p < w && c < w
            && SentMessage(x, p, k).chunk == c
            && Expect(x, r, c, k + 1)
               == (if k < w - 1 then Expect(x, r, c, k) else 0.0) + SentMessage(x, p, k).value
  {
    var w := |x|;
    SchedulesMatch(w, r, k);
    var p := Predecessor(w, r);
    StepFacts(w, r, k);
    StepFacts(w, p, k);
    var c := StepAt(w, r, k).recvChunk;
    PartialGrows(x, r, c);
    PartialGrows(x, p, c);
  }

  /** A receive leaves the expected value of every other chunk alone. */
  lemma {:induction false} ExpectElsewhere(x: seq<seq<real>>, r: nat, k: nat, c: nat)
    requires Square(x) && r < |x| && k < Steps(|x|) && c < |x|
    requires c != StepAt(|x|, r, k).recvChunk
    ensures Expect(x, r, c, k + 1) == Expect(x, r, c, k)
  {
    StepFacts(|x|, r, k);
  }

  // ---------------------------------------------------------------------------
  // The invariant.

  ghost predicate RankInv(x: seq<seq<real>>, s: State, r: nat)
    requires Square(x) && WellShaped(|x|, s) && r < |x|
  {
    && s.sent[r] <= Steps(|x|) && s.received[r] <= Steps(|x|)
    && s.sent[r] <= s.received[r] + 1 && s.received[r] <= s.sent[r] + 1
    && forall c :: 0 <= c < |x| ==> s.chunks[r][c] == Expect(x, r, c, s.received[r])
  }

  ghost predicate ChannelInv(x: seq<seq<real>>, s: State, r: nat)
    requires Square(x) && WellShaped(|x|, s) && r < |x|
  {
    var p := Predecessor(|x|, r);
    && p < |x|
    && s.received[r] + |s.channel[r]| == s.sent[p]
    && s.sent[p] <= Steps(|x|)
    && forall j :: 0 <= j < |s.channel[r]| ==> s.channel[r][j] == SentMessage(x, p, s.received[r] + j)
  }

  ghost predicate Inv(x: seq<seq<real>>, s: State)
    requires Square(x)
  {
    && WellShaped(|x|, s)
    && (forall r :: 0 <= r < |x| ==> RankInv(x, s, r))
    && (forall r :: 0 <= r < |x| ==> ChannelInv(x, s, r))
  }

  lemma {:induction false} InitialInv(x: seq<seq<real>>)
    requires Square(x)
    ensures Inv(x, Initial(x))
  {
    forall r | 0 <= r < |x|
      ensures RankInv(x, Initial(x), r) && ChannelInv(x, Initial(x), r)
    {
      NeighbourFacts(|x|, r);
    }
  }

  lemma {:induction false} SendExtendsChannel(x: seq<seq<real>>, s: State, p: nat)
    requires Square(x) && Inv(x, s) && Enabled(|x|, s, Send(p))
    ensures var r := Successor(|x|, p);
            && r < |x| && Predecessor(|x|, r) == p && p < |x|
            && s.sent[p] < Steps(|x|) && s.sent[p] <= s.received[p]
            && Apply(|x|, s, Send(p)) == s.(sent := s.sent[p := s.sent[p] + 1],
                                            channel := s.channel[r := s.channel[r] + [SentMessage(x, p, s.sent[p])]])
  {
    var k := s.sent[p];
    StepFacts(|x|, p, k);
    NeighbourFacts(|x|, p);
    NeighbourFacts(|x|, Successor(|x|, p));
    assert RankInv(x, s, p);
    if s.received[p] == k + 1 {
      ExpectElsewhere(x, p, k, StepAt(|x|, p, k).sendChunk);
    }
  }

  lemma {:induction false} SendKeepsChannel(x: seq<seq<real>>, s: State, p: nat, r: nat)
    requires Square(x) && Inv(x, s) && Enabled(|x|, s, Send(p)) && r < |x|
    ensures WellShaped(|x|, Apply(|x|, s, Send(p))) && ChannelInv(x, Apply(|x|, s, Send(p)), r)
  {
    hide SentMessage, Apply, Enabled, RankInv;
    SendExtendsChannel(x, s, p);
    assert ChannelInv(x, s, r);
    NeighbourFacts(|x|, r);
    NeighbourFacts(|x|, p);
    hide Predecessor, Successor;
  }

  lemma {:induction false} SendKeepsInv(x: seq<seq<real>>, s: State, p: nat)
    requires Square(x) && Inv(x, s) && Enabled(|x|, s, Send(p))
    ensures Inv(x, Apply(|x|, s, Send(p)))
  {
    hide ChannelInv, Apply, Enabled, Expect, SentMessage;
    SendExtendsChannel(x, s, p);
    forall r | 0 <= r < |x|
      ensures RankInv(x, Apply(|x|, s, Send(p)), r) && ChannelInv(x, Apply(|x|, s, Send(p)), r)
    {
      assert RankInv(x, s, r);
      SendKeepsChannel(x, s, p, r);
    }
  }

  /** A receive takes the head of its channel and leaves its rank with the next expected chunks. */
  lemma {:induction false} ReceiveTakesHead(x: seq<seq<real>>, s: State, r: nat)
    requires Square(x) && Inv(x, s) && Enabled(|x|, s, Receive(r))
    ensures var t, k := Apply(|x|, s, Receive(r)), s.received[r];
            && k < Steps(|x|) && k <= s.sent[r] && |s.channel[r]| > 0
            && WellShaped(|x|, t)
            && t == State(s.chunks[r := t.chunks[r]], s.sent, s.received[r := k + 1], s.channel[r := s.channel[r][1..]])
            && forall c :: 0 <= c < |x| ==> t.chunks[r][c] == Expect(x, r, c, k + 1)
  {
    var w, k := |x|, s.received[r];
    StepFacts(w, r, k);
    assert RankInv(x, s, r) && ChannelInv(x, s, r);
    ReceiveValue(x, r, k);
    hide Expect, SentMessage, RankInv, Inv;
    forall c | 0 <= c < w
      ensures Apply(w, s, Receive(r)).chunks[r][c] == Expect(x, r, c, k + 1)
    {
      if c != StepAt(w, r, k).recvChunk {
        ExpectElsewhere(x, r, k, c);
      }
    }
  }

  lemma {:induction false} ReceiveKeepsInv(x: seq<seq<real>>, s: State, r: nat)
    requires Square(x) && Inv(x, s) && Enabled(|x|, s, Receive(r))
    ensures Inv(x, Apply(|x|, s, Receive(r)))
  {
    hide Apply, Enabled, Expect, SentMessage;
    ReceiveTakesHead(x, s, r);
    forall q | 0 <= q < |x|
      ensures RankInv(x, Apply(|x|, s, Receive(r)), q) && ChannelInv(x, Apply(|x|, s, Receive(r)), q)
    {
      assert RankInv(x, s, q) && ChannelInv(x, s, q);
    }
  }

  lemma {:induction false} NextKeepsInv(x: seq<seq<real>>, s: State, t: State)
    requires Square(x) && Inv(x, s) && Next(|x|, s, t)
    ensures Inv(x, t)
  {
    var a :| Enabled(|x|, s, a) && t == Apply(|x|, s, a);
    match a
    case Send(r) => SendKeepsInv(x, s, r);
    case Receive(r) => ReceiveKeepsInv(x, s, r);
  }

  lemma {:induction false} RunKeepsInv(x: seq<seq<real>>, run: seq<State>, i: nat)
    requires IsRun(x, run) && i < |run|
    ensures Inv(x, run[i])
  {
    if i == 0 {
      InitialInv(x);
    } else {
      RunKeepsInv(x, run, i - 1);
      assert Next(|x|, run[i - 1], run[i - 1 + 1]);
      NextKeepsInv(x, run[i - 1], run[i]);
    }
  }

  // ---------------------------------------------------------------------------
  // Main results.

  /** In every reachable state, the message at the head of a channel is the chunk its receiver expects next. */
  lemma {:induction false} HeadIsExpected(x: seq<seq<real>>, run: seq<State>, i: nat, r: nat)
    requires IsRun(x, run) && i < |run| && r < |x|
    ensures WellShaped(|x|, run[i])
    ensures |run[i].channel[r]| > 0 ==>
      && run[i].received[r] < Steps(|x|)
      && run[i].channel[r][0].chunk == StepAt(|x|, r, run[i].received[r]).recvChunk
  {
    RunKeepsInv(x, run, i);
    var s := run[i];
    assert ChannelInv(x, s, r);
    if |s.channel[r]| > 0 {
      SchedulesMatch(|x|, r, s.received[r]);
    }
  }

  lemma {:induction false} FindLeastReceived(s: State, w: nat, n: nat) returns (r: nat)
    requires |s.received| == w && 0 < n <= w
    ensures r < n && forall q :: 0 <= q < n ==> s.received[r] <= s.received[q]
  {
    r := 0;
    for i := 1 to n
      invariant r < i && forall q :: 0 <= q < i ==> s.received[r] <= s.received[q]
    {
      if s.received[i] < s.received[r] {
        r := i;
      }
    }
  }

  /** No reachable unfinished state is stuck. */
  lemma {:induction false} NeverStuck(x: seq<seq<real>>, run: seq<State>, i: nat)
    requires IsRun(x, run) && i < |run|
    ensures WellShaped(|x|, run[i])
    ensures Finished(|x|, run[i]) || exists a :: Enabled(|x|, run[i], a)
  {
    RunKeepsInv(x, run, i);
    var w, s := |x|, run[i];
    var r := FindLeastReceived(s, w, w);
    assert RankInv(x, s, r) && ChannelInv(x, s, r);
    if s.received[r] == Steps(w) {
      if !Finished(w, s) {
        var q :| 0 <= q < w && !(s.sent[q] == Steps(w) && s.received[q] == Steps(w));
        assert RankInv(x, s, q);
        assert Enabled(w, s, Send(q));
      }
    } else if s.sent[r] <= s.received[r] {
      assert Enabled(w, s, Send(r));
    } else if |s.channel[r]| > 0 {
      assert Enabled(w, s, Receive(r));
    } else {
      var p := Predecessor(w, r);
      assert Enabled(w, s, Send(p));
    }
  }

  lemma {:induction false} ActionWork(w: nat, s: State, a: Action)
    requires 0 < w && WellShaped(w, s) && Enabled(w, s, a)
    ensures var t := Apply(w, s, a);
            Total(t.sent) + Total(t.received) == Total(s.sent) + Total(s.received) + 1
  {
    match a
    case Send(r) => TotalStep(s.sent, r, s.sent[r] + 1);
    case Receive(r) => TotalStep(s.received, r, s.received[r] + 1);
  }

  lemma {:induction false} RunWork(x: seq<seq<real>>, run: seq<State>, i: nat)
    requires IsRun(x, run) && i < |run|
    ensures WellShaped(|x|, run[i])
    ensures Total(run[i].sent) + Total(run[i].received) == i
  {
    RunKeepsInv(x, run, i);
    if i == 0 {
      TotalBound(run[0].sent, 0);
      TotalBound(run[0].received, 0);
    } else {
      RunWork(x, run, i - 1);
      assert Next(|x|, run[i - 1], run[i - 1 + 1]);
      var a :| Enabled(|x|, run[i - 1], a) && run[i] == Apply(|x|, run[i - 1], a);
      ActionWork(|x|, run[i - 1], a);
    }
  }

  /** No run takes more than one send and one receive per rank and schedule step, and exactly the finished
      runs take that many: every maximal run has the same length. */
  lemma {:induction false} RunLength(x: seq<seq<real>>, run: seq<State>)
    requires IsRun(x, run)
    ensures WellShaped(|x|, run[|run| - 1])
    ensures |run| - 1 <= 2 * (|x| * Steps(|x|))
    ensures Finished(|x|, run[|run| - 1]) <==> |run| - 1 == 2 * (|x| * Steps(|x|))
  {
    var i := |run| - 1;
    RunWork(x, run, i);
    RunKeepsInv(x, run, i);
    forall r | 0 <= r < |x|
      ensures run[i].sent[r] <= Steps(|x|) && run[i].received[r] <= Steps(|x|)
    {
      assert RankInv(x, run[i], r);
    }
    hide IsRun, Inv;
    TotalBound(run[i].sent, Steps(|x|));
    TotalBound(run[i].received, Steps(|x|));
  }

  /** Whatever the interleaving, a finished run leaves the sum over all ranks in every chunk of every
      rank, and nothing in flight. */
  lemma {:induction false} AllReduceCorrect(x: seq<seq<real>>, run: seq<State>, r: nat, c: nat)
    requires IsRun(x, run) && r < |x| && c < |x|
    requires WellShaped(|x|, run[|run| - 1]) && Finished(|x|, run[|run| - 1])
    ensures run[|run| - 1].chunks[r][c] == Sum(Column(x, |x|, c))
    ensures run[|run| - 1].channel[r] == []
  {
    var w, s := |x|, run[|run| - 1];
    RunKeepsInv(x, run, |run| - 1);
    assert RankInv(x, s, r) && ChannelInv(x, s, r);
    assert s.chunks[r][c] == Expect(x, r, c, Steps(w));
    RingSumTotal(Column(x, |x|, c), c);
    PartialGrows(x, r, c);
  }

  /** After the reduce-scatter half alone, rank `r` owns the reduced chunk `(r + 1) % worldSize`. */
  lemma {:induction false} ReduceScatterOwner(x: seq<seq<real>>, run: seq<State>, i: nat, r: nat)
    requires IsRun(x, run) && i < |run| && r < |x|
    requires WellShaped(|x|, run[i]) && run[i].received[r] == |x| - 1
    ensures run[i].chunks[r][(r + 1) % |x|] == Sum(Column(x, |x|, (r + 1) % |x|))
  {
    var w := |x|;
    RunKeepsInv(x, run, i);
    assert RankInv(x, run[i], r);
    NeighbourFacts(w, r);
    var c := (r + 1) % w;
    RingSumTotal(Column(x, |x|, c), c);
    PartialGrows(x, r, c);
  }
}
