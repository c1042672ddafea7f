/** Quantized weight differences: the writebacks, the gap they leave over whole runs, and the refresh policy. */
module Qwd {
  import opened Sequences
  import opened Wrappers
  import opened Codecs
  import opened LinearCodecs
  import Shards

  // ---------------------------------------------------------------------------
  // The three tensor operations. `cast` rounds to the element type of the model copy.

  /** `master - model` on the valid prefix, zero behind it. */
  function Delta(master: seq<real>, model: seq<real>, valid: nat): (d: seq<real>)
    requires |master| == |model|
    ensures |d| == |master|
  {
    seq(|master|, i requires 0 <= i < |master| => if i < valid then master[i] - model[i] else 0.0)
  }

  /** The model with `restored` added to its valid prefix. */
  function Applied(model: seq<real>, restored: seq<real>, valid: nat, cast: real -> real): (m: seq<real>)
    requires |model| == |restored|
    ensures |m| == |model|
  {
    seq(|model|, i requires 0 <= i < |model| => if i < valid then cast(model[i] + restored[i]) else model[i])
  }

  /** The model with its valid prefix overwritten from the master. */
  function Refreshed(model: seq<real>, master: seq<real>, valid: nat, cast: real -> real): (m: seq<real>)
    requires |model| == |master|
    ensures |m| == |model|
  {
    seq(|model|, i requires 0 <= i < |model| => if i < valid then cast(master[i]) else model[i])
  }

  method PrepareParameterDelta(master: array<real>, model: array<real>, validNumel: int, isFloat32: bool)
    returns (r: Result<array<real>>)
    ensures r.Ok? <==> master.Length == model.Length && 0 <= validNumel <= master.Length && isFloat32
    ensures r.Ok? ==> fresh(r.value) && r.value[..] == Delta(master[..], model[..], validNumel)
  {
    if master.Length != model.Length {
      return Err("master and model shard sizes must match");
    }
    if validNumel < 0 || validNumel > master.Length {
      return Err("valid_numel must be within the shard");
    }
    if !isFloat32 {
      return Err("master shard must use float32");
    }
    var delta := new real[master.Length];
    for i := 0 to delta.Length
      invariant forall j :: 0 <= j < i ==> delta[j] == master[j] - model[j]
    {
      delta[i] := master[i] - model[i];
    }
    for i := validNumel to delta.Length
      invariant forall j :: 0 <= j < validNumel ==> delta[j] == master[j] - model[j]
      invariant forall j :: validNumel <= j < i ==> delta[j] == 0.0
    {
      delta[i] := 0.0;
    }
    assert delta[..] == Delta(master[..], model[..], validNumel);
    return Ok(delta);
  }

  /** The checks of both writebacks. */
  function Writeback(model: nat, source: nat, validNumel: int): Result<nat> {
    if model != source then Err("writeback shard sizes must match")
    else if validNumel < 0 || validNumel > model then Err("valid_numel must be within the shard")
    else Ok(validNumel)
  }

  /** Adds in place; a refused call writes nothing. The two arrays may be the same. */
  method ApplyQuantizedWeightDifference(
    model: array<real>, restored: array<real>, validNumel: int, cast: real -> real)
    returns (r: Result<array<real>>)
    modifies model
    ensures r.Ok? <==> model.Length == restored.Length && 0 <= validNumel <= model.Length
    ensures r.Ok? ==> r.value == model
                      && model[..] == Applied(old(model[..]), old(restored[..]), validNumel, cast)
    ensures r.Err? ==> model[..] == old(model[..])
  {
    var check := Writeback(model.Length, restored.Length, validNumel);
    if check.Err? {
      return Err(check.message);
    }
    for i := 0 to validNumel
      invariant forall j :: 0 <= j < i ==> model[j] == cast(old(model[j]) + old(restored[j]))
      invariant forall j :: i <= j < model.Length ==> model[j] == old(model[j]) && restored[j] == old(restored[j])
    {
      model[i] := cast(model[i] + restored[i]);
    }
    assert model[..] == Applied(old(model[..]), old(restored[..]), validNumel, cast);
    return Ok(model);
  }

  /** Overwrites in place; a refused call writes nothing. */
  method FullPrecisionRefresh(model: array<real>, master: array<real>, validNumel: int, cast: real -> real)
    returns (r: Result<array<real>>)
    modifies model
    ensures r.Ok? <==> model.Length == master.Length && 0 <= validNumel <= model.Length
    ensures r.Ok? ==> r.value == model
                      && model[..] == Refreshed(old(model[..]), old(master[..]), validNumel, cast)
    ensures r.Err? ==> model[..] == old(model[..])
  {
    var check := Writeback(model.Length, master.Length, validNumel);
    if check.Err? {
      return Err(check.message);
    }
    for i := 0 to validNumel
      invariant forall j :: 0 <= j < i ==> model[j] == cast(old(master[j]))
      invariant forall j :: i <= j < model.Length ==> model[j] == old(model[j]) && master[j] == old(master[j])
    {
      model[i] := cast(master[i]);
    }
    assert model[..] == Refreshed(old(model[..]), old(master[..]), validNumel, cast);
    return Ok(model);
  }

  // ---------------------------------------------------------------------------
  // Whole runs of one shard.

  datatype State = State(master: seq<real>, model: seq<real>, delta: seq<real>)

  /** The optimizer moves the master; a delta is prepared; a restored delta is added; the model is refreshed. */
  datatype Event = Train(master: seq<real>) | Prepare | Apply(restored: seq<real>) | Refresh

  datatype Shard = Shard(numel: nat, valid: nat, cast: real -> real)
  {
    ghost predicate Holds(s: State) {
      valid <= numel && |s.master| == |s.model| == |s.delta| == numel
    }

    ghost predicate Admits(events: seq<Event>) {
      forall i :: 0 <= i < |events| ==>
        && (events[i].Train? ==> |events[i].master| == numel)
        && (events[i].Apply? ==> |events[i].restored| == numel)
    }

    function Next(s: State, e: Event): (t: State)
      requires Holds(s) && Admits([e])
      ensures Holds(t)
    {
      assert [e][0] == e;
      match e
      case Train(master) => s.(master := master)
      case Prepare => s.(delta := Delta(s.master, s.model, valid))
      case Apply(restored) => s.(model := Applied(s.model, restored, valid, cast))
      case Refresh => s.(model := Refreshed(s.model, s.master, valid, cast))
    }

    function Run(s: State, events: seq<Event>): (t: State)
      requires Holds(s) && Admits(events)
      ensures Holds(t)
    {
      if events == [] then s else Next(Run(s, events[..|events| - 1]), events[|events| - 1])
    }
  }

  predicate OnlyTrains(events: seq<Event>) {
    forall i :: 0 <= i < |events| ==> events[i].Train?
  }

  predicate NeverRefreshes(events: seq<Event>) {
    forall i :: 0 <= i < |events| ==> !events[i].Refresh?
  }

  /** What the cast adds to a written value. */
  function Rounding(cast: real -> real, x: real): real {
    cast(x) - x
  }

  lemma {:induction false} RunConcat(p: Shard, s: State, a: seq<Event>, b: seq<Event>)
    requires p.Holds(s) && p.Admits(a) && p.Admits(b)
    ensures p.Admits(a + b) && p.Run(s, a + b) == p.Run(p.Run(s, a), b)
    decreases |b|
  {
    if b == [] {
      assert a + b == a;
    } else {
      var front := b[..|b| - 1];
      assert (a + b)[..|a + b| - 1] == a + front;
      RunConcat(p, s, a, front);
    }
  }

  lemma {:induction false} RunOne(p: Shard, s: State, e: Event)
    requires p.Holds(s) && p.Admits([e])
    ensures p.Run(s, [e]) == p.Next(s, e)
  {
    assert [e][..0] == [];
    assert p.Run(s, []) == s;
  }

  lemma {:induction false} TrainingKeepsModel(p: Shard, s: State, events: seq<Event>)
    requires p.Holds(s) && p.Admits(events) && OnlyTrains(events)
    ensures p.Run(s, events).model == s.model && p.Run(s, events).delta == s.delta
    decreases |events|
  {
    if events != [] {
      TrainingKeepsModel(p, s, events[..|events| - 1]);
    }
  }

  /** In any run the padding lanes of the model keep their values. */
  lemma {:induction false} PaddingNeverChanges(p: Shard, s: State, events: seq<Event>, i: nat)
    requires p.Holds(s) && p.Admits(events) && p.valid <= i < p.numel
    ensures p.Run(s, events).model[i] == s.model[i]
    decreases |events|
  {
    if events != [] {
      PaddingNeverChanges(p, s, events[..|events| - 1], i);
    }
  }

  /** A delta is prepared, `between` happens, the restored delta is added, and only training follows.
      The gap is then the codec error of that delta, less the rounding of that one write, plus what the master
      moved since the delta was prepared, less what the model moved before it was applied. Nothing of
      any earlier write is left in it. */
  lemma {:induction false} GapIsLastError(
    p: Shard, s: State, between: seq<Event>, restored: seq<real>, after: seq<Event>, i: nat)
    requires p.Holds(s) && i < p.valid && |restored| == p.numel
    requires p.Admits(between) && p.Admits(after) && OnlyTrains(after)
    ensures p.Admits([Prepare] + between + [Apply(restored)] + after)
    ensures var prepared := p.Next(s, Prepare);
            var before := p.Run(prepared, between);
            var end := p.Run(s, [Prepare] + between + [Apply(restored)] + after);
            end.master[i] - end.model[i] ==
              (prepared.delta[i] - restored[i])
              - Rounding(p.cast, before.model[i] + restored[i])
              + (end.master[i] - s.master[i])
              - (before.model[i] - s.model[i])
    ensures OnlyTrains(between) ==> p.Run(p.Next(s, Prepare), between).model[i] == s.model[i]
  {
    var prepared := p.Next(s, Prepare);
    var before := p.Run(prepared, between);
    RunOne(p, s, Prepare);
    RunConcat(p, s, [Prepare], between);
    RunOne(p, before, Apply(restored));
    RunConcat(p, s, [Prepare] + between, [Apply(restored)]);
    RunConcat(p, s, [Prepare] + between + [Apply(restored)], after);
    TrainingKeepsModel(p, p.Next(before, Apply(restored)), after);
    if OnlyTrains(between) {
      TrainingKeepsModel(p, prepared, between);
    }
  }

  /** After a refresh the gap is the rounding of that write and what the master moved since. */
  lemma {:induction false} RefreshClearsGap(p: Shard, s: State, after: seq<Event>, i: nat)
    requires p.Holds(s) && i < p.valid && p.Admits(after) && OnlyTrains(after)
    ensures p.Admits([Refresh] + after)
    ensures var end := p.Run(s, [Refresh] + after);
            end.master[i] - end.model[i] == (end.master[i] - s.master[i]) - Rounding(p.cast, s.master[i])
  {
    RunOne(p, s, Refresh);
    RunConcat(p, s, [Refresh], after);
    TrainingKeepsModel(p, p.Next(s, Refresh), after);
  }

  /** The restored deltas of lane `i` in a run, added up. */
  function SentTo(events: seq<Event>, i: nat): real
    requires forall k :: 0 <= k < |events| && events[k].Apply? ==> i < |events[k].restored|
  {
    if events == [] then 0.0
    else
      var last := events[|events| - 1];
      SentTo(events[..|events| - 1], i) + if last.Apply? then last.restored[i] else 0.0
  }

  /** The roundings of the additive writes to lane `i` in a run, added up. */
  function RoundedAt(p: Shard, s: State, events: seq<Event>, i: nat): real
    requires p.Holds(s) && p.Admits(events) && i < p.numel
  {
    if events == [] then 0.0
    else
      var front, last := events[..|events| - 1], events[|events| - 1];
      RoundedAt(p, s, front, i)
      + if last.Apply? then Rounding(p.cast, p.Run(s, front).model[i] + last.restored[i]) else 0.0
  }

  /** Between refreshes the restored deltas telescope: with the roundings of their writes they add up to
      what the model moved. */
  lemma {:induction false} SentDeltasTelescope(p: Shard, s: State, events: seq<Event>, i: nat)
    requires p.Holds(s) && p.Admits(events) && NeverRefreshes(events) && i < p.valid
    ensures p.Run(s, events).model[i] - s.model[i] == SentTo(events, i) + RoundedAt(p, s, events, i)
    decreases |events|
  {
    if events != [] {
      SentDeltasTelescope(p, s, events[..|events| - 1], i);
    }
  }

  /** One prepared delta applied twice is sent twice: the master-model gap turns into its opposite. */
  lemma {:induction false} SecondApplyOvershoots()
    ensures var p := Shard(1, 1, x => x);
            var s := State([1.0], [0.0], [0.0]);
            && p.Holds(s) && p.Admits([Prepare, Apply([1.0]), Apply([1.0])])
            && p.Next(s, Prepare).delta == [1.0]
            && p.Run(s, [Prepare, Apply([1.0])]).model == [1.0]
            && p.Run(s, [Prepare, Apply([1.0]), Apply([1.0])]).model == [2.0]
  {
    var p := Shard(1, 1, (x: real) => x);
    var s := State([1.0], [0.0], [0.0]);
    var a := p.Next(s, Prepare);
    RunOne(p, s, Prepare);
    RunOne(p, a, Apply([1.0]));
    RunConcat(p, s, [Prepare], [Apply([1.0])]);
    var b := p.Next(a, Apply([1.0]));
    RunOne(p, b, Apply([1.0]));
    RunConcat(p, s, [Prepare, Apply([1.0])], [Apply([1.0])]);
    assert [Prepare] + [Apply([1.0])] == [Prepare, Apply([1.0])];
    assert [Prepare, Apply([1.0])] + [Apply([1.0])] == [Prepare, Apply([1.0]), Apply([1.0])];
  }

  // ---------------------------------------------------------------------------
  // Training with the INT8 linear codec: the gap does not accumulate.

  /** One training step: where the optimizer puts the master, and how the model follows. */
  datatype Round = Round(master: seq<real>, refresh: bool)

  /** A shard of `groups` whole groups of `width` values. */
  datatype Wire = Wire(shard: Shard, width: nat, groups: nat)
  {
    ghost predicate Valid() {
      width > 0 && shard.numel == groups * width && shard.valid <= shard.numel
    }

    /** The events of one round. */
    function Events(s: State, round: Round): (events: seq<Event>)
      requires Valid() && shard.Holds(s) && |round.master| == shard.numel
      ensures shard.Admits(events)
    {
      if round.refresh then [Train(round.master), Refresh]
      else
        var delta := Delta(round.master, s.model, shard.valid);
        ImageLength(Linear(width, FP32), delta, groups);
        [Train(round.master), Prepare, Apply(Image(Linear(width, FP32), delta, groups))]
    }

    function Rounds(s: State, rounds: seq<Round>): (t: State)
      requires Valid() && shard.Holds(s) && Fits(rounds)
      ensures shard.Holds(t)
    {
      if rounds == [] then s
      else
        var t := Rounds(s, rounds[..|rounds| - 1]);
        shard.Run(t, Events(t, rounds[|rounds| - 1]))
    }

    ghost predicate Fits(rounds: seq<Round>) {
      forall k :: 0 <= k < |rounds| ==> |rounds[k].master| == shard.numel
    }

    /** The master before round `k`. */
    function Before(s: State, rounds: seq<Round>, k: nat): (master: seq<real>)
      requires shard.Holds(s) && Fits(rounds) && k <= |rounds|
      ensures |master| == shard.numel
    {
      if k == 0 then s.master else rounds[k - 1].master
    }

    /** Every round moves a lane of the master by at most the drift, to a value of at most the size. */
    ghost predicate MovesWithin(s: State, rounds: seq<Round>, b: Bounds)
      requires Valid() && shard.Holds(s) && Fits(rounds)
    {
      forall k :: 0 <= k < |rounds| ==>
        && Close(shard.valid, rounds[k].master, Before(s, rounds, k), b.drift)
        && Small(shard.valid, rounds[k].master, b.size)
    }
  }

  ghost predicate Close(valid: nat, a: seq<real>, b: seq<real>, bound: real)
    requires valid <= |a| == |b|
  {
    forall i :: 0 <= i < valid ==> Abs(a[i] - b[i]) <= bound
  }

  ghost predicate GapWithin(p: Shard, s: State, bound: real)
    requires p.Holds(s)
  {
    Close(p.valid, s.master, s.model, bound)
  }

  ghost predicate Small(valid: nat, v: seq<real>, size: real)
    requires valid <= |v|
  {
    forall i :: 0 <= i < valid ==> Abs(v[i]) <= size
  }

  /** Lanes of the master are at most `size` and move by at most `drift` a round; a write rounds by at most `u`. */
  datatype Bounds = Bounds(size: real, drift: real, u: real)
  {
    ghost predicate Valid() {
      size >= 0.0 && drift >= 0.0 && u >= 0.0
    }

    /** What the gap settles at. */
    function Gap(): real {
      ((if drift > MIN_SCALE then drift else MIN_SCALE) + 254.0 * u) / 253.0
    }

    /** The largest magnitude a prepared delta can have, or the least scale. */
    function Delta(): real {
      if drift + Gap() > MIN_SCALE then drift + Gap() else MIN_SCALE
    }

    /** The largest value written to the model before it is rounded. */
    function Written(): real {
      size + Delta() / 254.0
    }
  }

  /** The cast moves no value that is ever written by more than `u`. */
  ghost predicate CastsWithin(p: Shard, b: Bounds) {
    forall x: real :: Abs(x) <= b.Written() ==> Abs(Rounding(p.cast, x)) <= b.u
  }

  /** The states after each part of a round. */
  lemma {:induction false} RoundResult(w: Wire, s: State, round: Round)
    requires w.Valid() && w.shard.Holds(s) && |round.master| == w.shard.numel
    ensures var t := w.shard.Run(s, w.Events(s, round));
            var delta := Delta(round.master, s.model, w.shard.valid);
            && t.master == round.master
            && (round.refresh ==> t.model == Refreshed(s.model, round.master, w.shard.valid, w.shard.cast))
            && (!round.refresh ==>
                  && |Image(Linear(w.width, FP32), delta, w.groups)| == w.shard.numel
                  && t.model == Applied(s.model, Image(Linear(w.width, FP32), delta, w.groups),
                                        w.shard.valid, w.shard.cast))
  {
    hide Image, Linear;
    var p := w.shard;
    var a := p.Next(s, Train(round.master));
    RunOne(p, s, Train(round.master));
    if round.refresh {
      RunOne(p, a, Refresh);
      RunConcat(p, s, [Train(round.master)], [Refresh]);
      assert [Train(round.master)] + [Refresh] == w.Events(s, round);
    } else {
      var delta := Delta(round.master, s.model, p.valid);
      var restored := w.Events(s, round)[2].restored;
      var b := p.Next(a, Prepare);
      RunOne(p, a, Prepare);
      RunConcat(p, s, [Train(round.master)], [Prepare]);
      RunOne(p, b, Apply(restored));
      RunConcat(p, s, [Train(round.master)] + [Prepare], [Apply(restored)]);
      assert [Train(round.master)] + [Prepare] + [Apply(restored)] == w.Events(s, round);
    }
  }

  lemma {:induction false} GroupMember(v: seq<real>, g: nat, n: nat, i: nat, f: nat)
    requires |v| == n * g && i < n && f < g
    ensures 0 <= i * g + f < |v| && Block(v, g, n, i)[f] == v[i * g + f]
  {
    MulStep(i, n, g);
  }

  /** The codec restores lane `i` to within the largest magnitude in the delta (or the least scale) over 254. */
  lemma {:induction false} RestoredWithin(delta: seq<real>, g: nat, n: nat, i: nat, bound: real)
    requires g > 0 && |delta| == n * g && i < |delta| && bound >= MIN_SCALE
    requires forall k :: 0 <= k < |delta| ==> Abs(delta[k]) <= bound
    ensures |Image(Linear(g, FP32), delta, n)| == |delta|
    ensures Abs(Image(Linear(g, FP32), delta, n)[i] - delta[i]) <= bound / 254.0
  {
    Shards.DivisionBounds(i, g);
    Shards.BlockIndexBound(i / g, g, i, n);
    var group := Block(delta, g, n, i / g);
    forall f | 0 <= f < g
      ensures Abs(group[f]) <= bound
    {
      GroupMember(delta, g, n, i / g, f);
    }
    MaxAbsLeast(group, bound);
    BufferError(g, FP32, delta, n, i / g, i - (i / g) * g);
  }

  lemma GapIsFixed(b: Bounds)
    requires b.Valid()
    ensures b.Gap() >= b.u && b.Delta() >= MIN_SCALE && b.Delta() / 254.0 + b.u <= b.Gap()
    ensures b.Written() >= b.size
  {
  }

  lemma {:induction false} PreparedWithin(p: Shard, s: State, master: seq<real>, b: Bounds, k: nat)
    requires p.Holds(s) && |master| == p.numel && k < p.numel
    requires GapWithin(p, s, b.Gap()) && Close(p.valid, master, s.master, b.drift)
    ensures Abs(Delta(master, s.model, p.valid)[k]) <= b.Delta()
  {
    hide Bounds.Gap;
    if k < p.valid {
      assert Abs(master[k] - s.master[k]) <= b.drift;
      assert Abs(s.master[k] - s.model[k]) <= b.Gap();
    }
  }

  lemma AddErrors(codec: real, rounding: real, a: real, u: real)
    requires Abs(codec) <= a && Abs(rounding) <= u
    ensures Abs(codec - rounding) <= a + u
  {
  }

  lemma RefreshWithin(p: Shard, master: real, b: Bounds)
    requires b.Valid() && CastsWithin(p, b) && Abs(master) <= b.size
    ensures Abs(master - p.cast(master)) <= b.u
  {
    GapIsFixed(b);
    hide Bounds.Written;
    assert Abs(Rounding(p.cast, master)) <= b.u;
  }

  /** A refresh brings any gap within the steady bound. */
  lemma {:induction false} RefreshStartsWithin(p: Shard, s: State, b: Bounds)
    requires p.Holds(s) && b.Valid() && CastsWithin(p, b) && Small(p.valid, s.master, b.size)
    ensures p.Admits([Refresh]) && GapWithin(p, p.Next(s, Refresh), b.Gap())
  {
    GapIsFixed(b);
    forall i | 0 <= i < p.valid
      ensures Abs(s.master[i] - p.Next(s, Refresh).model[i]) <= b.u
    {
      RefreshWithin(p, s.master[i], b);
    }
  }

  /** One round keeps the gap within the steady bound. */
  lemma {:induction false} RoundKeepsGap(w: Wire, s: State, round: Round, b: Bounds)
    requires w.Valid() && w.shard.Holds(s) && |round.master| == w.shard.numel
    requires b.Valid() && CastsWithin(w.shard, b) && GapWithin(w.shard, s, b.Gap())
    requires Close(w.shard.valid, round.master, s.master, b.drift) && Small(w.shard.valid, round.master, b.size)
    ensures GapWithin(w.shard, w.shard.Run(s, w.Events(s, round)), b.Gap())
  {
    hide Image, Bounds.Gap, Bounds.Delta, Bounds.Written, Abs;
    RoundResult(w, s, round);
    GapIsFixed(b);
    var p := w.shard;
    var t := p.Run(s, w.Events(s, round));
    var delta := Delta(round.master, s.model, p.valid);
    forall k | 0 <= k < |delta|
      ensures Abs(delta[k]) <= b.Delta()
    {
      PreparedWithin(p, s, round.master, b, k);
    }
    forall i | 0 <= i < p.valid
      ensures Abs(t.master[i] - t.model[i]) <= b.Gap()
    {
      if round.refresh {
        RefreshWithin(p, round.master[i], b);
        AtMost(round.master[i] - t.model[i], b.u, b.Gap());
      } else {
        RestoredWithin(delta, w.width, w.groups, i, b.Delta());
        var restored := Image(Linear(w.width, FP32), delta, w.groups);
        AppliedWithin(p, round.master[i], s.model[i], restored[i], b);
        AtMost(round.master[i] - t.model[i], b.Delta() / 254.0 + b.u, b.Gap());
      }
    }
  }

  lemma AtMost(x: real, a: real, b: real)
    requires Abs(x) <= a <= b
    ensures Abs(x) <= b
  {
  }

  /** The value that an additive write rounds is the master's but for the codec error, so the cast's bound covers it. */
  lemma AppliedWithin(p: Shard, master: real, model: real, restored: real, b: Bounds)
    requires b.Valid() && CastsWithin(p, b) && Abs(master) <= b.size
    requires Abs(restored - (master - model)) <= b.Delta() / 254.0
    ensures Abs(model + restored) <= b.Written()
    ensures Abs(master - p.cast(model + restored)) <= b.Delta() / 254.0 + b.u
  {
    hide Bounds.Delta;
    assert Abs(Rounding(p.cast, model + restored)) <= b.u;
    AddErrors(master - model - restored, Rounding(p.cast, model + restored), b.Delta() / 254.0, b.u);
  }

  lemma {:induction false} MovesSplit(w: Wire, s: State, rounds: seq<Round>, b: Bounds)
    requires w.Valid() && w.shard.Holds(s) && w.Fits(rounds) && rounds != [] && w.MovesWithin(s, rounds, b)
    ensures var front, last := rounds[..|rounds| - 1], rounds[|rounds| - 1];
            && w.Fits(front) && |last.master| == w.shard.numel && w.MovesWithin(s, front, b)
            && Close(w.shard.valid, last.master, w.Before(s, front, |front|), b.drift)
            && Small(w.shard.valid, last.master, b.size)
  {
    hide Close, Small;
    var front := rounds[..|rounds| - 1];
    forall k | 0 <= k <= |front|
      ensures w.Before(s, front, k) == w.Before(s, rounds, k)
    {
    }
    assert Close(w.shard.valid, rounds[|front|].master, w.Before(s, rounds, |front|), b.drift);
  }

  /** However long the run, and whichever rounds refresh, the gap after every round stays within one bound
      set by the drift of a single round and the rounding of a single write. */
  lemma {:induction false} GapDoesNotAccumulate(w: Wire, s: State, rounds: seq<Round>, b: Bounds)
    requires w.Valid() && w.shard.Holds(s) && b.Valid() && CastsWithin(w.shard, b)
    requires w.Fits(rounds) && w.MovesWithin(s, rounds, b)
    requires GapWithin(w.shard, s, b.Gap())
    ensures GapWithin(w.shard, w.Rounds(s, rounds), b.Gap())
    ensures w.Rounds(s, rounds).master == w.Before(s, rounds, |rounds|)
    decreases |rounds|
  {
    hide Bounds.Gap, CastsWithin, GapWithin, Close, Small;
    if rounds != [] {
      var front, last := rounds[..|rounds| - 1], rounds[|rounds| - 1];
      MovesSplit(w, s, rounds, b);
      GapDoesNotAccumulate(w, s, front, b);
      var t := w.Rounds(s, front);
      RoundResult(w, t, last);
      RoundKeepsGap(w, t, last, b);
    }
  }

  /** A floating-point cast: relative rounding `eps`, absolute rounding `tiny` near zero, for values up to `limit`. */
  ghost predicate IsFloatCast(cast: real -> real, eps: real, tiny: real, limit: real) {
    forall x: real :: Abs(x) <= limit ==> Abs(Rounding(cast, x)) <= eps * Abs(x) + tiny
  }

  /** The bounds for a floating-point model copy. */
  function FloatBounds(size: real, drift: real, eps: real, tiny: real): Bounds {
    Bounds(size, drift, 2.0 * (eps * (size + drift + MIN_SCALE) + tiny))
  }

  lemma Product(a: real, x: real, y: real)
    requires a >= 0.0 && x <= y
    ensures a * x <= a * y
  {
  }

  lemma WrittenAtMost(size: real, drift: real, u: real)
    requires drift >= 0.0 && u >= 0.0
    ensures Bounds(size, drift, u).Written() <= size + drift + MIN_SCALE + u / 253.0
  {
  }

  /** A model copy in any floating-point type meets the bound on casts: with `u` twice the rounding at the size of the
      master, every value that is written is rounded by at most `u`. */
  lemma {:induction false} FloatCastsAreWithin(p: Shard, size: real, drift: real, eps: real, tiny: real, limit: real)
    requires size >= 0.0 && drift >= 0.0 && 0.0 <= eps <= 1.0 && tiny >= 0.0
    requires IsFloatCast(p.cast, eps, tiny, limit)
    requires FloatBounds(size, drift, eps, tiny).Written() <= limit
    ensures FloatBounds(size, drift, eps, tiny).Valid()
    ensures FloatBounds(size, drift, eps, tiny).size == size && FloatBounds(size, drift, eps, tiny).drift == drift
    ensures CastsWithin(p, FloatBounds(size, drift, eps, tiny))
  {
    var b := FloatBounds(size, drift, eps, tiny);
    var d := size + drift + MIN_SCALE;
    Product(eps, 0.0, d);
    assert eps * d >= 0.0 && b.u == 2.0 * (eps * d + tiny);
    WrittenAtMost(size, drift, b.u);
    hide Bounds.Written;
    forall x: real | Abs(x) <= b.Written()
      ensures Abs(Rounding(p.cast, x)) <= b.u
    {
      FloatRounding(eps, Abs(x), d, b.u, tiny);
    }
  }

  lemma FloatRounding(eps: real, x: real, d: real, u: real, tiny: real)
    requires 0.0 <= eps <= 1.0 && tiny >= 0.0 && d >= 0.0 && u == 2.0 * (eps * d + tiny)
    requires x <= d + u / 253.0
    ensures eps * x + tiny <= u
  {
    Product(eps, 0.0, d);
    var v := u / 253.0;
    Shrink(v, eps);
    DistributeReal(eps, d, v);
    Product(eps, x, d + v);
    Settle(eps * x, eps * (d + v), eps * d, v * eps, v, u, tiny);
  }

  lemma Settle(a: real, b: real, e: real, f: real, v: real, u: real, tiny: real)
    requires a <= b == e + f && f <= v == u / 253.0 && u == 2.0 * (e + tiny) && u >= 0.0
    ensures a + tiny <= u
  {
  }

  lemma Shrink(v: real, eps: real)
    requires v >= 0.0 && 0.0 <= eps <= 1.0
    ensures v * eps <= v
  {
  }

  lemma DistributeReal(a: real, x: real, y: real)
    ensures a * (x + y) == a * x + y * a
  {
  }

  // ---------------------------------------------------------------------------
  // When to refresh.

  datatype Mode = FpRefresh | QuantizedDifference

  datatype Reason = Warmup | SensitiveTensor | NoCapability | ErrorThreshold | PeriodicRefresh | Int8

  datatype Decision = Decision(mode: Mode, reason: Reason)

  /** What a caller passes besides the step. */
  datatype Signals = Signals(relativeError: Option<real>, capability: bool, sensitive: bool)

  datatype Policy = Policy(warmupSteps: int, refreshInterval: int, threshold: real)
  {
    /** What the constructor accepts. */
    predicate Valid() {
      warmupSteps >= 0 && refreshInterval > 0 && threshold > 0.0
    }

    predicate Exceeds(signals: Signals) {
      signals.relativeError.Some? && signals.relativeError.value > threshold
    }

    function Decide(step: int, signals: Signals): (r: Result<Decision>)
      requires Valid()
    {
      if step <= 0 then Err("step must be positive")
      else if step <= warmupSteps then Ok(Decision(FpRefresh, Warmup))
      else if signals.sensitive then Ok(Decision(FpRefresh, SensitiveTensor))
      else if !signals.capability then Ok(Decision(FpRefresh, NoCapability))
      else if Exceeds(signals) then Ok(Decision(FpRefresh, ErrorThreshold))
      else if step % refreshInterval == 0 then Ok(Decision(FpRefresh, PeriodicRefresh))
      else Ok(Decision(QuantizedDifference, Int8))
    }

    predicate Quantizes(step: int, signals: Signals)
      requires Valid()
    {
      Decide(step, signals) == Ok(Decision(QuantizedDifference, Int8))
    }
  }

  /** The constructor. */
  function Construct(warmupSteps: int, refreshInterval: int, threshold: real): (r: Result<Policy>)
    ensures r.Ok? <==> 0 <= warmupSteps && 0 < refreshInterval && 0.0 < threshold
    ensures r.Ok? ==> r.value == Policy(warmupSteps, refreshInterval, threshold)
  {
    var p := Policy(warmupSteps, refreshInterval, threshold);
    if p.Valid() then Ok(p) else Err("warm-up, interval or threshold is out of range")
  }

  /** At a positive step the policy refreshes exactly during warm-up, for a sensitive tensor, without the capability,
      with an error above the threshold, or at a multiple of the interval; the reason is the first of these that
      applies.  Other steps are refused. */
  lemma {:induction false} RefreshesIff(p: Policy, step: int, signals: Signals)
    requires p.Valid()
    ensures p.Decide(step, signals).Err? <==> step <= 0
    ensures var early, sensitive, unable := step <= p.warmupSteps, signals.sensitive, !signals.capability;
            var wrong := signals.relativeError.Some? && signals.relativeError.value > p.threshold;
            var periodic := step % p.refreshInterval == 0;
            step > 0 ==>
              var d := p.Decide(step, signals).value;
              && (d.mode == FpRefresh <==> early || sensitive || unable || wrong || periodic)
              && (d.reason == Warmup <==> early)
              && (d.reason == SensitiveTensor <==> !early && sensitive)
              && (d.reason == NoCapability <==> !early && !sensitive && unable)
              && (d.reason == ErrorThreshold <==> !early && !sensitive && !unable && wrong)
              && (d.reason == PeriodicRefresh <==> !early && !sensitive && !unable && !wrong && periodic)
              && (d.reason == Int8 <==> d.mode == QuantizedDifference)
  {
  }

  /** Of any `refreshInterval` consecutive steps one is a refresh, whatever the signals. */
  lemma {:induction false} EveryWindowRefreshes(p: Policy, start: int, signals: seq<Signals>)
    requires p.Valid() && start > 0 && |signals| == p.refreshInterval
    ensures exists k :: 0 <= k < |signals| && p.Decide(start + k, signals[k]).Ok?
                        && p.Decide(start + k, signals[k]).value.mode == FpRefresh
  {
    var n := p.refreshInterval;
    var k := if start % n == 0 then 0 else n - start % n;
    DivModUnique(start + k, n, start / n + (if k == 0 then 0 else 1), 0);
    assert p.Decide(start + k, signals[k]).Ok?;
  }

  /** The window cannot be shortened: with clear signals after warm-up every step between two multiples of
      the interval is quantized, so there are runs of `refreshInterval - 1` quantized steps. */
  lemma {:induction false} WindowIsTight(p: Policy, multiple: nat, k: int, signals: Signals)
    requires p.Valid() && multiple * p.refreshInterval >= p.warmupSteps && 0 < k < p.refreshInterval
    requires signals.capability && !signals.sensitive && !p.Exceeds(signals)
    ensures p.Quantizes(multiple * p.refreshInterval + k, signals)
    ensures !p.Quantizes(multiple * p.refreshInterval, signals)
  {
    var n := p.refreshInterval;
    Shards.MulMonotone(0, multiple, n);
    DivModUnique(multiple * n + k, n, multiple, k);
    DivModUnique(multiple * n, n, multiple, 0);
  }

  /** The rounds that a policy drives from step `start` on. */
  ghost predicate Follows(p: Policy, start: int, rounds: seq<Round>, signals: seq<Signals>)
    requires p.Valid()
  {
    && |signals| == |rounds|
    && forall k :: 0 <= k < |rounds| ==> (rounds[k].refresh <==> !p.Quantizes(start + k, signals[k]))
  }

  /** Under a policy at most `refreshInterval - 1` quantized rounds separate two refreshes, so at any point
      of a run the deltas added since the last refresh are fewer than the interval. */
  lemma {:induction false} QuantizedStretchIsShort(
    p: Policy, start: int, rounds: seq<Round>, signals: seq<Signals>, from: nat, to: nat)
    requires p.Valid() && start > 0 && Follows(p, start, rounds, signals)
    requires from <= to <= |rounds| && forall k :: from <= k < to ==> !rounds[k].refresh
    ensures to - from < p.refreshInterval
  {
    if to - from >= p.refreshInterval {
      var window := signals[from..from + p.refreshInterval];
      EveryWindowRefreshes(p, start + from, window);
      assert false;
    }
  }
}
