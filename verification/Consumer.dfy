/** Rank-local optimizer state and its refinement of one unsharded optimizer. */
module Consumer {
  import opened Sequences
  import opened Wrappers
  import opened Shards

  /** A reduced gradient shard with its layout facts; nothing ties the tensor's size to the layout. */
  datatype Gradient = Gradient(layout: ReducedShardValue, layoutVersion: nat, tensor: seq<real>)
  {
    ghost predicate Valid() {
      layout.Valid()
    }
  }

  datatype Rule =
    | Sgd(learningRate: real)
    | AdamW(learningRate: real, beta1: real, beta2: real, epsilon: real, weightDecay: real)

  /** The hyperparameters a step accepts. */
  predicate Admissible(rule: Rule) {
    match rule
    case Sgd(lr) => lr > 0.0
    case AdamW(lr, b1, b2, eps, wd) => lr >= 0.0 && eps > 0.0 && wd >= 0.0 && 0.0 <= b1 < 1.0 && 0.0 <= b2 < 1.0
  }

  /** One element: parameter and the two moments. */
  datatype Cell = Cell(p: real, m: real, v: real)

  function Pow(x: real, n: nat): real {
    if n == 0 then 1.0 else x * Pow(x, n - 1)
  }

  function Over(a: real, b: real): real {
    if b == 0.0 then 0.0 else a / b
  }

  /** A moving average. */
  function Mixed(average: real, beta: real, recent: real): real {
    average * beta + recent * (1.0 - beta)
  }

  function Decay(p: real, learningRate: real, weightDecay: real): real {
    p * (1.0 - learningRate * weightDecay)
  }

  /** What AdamW adds to a decayed parameter. */
  function Movement(learningRate: real, correction: real, m: real, denominator: real): real {
    Over(-learningRate, correction) * Over(m, denominator)
  }

  /** The elementwise update; `step` is the count after this step and `root` the square root. */
  function Update(rule: Rule, step: nat, c: Cell, g: real, root: real -> real): Cell {
    match rule
    case Sgd(lr) => c.(p := c.p + -lr * g)
    case AdamW(lr, b1, b2, eps, wd) =>
      var m, v := Mixed(c.m, b1, g), Mixed(c.v, b2, g * g);
      var denominator := Over(root(v), root(1.0 - Pow(b2, step))) + eps;
      Cell(Decay(c.p, lr, wd) + Movement(lr, 1.0 - Pow(b1, step), m, denominator), m, v)
  }

  lemma {:induction false} PowBelowOne(x: real, n: nat)
    requires 0.0 <= x < 1.0 && n > 0
    ensures 0.0 <= Pow(x, n) < 1.0
  {
    if n == 1 {
      assert Pow(x, 1) == x * Pow(x, 0);
    } else {
      PowBelowOne(x, n - 1);
      var q := Pow(x, n - 1);
      assert 0.0 <= x * q;
      assert x * q <= x;
    }
  }

  /** With admissible hyperparameters and non-negative second moments no division is by zero, and the
      second moment stays non-negative. */
  lemma {:induction false} NoDivisionByZero(rule: Rule, step: nat, c: Cell, g: real, root: real -> real)
    requires rule.AdamW? && Admissible(rule) && step > 0 && c.v >= 0.0
    requires forall x: real :: x >= 0.0 ==> root(x) >= 0.0
    requires forall x: real :: x > 0.0 ==> root(x) > 0.0
    ensures Update(rule, step, c, g, root).v >= 0.0
    ensures 1.0 - Pow(rule.beta1, step) > 0.0 && root(1.0 - Pow(rule.beta2, step)) > 0.0
    ensures Over(root(Update(rule, step, c, g, root).v), root(1.0 - Pow(rule.beta2, step))) + rule.epsilon > 0.0
  {
    PowBelowOne(rule.beta1, step);
    PowBelowOne(rule.beta2, step);
    SecondMomentStays(c.v, g, rule.beta2);
    var v := Update(rule, step, c, g, root).v;
    assert v == Mixed(c.v, rule.beta2, g * g);
    hide Update, Pow;
    QuotientNonNegative(root(v), root(1.0 - Pow(rule.beta2, step)));
  }

  lemma ProductNonNegative(a: real, b: real)
    requires a >= 0.0 && b >= 0.0
    ensures a * b >= 0.0
  {
  }

  lemma QuotientNonNegative(a: real, b: real)
    requires a >= 0.0 && b > 0.0
    ensures a / b >= 0.0
  {
  }

  lemma SecondMomentStays(v: real, g: real, beta2: real)
    requires v >= 0.0 && 0.0 <= beta2 < 1.0
    ensures v * beta2 + g * g * (1.0 - beta2) >= 0.0
  {
    SquareNonNegative(g);
    ProductNonNegative(v, beta2);
    ProductNonNegative(g * g, 1.0 - beta2);
  }

  // ---------------------------------------------------------------------------
  // States as values.

  datatype Optimizer = Optimizer(cells: seq<Cell>, step: nat)

  /** One step over the first `valid` cells; the rest keep their values. */
  function Advance(rule: Rule, s: Optimizer, g: seq<real>, valid: nat, root: real -> real): (t: Optimizer)
    requires valid <= |s.cells| && valid <= |g|
    ensures |t.cells| == |s.cells| && t.step == s.step + 1
    ensures forall i :: valid <= i < |s.cells| ==> t.cells[i] == s.cells[i]
  {
    Optimizer(seq(|s.cells|, i requires 0 <= i < |s.cells| =>
                if i < valid then Update(rule, s.step + 1, s.cells[i], g[i], root) else s.cells[i]),
              s.step + 1)
  }

  /** The gradient for the first `valid` lanes: a slice of that size, or one element for all of them. */
  function Operand(tensor: seq<real>, valid: nat): (g: Option<seq<real>>)
    ensures g.Some? ==> |g.value| == valid
    ensures g.None? <==> |tensor| < valid && |tensor| != 1
    ensures |tensor| >= valid ==> g == Some(tensor[..valid])
    ensures |tensor| == 1 ==> g.Some? && forall i :: 0 <= i < valid ==> g.value[i] == tensor[0]
  {
    if |tensor| >= valid then Some(tensor[..valid])
    else if |tensor| == 1 then Some(seq(valid, _ => tensor[0]))
    else None
  }

  /** What AdamW does to an element before it reads the gradient. */
  function Decayed(rule: Rule, c: Cell): Cell
    requires rule.AdamW?
  {
    c.(p := Decay(c.p, rule.learningRate, rule.weightDecay), m := c.m * rule.beta1)
  }

  /** Where a step stops that has no operand: AdamW has by then counted the step, decayed the parameters and
      scaled the first moments. */
  function Torn(rule: Rule, s: Optimizer, valid: nat): (t: Optimizer)
    requires valid <= |s.cells|
    ensures |t.cells| == |s.cells|
    ensures forall i :: valid <= i < |s.cells| ==> t.cells[i] == s.cells[i]
  {
    if rule.Sgd? then s
    else
      Optimizer(seq(|s.cells|, i requires 0 <= i < |s.cells| =>
                  if i < valid then Decayed(rule, s.cells[i]) else s.cells[i]),
                s.step + 1)
  }

  lemma TornSgd(rule: Rule, s: Optimizer, valid: nat)
    requires valid <= |s.cells| && rule.Sgd?
    ensures Torn(rule, s, valid) == s
  {
  }

  /** A gradient of two elements for a layout of four valid ones: AdamW has no operand, and leaves every parameter
      decayed, every first moment scaled and the step counted. */
  lemma {:induction false} ShortGradientTearsAdamW()
    ensures var g := Gradient(ReducedShardValue(0, 4, 4, 1), 0, [1.0, 1.0]);
            var rule := AdamW(0.5, 0.5, 0.5, 1.0, 1.0);
            var before := Optimizer(seq(4, _ => Cell(4.0, 2.0, 1.0)), 0);
            && g.Valid() && Admissible(rule) && g.layout.ValidNumel() == 4
            && Operand(g.tensor, g.layout.ValidNumel()).None?
            && Torn(rule, before, 4) == Optimizer(seq(4, _ => Cell(2.0, 1.0, 1.0)), 1)
  {
    var rule := AdamW(0.5, 0.5, 0.5, 1.0, 1.0);
    assert Decayed(rule, Cell(4.0, 2.0, 1.0)) == Cell(2.0, 1.0, 1.0);
  }

  datatype StepError =
    WrongLayoutVersion | WrongWorldSize | WrongRank | WrongShardSize | BadHyperparameters | WrongTensorSize

  class ShardedMasterState {
    const master: array<real>
    const expAvg: array<real>
    const expAvgSq: array<real>
    const layoutVersion: nat
    const worldSize: nat
    const rank: nat
    var step: nat

    ghost predicate Valid()
      reads this
    {
      && master.Length == expAvg.Length == expAvgSq.Length
      && master != expAvg && master != expAvgSq && expAvg != expAvgSq
      && rank < worldSize
    }

    ghost function Contents(): (s: Optimizer)
      requires Valid()
      reads this, master, expAvg, expAvgSq
      ensures |s.cells| == master.Length && s.step == step
      ensures forall i :: 0 <= i < master.Length ==>
                s.cells[i].p == master[i] && s.cells[i].m == expAvg[i] && s.cells[i].v == expAvgSq[i]
    {
      Optimizer(seq(master.Length, i requires 0 <= i < master.Length reads this, master, expAvg, expAvgSq =>
                  Cell(master[i], expAvg[i], expAvgSq[i])), step)
    }

    constructor (master: array<real>, layoutVersion: nat, worldSize: nat, rank: nat)
      requires rank < worldSize
      ensures Valid() && this.master == master && fresh(expAvg) && fresh(expAvgSq)
      ensures this.layoutVersion == layoutVersion && this.worldSize == worldSize && this.rank == rank
      ensures step == 0
      ensures forall i :: 0 <= i < master.Length ==> Contents().cells[i] == Cell(master[i], 0.0, 0.0)
    {
      this.master := master;
      this.expAvg := new real[master.Length](_ => 0.0);
      this.expAvgSq := new real[master.Length](_ => 0.0);
      this.layoutVersion := layoutVersion;
      this.worldSize := worldSize;
      this.rank := rank;
      this.step := 0;
    }

    /** The checks on a gradient, in order. */
    function Mismatch(g: Gradient): Option<StepError>
      reads this
    {
      if g.layoutVersion != layoutVersion then Some(WrongLayoutVersion)
      else if g.layout.worldSize != worldSize then Some(WrongWorldSize)
      else if g.layout.shardIndex != rank then Some(WrongRank)
      else if master.Length != g.layout.shardNumel then Some(WrongShardSize)
      else None
    }

    /** One optimizer step.  A rejected one changes nothing; one whose tensor is too short stops midway. */
    method Step(rule: Rule, g: Gradient, root: real -> real) returns (error: Option<StepError>)
      requires Valid() && g.Valid()
      modifies this`step, master, expAvg, expAvgSq
      ensures Valid() && 0 <= g.layout.ValidNumel()
      ensures var version, world := g.layoutVersion == layoutVersion, g.layout.worldSize == worldSize;
              var own, size := g.layout.shardIndex == rank, g.layout.shardNumel == master.Length;
              var admissible := match rule
                                case Sgd(lr) => 0.0 < lr
                                case AdamW(lr, b1, b2, eps, wd) =>
                                  0.0 <= lr && 0.0 < eps && 0.0 <= wd && 0.0 <= b1 && b1 < 1.0 && 0.0 <= b2 && b2 < 1.0;
              var short := |g.tensor| < g.layout.ValidNumel() && |g.tensor| != 1;
              && (error == Some(WrongLayoutVersion) <==> !version)
              && (error == Some(WrongWorldSize) <==> version && !world)
              && (error == Some(WrongRank) <==> version && world && !own)
              && (error == Some(WrongShardSize) <==> version && world && own && !size)
              && (error == Some(BadHyperparameters) <==> version && world && own && size && !admissible)
              && (error == Some(WrongTensorSize) <==> version && world && own && size && admissible && short)
              && (error == None <==> version && world && own && size && admissible && !short)
      ensures error.Some? && error != Some(WrongTensorSize) ==> Contents() == old(Contents())
      ensures error.None? || error == Some(WrongTensorSize) ==> g.layout.ValidNumel() <= master.Length
      ensures error == Some(WrongTensorSize) ==> Contents() == Torn(rule, old(Contents()), g.layout.ValidNumel())
      ensures error.None? ==>
        Contents() == Advance(rule, old(Contents()), Operand(g.tensor, g.layout.ValidNumel()).value,
                              g.layout.ValidNumel(), root)
    {
      RangesAreConsecutive(g.layout);
      error := Mismatch(g);
      if error.Some? {
        return;
      }
      if !Admissible(rule) {
        error := Some(BadHyperparameters);
        return;
      }
      error := StepOn(rule, Operand(g.tensor, g.layout.ValidNumel()), g.layout.ValidNumel(), root);
    }

    /** The updates of a step that has passed its checks. */
    method StepOn(rule: Rule, operand: Option<seq<real>>, valid: nat, root: real -> real)
      returns (error: Option<StepError>)
      requires Valid() && valid <= master.Length && (operand.Some? ==> |operand.value| == valid)
      modifies this`step, master, expAvg, expAvgSq
      ensures error == if operand.None? then Some(WrongTensorSize) else None
      ensures Contents() == if operand.None? then Torn(rule, old(Contents()), valid)
                            else Advance(rule, old(Contents()), operand.value, valid, root)
    {
      hide Advance, Torn, Update;
      error := if operand.None? then Some(WrongTensorSize) else None;
      if operand.None? && rule.Sgd? {
        TornSgd(rule, Contents(), valid);
        return;
      }
      ghost var before := Contents();
      step := step + 1;
      assert Contents().(step := step - 1) == before;
      if operand.None? {
        DecayPrefix(rule, valid);
      } else {
        UpdatePrefix(rule, operand.value, valid, root);
      }
    }

    method DecayAt(rule: Rule, i: nat)
      requires Valid() && i < master.Length && rule.AdamW?
      modifies master, expAvg
      ensures Cell(master[i], expAvg[i], expAvgSq[i]) == Decayed(rule, old(Cell(master[i], expAvg[i], expAvgSq[i])))
      ensures forall j :: 0 <= j < master.Length && j != i ==>
                master[j] == old(master[j]) && expAvg[j] == old(expAvg[j])
    {
      master[i] := master[i] * (1.0 - rule.learningRate * rule.weightDecay);
      expAvg[i] := expAvg[i] * rule.beta1;
    }

    /** The two tensor updates of AdamW before the gradient is used; `step` is already the new count. */
    method DecayPrefix(rule: Rule, valid: nat)
      requires Valid() && step > 0 && valid <= master.Length && rule.AdamW?
      modifies master, expAvg
      ensures Contents() == Torn(rule, old(Contents()).(step := step - 1), valid)
    {
      hide Decayed;
      ghost var before := Contents();
      for i := 0 to valid
        invariant forall j :: 0 <= j < i ==>
          Cell(master[j], expAvg[j], expAvgSq[j]) == Decayed(rule, before.cells[j])
        invariant forall j :: i <= j < master.Length ==>
          Cell(master[j], expAvg[j], expAvgSq[j]) == before.cells[j]
      {
        DecayAt(rule, i);
      }
      assert Contents().cells == Torn(rule, before.(step := step - 1), valid).cells;
    }

    /** The tensor updates of one step, on the first `valid` lanes; `step` is already the new count. */
    method UpdatePrefix(rule: Rule, g: seq<real>, valid: nat, root: real -> real)
      requires Valid() && step > 0 && valid <= |g| && valid <= master.Length
      modifies master, expAvg, expAvgSq
      ensures Contents() == Advance(rule, old(Contents()).(step := step - 1), g, valid, root)
    {
      hide Update;
      ghost var before := old(Contents());
      for i := 0 to valid
        invariant Valid()
        invariant forall j :: 0 <= j < i ==>
          Cell(master[j], expAvg[j], expAvgSq[j]) == Update(rule, step, before.cells[j], g[j], root)
        invariant forall j :: i <= j < master.Length ==>
          Cell(master[j], expAvg[j], expAvgSq[j]) == before.cells[j]
      {
        var cell := Update(rule, step, Cell(master[i], expAvg[i], expAvgSq[i]), g[i], root);
        master[i], expAvg[i], expAvgSq[i] := cell.p, cell.m, cell.v;
      }
      assert Contents().cells == Advance(rule, before.(step := step - 1), g, valid, root).cells;
    }
  }

  // ---------------------------------------------------------------------------
  // All ranks against one unsharded optimizer.

  /** One training step: the rule, the whole gradient, and what each rank receives. */
  datatype Round = Round(rule: Rule, gradient: seq<real>, shards: seq<seq<real>>)

  function Valid(v: ReducedShardValue, r: nat): (n: nat)
    requires v.Valid() && r < v.worldSize
    ensures n <= v.shardNumel
  {
    RangesAreConsecutive(Shard(v, r));
    Shard(v, r).ValidNumel()
  }

  function Start(v: ReducedShardValue, r: nat): (n: nat)
    requires v.Valid() && r < v.worldSize
    ensures n + Valid(v, r) <= v.originalNumel
  {
    RangesAreConsecutive(Shard(v, r));
    Shard(v, r).LogicalRange().0
  }

  /** Every rank receives its slice of the gradient; padding lanes may hold anything. */
  ghost predicate Delivers(v: ReducedShardValue, round: Round)
    requires v.Valid()
  {
    && |round.gradient| == v.originalNumel
    && |round.shards| == v.worldSize
    && forall r :: 0 <= r < v.worldSize ==>
         && |round.shards[r]| == v.shardNumel
         && round.shards[r][..Valid(v, r)] == round.gradient[Start(v, r)..Start(v, r) + Valid(v, r)]
  }

  ghost predicate Layout(v: ReducedShardValue, ranks: seq<Optimizer>, whole: Optimizer) {
    && v.Valid()
    && |ranks| == v.worldSize && |whole.cells| == v.originalNumel
    && forall r :: 0 <= r < v.worldSize ==> |ranks[r].cells| == v.shardNumel
  }

  /** The valid prefix of every rank is its range of the unsharded state, at the same step. */
  ghost predicate Agree(v: ReducedShardValue, ranks: seq<Optimizer>, whole: Optimizer)
    requires Layout(v, ranks, whole)
  {
    forall r :: 0 <= r < v.worldSize ==>
      && ranks[r].step == whole.step
      && ranks[r].cells[..Valid(v, r)] == whole.cells[Start(v, r)..Start(v, r) + Valid(v, r)]
  }

  function AdvanceAll(v: ReducedShardValue, ranks: seq<Optimizer>, round: Round, root: real -> real)
    : (next: seq<Optimizer>)
    requires v.Valid() && |ranks| == v.worldSize && Delivers(v, round)
    requires forall r :: 0 <= r < v.worldSize ==> |ranks[r].cells| == v.shardNumel
    ensures |next| == v.worldSize && forall r :: 0 <= r < v.worldSize ==> |next[r].cells| == v.shardNumel
  {
    seq(v.worldSize, r requires 0 <= r < v.worldSize =>
      Advance(round.rule, ranks[r], round.shards[r], Valid(v, r), root))
  }

  function TrainAll(v: ReducedShardValue, ranks: seq<Optimizer>, rounds: seq<Round>, root: real -> real)
    : (next: seq<Optimizer>)
    requires v.Valid() && |ranks| == v.worldSize
    requires forall r :: 0 <= r < v.worldSize ==> |ranks[r].cells| == v.shardNumel
    requires forall i :: 0 <= i < |rounds| ==> Delivers(v, rounds[i])
    ensures |next| == v.worldSize && forall r :: 0 <= r < v.worldSize ==> |next[r].cells| == v.shardNumel
    decreases |rounds|
  {
    if rounds == [] then ranks
    else AdvanceAll(v, TrainAll(v, ranks, rounds[..|rounds| - 1], root), rounds[|rounds| - 1], root)
  }

  function TrainWhole(v: ReducedShardValue, whole: Optimizer, rounds: seq<Round>, root: real -> real): (next: Optimizer)
    requires v.Valid() && |whole.cells| == v.originalNumel
    requires forall i :: 0 <= i < |rounds| ==> Delivers(v, rounds[i])
    ensures |next.cells| == v.originalNumel
    decreases |rounds|
  {
    if rounds == [] then whole
    else
      var last := rounds[|rounds| - 1];
      assert Delivers(v, last);
      Advance(last.rule, TrainWhole(v, whole, rounds[..|rounds| - 1], root), last.gradient, v.originalNumel, root)
  }

  // ---------------------------------------------------------------------------
  // What a run computes, lane by lane.

  /** The gradient of lane `i` times the learning rate. */
  function Product(round: Round, i: nat): real
    requires i < |round.gradient|
  {
    round.rule.learningRate * round.gradient[i]
  }

  function Scaled(rounds: seq<Round>, i: nat): (products: seq<real>)
    requires forall k :: 0 <= k < |rounds| ==> i < |rounds[k].gradient|
    ensures |products| == |rounds|
  {
    seq(|rounds|, k requires 0 <= k < |rounds| => Product(rounds[k], i))
  }

  lemma ScaledFront(rounds: seq<Round>, i: nat)
    requires rounds != [] && forall k :: 0 <= k < |rounds| ==> i < |rounds[k].gradient|
    ensures Scaled(rounds, i) == Scaled(rounds[..|rounds| - 1], i) + [Product(rounds[|rounds| - 1], i)]
  {
    hide Product;
  }

  /** SGD steps descend: each lane ends at its start less the sum of its gradients times their learning rates, the
      moments stay, and the count has advanced by the steps. */
  lemma {:induction false} SgdDescends(
    v: ReducedShardValue, whole: Optimizer, rounds: seq<Round>, root: real -> real, i: nat)
    requires v.Valid() && |whole.cells| == v.originalNumel && i < v.originalNumel
    requires forall k :: 0 <= k < |rounds| ==> Delivers(v, rounds[k]) && rounds[k].rule.Sgd?
    ensures var t := TrainWhole(v, whole, rounds, root);
            && t.step == whole.step + |rounds|
            && t.cells[i] == Cell(whole.cells[i].p - Sum(Scaled(rounds, i)), whole.cells[i].m, whole.cells[i].v)
    decreases |rounds|
  {
    if rounds == [] {
      assert Scaled(rounds, i) == [];
    } else {
      var front, last := rounds[..|rounds| - 1], rounds[|rounds| - 1];
      SgdDescends(v, whole, front, root, i);
      assert Delivers(v, last);
      ScaledFront(rounds, i);
      SumAppend(Scaled(front, i), Product(last, i));
      hide Sum, Scaled, Delivers;
    }
  }

  /** A square root of the non-negative numbers. */
  ghost predicate IsRoot(root: real -> real) {
    forall x: real :: x >= 0.0 ==> root(x) >= 0.0 && root(x) * root(x) == x
  }

  lemma RootsAreUnique(x: real, y: real)
    requires x >= 0.0 && y >= 0.0 && x * x == y * y
    ensures x == y
  {
    assert (x - y) * (x + y) == x * x - y * y;
    if x + y > 0.0 {
      NoFactor(x - y, x + y);
    }
  }

  lemma SquareOfProduct(x: real, y: real)
    ensures (x * y) * (x * y) == (x * x) * (y * y)
  {
  }

  /** The root of a second moment of `b` times the square of the gradient. */
  lemma RootOfMoment(b: real, g: real, size: real, root: real -> real)
    requires IsRoot(root) && b > 0.0 && size >= 0.0 && size * size == g * g
    ensures root(b) > 0.0 && root(b * (g * g)) == root(b) * size
  {
    SquareNonNegative(g);
    ProductNonNegative(b, g * g);
    var r, q := root(b), root(b * (g * g));
    assert r * r == b && q * q == b * (g * g);
    ProductNonNegative(r, size);
    SquareOfProduct(r, size);
    RootsAreUnique(q, r * size);
  }

  /** What AdamW subtracts from a decayed parameter under a constant gradient. */
  function Descent(rule: Rule, g: real): real
    requires Admissible(rule) && rule.AdamW?
  {
    rule.learningRate * g / ((if g < 0.0 then -g else g) + rule.epsilon)
  }

  /** The moving average of `n` equal values that started at zero. */
  function Moment(beta: real, n: nat, g: real): real {
    (1.0 - Pow(beta, n)) * g
  }

  lemma MomentNext(beta: real, n: nat, g: real)
    ensures Mixed(Moment(beta, n, g), beta, g) == Moment(beta, n + 1, g)
  {
    assert Pow(beta, n + 1) == beta * Pow(beta, n);
    MixedMoment(beta, Pow(beta, n), g);
  }

  lemma MixedMoment(beta: real, q: real, g: real)
    ensures (1.0 - q) * g * beta + g * (1.0 - beta) == (1.0 - beta * q) * g
  {
    assert (1.0 - q) * g == g - q * g;
    assert (g - q * g) * beta == g * beta - q * g * beta;
    assert g * (1.0 - beta) == g - g * beta;
    assert q * g * beta == beta * q * g;
  }

  /** The bias corrections cancel: what remains is the gradient over its magnitude plus epsilon. */
  lemma {:induction false} CorrectionsCancel(
    rule: Rule, a: real, b: real, g: real, m: real, v: real, root: real -> real)
    requires Admissible(rule) && rule.AdamW? && a > 0.0 && b > 0.0 && IsRoot(root)
    requires m == a * g && v == b * (g * g)
    ensures Movement(rule.learningRate, a, m, Over(root(v), root(b)) + rule.epsilon) == -Descent(rule, g)
  {
    var size := if g < 0.0 then -g else g;
    RootOfMoment(b, g, size, root);
    QuotientCancels(size, root(b));
    QuotientMoves(a, g, size + rule.epsilon, rule.learningRate);
    hide IsRoot;
  }

  lemma {:induction false} BiasCancels(rule: Rule, n: nat, g: real, root: real -> real)
    requires Admissible(rule) && rule.AdamW? && n > 0 && IsRoot(root)
    ensures var denominator :=
              Over(root(Moment(rule.beta2, n, g * g)), root(1.0 - Pow(rule.beta2, n))) + rule.epsilon;
            Movement(rule.learningRate, 1.0 - Pow(rule.beta1, n), Moment(rule.beta1, n, g), denominator)
            == -Descent(rule, g)
  {
    PowBelowOne(rule.beta1, n);
    PowBelowOne(rule.beta2, n);
    MomentIs(rule.beta1, n, g);
    MomentIs(rule.beta2, n, g * g);
    hide Pow, Moment, Movement, Over, Descent, IsRoot;
    CorrectionsCancel(rule, 1.0 - Pow(rule.beta1, n), 1.0 - Pow(rule.beta2, n), g, Moment(rule.beta1, n, g),
                      Moment(rule.beta2, n, g * g), root);
  }

  lemma SquareNonNegative(g: real)
    ensures g * g >= 0.0
  {
    if g < 0.0 {
      ProductNonNegative(-g, -g);
      assert g * g == -g * -g;
    } else {
      ProductNonNegative(g, g);
    }
  }

  lemma QuotientCancels(x: real, y: real)
    requires y > 0.0
    ensures (y * x) / y == x
  {
    var q := (y * x) / y;
    assert q * y == x * y;
    assert (q - x) * y == 0.0;
  }

  lemma QuotientMoves(a: real, g: real, d: real, lr: real)
    requires a > 0.0 && d > 0.0
    ensures (-lr / a) * (a * g / d) == -(lr * g / d)
  {
    var x, y, z := -lr / a, a * g / d, lr * g / d;
    assert x * a == -lr && y * d == a * g && z * d == lr * g;
    Regrouped(x, y, d, a, g);
    assert (x * y + z) * d == x * y * d + z * d;
    NoFactor(x * y + z, d);
  }

  lemma Regrouped(x: real, y: real, d: real, a: real, g: real)
    requires y * d == a * g
    ensures x * y * d == x * a * g
  {
    assert x * y * d == x * (y * d);
  }

  lemma NoFactor(x: real, d: real)
    requires d > 0.0 && x * d == 0.0
    ensures x == 0.0
  {
  }

  /** One AdamW step on a lane whose moments are those of `n` steps under a constant gradient. */
  lemma {:induction false} AdamWStep(rule: Rule, n: nat, c: Cell, g: real, root: real -> real)
    requires Admissible(rule) && rule.AdamW? && IsRoot(root)
    requires c.m == Moment(rule.beta1, n, g) && c.v == Moment(rule.beta2, n, g * g)
    ensures Update(rule, n + 1, c, g, root)
         == Cell(Decay(c.p, rule.learningRate, rule.weightDecay) - Descent(rule, g),
                 Moment(rule.beta1, n + 1, g), Moment(rule.beta2, n + 1, g * g))
  {
    MomentNext(rule.beta1, n, g);
    MomentNext(rule.beta2, n, g * g);
    BiasCancels(rule, n + 1, g, root);
    hide Pow, Over, IsRoot, Mixed, Decay, Movement, Descent, Moment;
  }

  lemma MomentIs(beta: real, n: nat, g: real)
    ensures Moment(beta, n, g) == (1.0 - Pow(beta, n)) * g
    ensures Moment(beta, 0, g) == 0.0
  {
  }

  lemma {:induction false} AdamWLane(
    v: ReducedShardValue, whole: Optimizer, rounds: seq<Round>, rule: Rule, g: real, root: real -> real, i: nat)
    requires v.Valid() && |whole.cells| == v.originalNumel && i < v.originalNumel && whole.step == 0
    requires whole.cells[i].m == 0.0 && whole.cells[i].v == 0.0
    requires rule.AdamW? && Admissible(rule) && IsRoot(root)
    requires forall k :: 0 <= k < |rounds| ==>
               Delivers(v, rounds[k]) && rounds[k].rule == rule && rounds[k].gradient[i] == g
    ensures var t := TrainWhole(v, whole, rounds, root);
            && t.step == |rounds|
            && t.cells[i].m == Moment(rule.beta1, |rounds|, g) && t.cells[i].v == Moment(rule.beta2, |rounds|, g * g)
            && (rounds != [] ==>
                  t.cells[i].p
                  == Decay(TrainWhole(v, whole, rounds[..|rounds| - 1], root).cells[i].p, rule.learningRate,
                           rule.weightDecay) - Descent(rule, g))
    decreases |rounds|
  {
    hide Update, Pow, IsRoot, Decay, Moment, Descent, Admissible;
    if rounds == [] {
      MomentIs(rule.beta1, 0, g);
      MomentIs(rule.beta2, 0, g * g);
    } else {
      var front, last := rounds[..|rounds| - 1], rounds[|rounds| - 1];
      AdamWLane(v, whole, front, rule, g, root, i);
      assert Delivers(v, last);
      AdamWStep(rule, |front|, TrainWhole(v, whole, front, root).cells[i], g, root);
    }
  }

  /** A lane after its `n`-th step, whose parameter was `before`. */
  ghost predicate HasDescended(rule: Rule, n: nat, g: real, before: real, c: Cell)
    requires rule.AdamW? && Admissible(rule)
  {
    && c.m == (1.0 - Pow(rule.beta1, n)) * g
    && c.v == (1.0 - Pow(rule.beta2, n)) * (g * g)
    && c.p == before * (1.0 - rule.learningRate * rule.weightDecay)
              - rule.learningRate * g / ((if g < 0.0 then -g else g) + rule.epsilon)
  }

  /** AdamW under a constant gradient, from zero moments: after any number of steps the moments are the bias factors
      times the gradient and its square, and every step takes the parameter to its decayed value less the learning
      rate times the gradient over its magnitude plus epsilon. */
  lemma {:induction false} AdamWDescends(
    v: ReducedShardValue, whole: Optimizer, rounds: seq<Round>, rule: Rule, g: real, root: real -> real, i: nat)
    requires v.Valid() && |whole.cells| == v.originalNumel && i < v.originalNumel && whole.step == 0
    requires whole.cells[i].m == 0.0 && whole.cells[i].v == 0.0
    requires rule.AdamW? && Admissible(rule) && IsRoot(root)
    requires forall k :: 0 <= k < |rounds| ==>
               Delivers(v, rounds[k]) && rounds[k].rule == rule && rounds[k].gradient[i] == g
    requires rounds != []
    ensures var t, before := TrainWhole(v, whole, rounds, root), TrainWhole(v, whole, rounds[..|rounds| - 1], root);
            t.step == |rounds| && HasDescended(rule, |rounds|, g, before.cells[i].p, t.cells[i])
  {
    var t, before := TrainWhole(v, whole, rounds, root), TrainWhole(v, whole, rounds[..|rounds| - 1], root);
    AdamWLane(v, whole, rounds, rule, g, root, i);
    hide TrainWhole, HasDescended, Decay, Descent, Moment, IsRoot, Delivers, Admissible;
    LaneIs(rule, |rounds|, g, before.cells[i].p, t.cells[i]);
  }

  lemma LaneIs(rule: Rule, n: nat, g: real, before: real, c: Cell)
    requires rule.AdamW? && Admissible(rule) && c.m == Moment(rule.beta1, n, g) && c.v == Moment(rule.beta2, n, g * g)
    requires c.p == Decay(before, rule.learningRate, rule.weightDecay) - Descent(rule, g)
    ensures HasDescended(rule, n, g, before, c)
  {
    StepIs(rule, g, before);
    MomentIs(rule.beta1, n, g);
    MomentIs(rule.beta2, n, g * g);
    hide Decay, Descent, Moment, Pow;
  }

  lemma StepIs(rule: Rule, g: real, p: real)
    requires rule.AdamW? && Admissible(rule)
    ensures Decay(p, rule.learningRate, rule.weightDecay) - Descent(rule, g)
         == p * (1.0 - rule.learningRate * rule.weightDecay)
            - rule.learningRate * g / ((if g < 0.0 then -g else g) + rule.epsilon)
  {
  }

  lemma {:induction false} AdvanceSlice(
    rule: Rule, small: Optimizer, whole: Optimizer, g: seq<real>, gradient: seq<real>, start: nat, valid: nat,
    root: real -> real)
    requires valid <= |small.cells| && valid <= |g| && start + valid <= |whole.cells| == |gradient|
    requires small.step == whole.step
    requires small.cells[..valid] == whole.cells[start..start + valid]
    requires g[..valid] == gradient[start..start + valid]
    ensures var a, b := Advance(rule, small, g, valid, root), Advance(rule, whole, gradient, |gradient|, root);
            a.step == b.step && a.cells[..valid] == b.cells[start..start + valid]
  {
    var a, b := Advance(rule, small, g, valid, root), Advance(rule, whole, gradient, |gradient|, root);
    forall i | 0 <= i < valid
      ensures a.cells[i] == b.cells[start + i]
    {
      assert small.cells[..valid][i] == whole.cells[start..start + valid][i];
      assert g[..valid][i] == gradient[start..start + valid][i];
    }
  }

  /** After any sequence of steps the ranks' valid prefixes are the ranges of one unsharded run, and
      padding lanes hold what they held at the start. */
  lemma {:induction false} ShardedRefinesUnsharded(
    v: ReducedShardValue, ranks: seq<Optimizer>, whole: Optimizer, rounds: seq<Round>, root: real -> real)
    requires Layout(v, ranks, whole) && Agree(v, ranks, whole)
    requires forall i :: 0 <= i < |rounds| ==> Delivers(v, rounds[i])
    ensures Layout(v, TrainAll(v, ranks, rounds, root), TrainWhole(v, whole, rounds, root))
    ensures Agree(v, TrainAll(v, ranks, rounds, root), TrainWhole(v, whole, rounds, root))
    ensures forall r, i :: 0 <= r < v.worldSize && Valid(v, r) <= i < v.shardNumel ==>
              TrainAll(v, ranks, rounds, root)[r].cells[i] == ranks[r].cells[i]
    decreases |rounds|
  {
    if rounds != [] {
      var front, last := rounds[..|rounds| - 1], rounds[|rounds| - 1];
      ShardedRefinesUnsharded(v, ranks, whole, front, root);
      var rs, w := TrainAll(v, ranks, front, root), TrainWhole(v, whole, front, root);
      forall r | 0 <= r < v.worldSize
        ensures var a := AdvanceAll(v, rs, last, root)[r];
                var b := Advance(last.rule, w, last.gradient, v.originalNumel, root);
                a.step == b.step && a.cells[..Valid(v, r)] == b.cells[Start(v, r)..Start(v, r) + Valid(v, r)]
      {
        AdvanceSlice(last.rule, rs[r], w, last.shards[r], last.gradient, Start(v, r), Valid(v, r), root);
      }
    }
  }

  /** The valid prefixes of the first `n` ranks, concatenated. */
  function Gathered(v: ReducedShardValue, ranks: seq<Optimizer>, n: nat): seq<Cell>
    requires v.Valid() && n <= v.worldSize == |ranks|
    requires forall r :: 0 <= r < v.worldSize ==> |ranks[r].cells| == v.shardNumel
  {
    if n == 0 then [] else Gathered(v, ranks, n - 1) + ranks[n - 1].cells[..Valid(v, n - 1)]
  }

  lemma {:induction false} StartFacts(v: ReducedShardValue, r: nat)
    requires v.Valid() && r < v.worldSize
    ensures r == 0 ==> Start(v, r) == 0
    ensures r + 1 < v.worldSize ==> Start(v, r + 1) == Start(v, r) + Valid(v, r)
    ensures r + 1 == v.worldSize ==> Start(v, r) + Valid(v, r) == v.originalNumel
  {
    RangesAreConsecutive(Shard(v, r));
    assert Shard(Shard(v, r), r + 1) == Shard(v, r + 1);
    assert Shard(Shard(v, r), v.worldSize - 1) == Shard(v, v.worldSize - 1);
    assert Shard(Shard(v, r), 0) == Shard(v, 0);
  }

  /** Appending one more range to a prefix. */
  lemma JoinRange<T>(gathered: seq<T>, front: seq<T>, last: seq<T>, whole: seq<T>, a: nat, n: nat)
    requires a + n <= |whole|
    requires gathered == front + last && front == whole[..a] && last == whole[a..a + n]
    ensures gathered == whole[..a + n]
  {
  }

  lemma {:induction false} GatheredIsPrefix(v: ReducedShardValue, ranks: seq<Optimizer>, whole: Optimizer, n: nat)
    requires Layout(v, ranks, whole) && Agree(v, ranks, whole) && 0 < n <= v.worldSize
    ensures Gathered(v, ranks, n) == whole.cells[..Start(v, n - 1) + Valid(v, n - 1)]
    decreases n
  {
    hide Start, Valid;
    StartFacts(v, n - 1);
    var front := Gathered(v, ranks, n - 1);
    assert front == whole.cells[..Start(v, n - 1)] by {
      if n > 1 {
        GatheredIsPrefix(v, ranks, whole, n - 1);
        StartFacts(v, n - 2);
      }
    }
    JoinRange(Gathered(v, ranks, n), front, ranks[n - 1].cells[..Valid(v, n - 1)], whole.cells,
              Start(v, n - 1), Valid(v, n - 1));
  }

  /** Concatenating all valid prefixes gives the unsharded state. */
  lemma {:induction false} GatheredIsWhole(v: ReducedShardValue, ranks: seq<Optimizer>, whole: Optimizer)
    requires Layout(v, ranks, whole) && Agree(v, ranks, whole)
    ensures Gathered(v, ranks, v.worldSize) == whole.cells
  {
    GatheredIsPrefix(v, ranks, whole, v.worldSize);
    StartFacts(v, v.worldSize - 1);
    assert whole.cells[..v.originalNumel] == whole.cells;
  }
}
