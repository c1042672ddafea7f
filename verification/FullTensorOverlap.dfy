/** Overlapping full-tensor runs: when they deliver their own results, and when they block. */
module FullTensorOverlap {
  import opened Sequences
  import opened Codecs
  import opened Executors
  import opened Collectives
  import opened FullTensorRuns
  import opened Wrappers

  ghost predicate Reachable<B(!new)>(g: Group<B>, s: seq<Rank<B>>) {
    exists run, actions :: g.IsRun(false, run, actions) && run[|actions|] == s
  }

  lemma {:induction false} ReachNext<B(!new)>(g: Group<B>, s: seq<Rank<B>>, a: Action, t: seq<Rank<B>>)
    requires Reachable(g, s) && g.Steps(false, s, a, t)
    ensures Reachable(g, t)
  {
    hide Group.Steps;
    var run, actions :| g.IsRun(false, run, actions) && run[|actions|] == s;
    var longer, more := run + [t], actions + [a];
    forall i | 0 <= i < |more|
      ensures g.Steps(false, longer[i], more[i], longer[i + 1])
    {
      if i < |actions| {
        assert g.Steps(false, run[i], actions[i], run[i + 1]);
      }
    }
    assert g.IsRun(false, longer, more) && longer[|more|] == t;
  }

  ghost function FirstOf<B(!new)>(g: Group<B>, j: nat, r: nat): Op<B>
    requires g.Valid() && j < |g.sends| && r < g.e.world
  {
    OneBufferPerRank(g, j);
    Op(j, false, g.sends[j][r])
  }

  ghost function SecondOf<B(!new)>(g: Group<B>, j: nat, r: nat): Op<B>
    requires g.Valid() && j < |g.sends| && r < g.e.world
  {
    Op(j, true, g.Rows(j)[r])
  }

  // ---------------------------------------------------------------------------
  // Schedules in which all ranks do the same, one after the other.

  /** The run of the `k`-th collective when `m` runs were made one at a time and then more were started. */
  function JobAt(m: nat, k: nat): nat {
    if k < 2 * m then k / 2 else k - m
  }

  /** The first `n` collectives that rank `r` then issues. */
  ghost function Ops<B(!new)>(g: Group<B>, r: nat, m: nat, n: nat): (ops: seq<Op<B>>)
    requires g.Valid() && r < g.e.world && m <= |g.sends| && n <= m + |g.sends|
    ensures |ops| == n
    ensures forall k :: 0 <= k < n ==> ops[k].job == JobAt(m, k) && ops[k].second == (k < 2 * m && k % 2 == 1)
  {
    seq(n, k requires 0 <= k < n =>
      if k < 2 * m && k % 2 == 1 then SecondOf(g, k / 2, r) else FirstOf(g, JobAt(m, k), r))
  }

  lemma {:induction false} OpsCall<B(!new)>(g: Group<B>, r: nat, m: nat, c: nat)
    requires g.Valid() && r < g.e.world && m + c < |g.sends|
    ensures Ops(g, r, m, 2 * m + c + 1) == Ops(g, r, m, 2 * m + c) + [FirstOf(g, m + c, r)]
  {
    hide Group.Valid, FirstOf, SecondOf;
  }

  /** One run later. */
  lemma {:induction false} OpsNext<B(!new)>(g: Group<B>, r: nat, m: nat)
    requires g.Valid() && r < g.e.world && m < |g.sends|
    ensures Ops(g, r, m + 1, 2 * m + 2) == Ops(g, r, m, 2 * m + 1) + [SecondOf(g, m, r)]
  {
    hide Group.Valid, FirstOf, SecondOf;
  }

  function Upto(m: nat): (jobs: set<nat>)
    ensures forall j: nat :: j in jobs <==> j < m
  {
    if m == 0 then {} else Upto(m - 1) + {m - 1}
  }

  /** The right results of the first `m` runs. */
  ghost function Results<B(!new)>(g: Group<B>, m: nat): (results: map<nat, seq<real>>)
    requires g.Valid() && m <= |g.sends|
    ensures forall j: nat :: j in results <==> j < m
    ensures forall j :: 0 <= j < m ==> results[j] == g.Restore(g.Rows(j))
  {
    map j: nat | j < m :: g.Restore(g.Rows(j))
  }

  /** Rank `r` has finished `m` runs and started `c` more. */
  ghost function Starter<B(!new)>(g: Group<B>, m: nat, c: nat, r: nat): Rank<B>
    requires g.Valid() && m + c <= |g.sends| && r < g.e.world
  {
    Rank(Ops(g, r, m, 2 * m + c), m + c, Upto(m), Results(g, m))
  }

  ghost function Started<B(!new)>(g: Group<B>, m: nat, c: nat): (s: seq<Rank<B>>)
    requires g.Valid() && m + c <= |g.sends|
    ensures |s| == g.e.world && forall r :: 0 <= r < g.e.world ==> s[r] == Starter(g, m, c, r)
  {
    seq(g.e.world, r requires 0 <= r < g.e.world => Starter(g, m, c, r))
  }

  /** All ranks have finished `done` runs and have the next `window` in flight; which of these each rank reduces
      first: rank `odd` another one than the rest. */
  datatype Choice = Choice(done: nat, window: nat, common: nat, odd: nat, other: nat)
  {
    function Of(r: nat): nat {
      if r == odd then other else common
    }

    /** The place of the collective that follows. */
    function Place(): nat {
      2 * done + window
    }
  }

  /** A run in flight that the pool has taken up, when none in flight has delivered. */
  predicate TakenUp(ch: Choice, j: nat) {
    ch.done <= j < ch.done + ch.window && j < ch.done + POOL_WORKERS
  }

  ghost predicate Fits<B(!new)>(g: Group<B>, ch: Choice) {
    && g.Valid() && ch.done + ch.window <= |g.sends|
    && TakenUp(ch, ch.common) && TakenUp(ch, ch.other) && ch.odd < g.e.world
  }

  /** Rank `r` after it has reduced its choice. */
  ghost function Chooser<B(!new)>(g: Group<B>, ch: Choice, r: nat): Rank<B>
    requires Fits(g, ch) && r < g.e.world
  {
    Rank(Ops(g, r, ch.done, ch.Place()) + [SecondOf(g, ch.Of(r), r)], ch.done + ch.window,
         Upto(ch.done) + {ch.Of(r)}, Results(g, ch.done))
  }

  ghost function Chosen<B(!new)>(g: Group<B>, ch: Choice): (s: seq<Rank<B>>)
    requires Fits(g, ch)
    ensures |s| == g.e.world && forall r :: 0 <= r < g.e.world ==> s[r] == Chooser(g, ch, r)
  {
    seq(g.e.world, r requires 0 <= r < g.e.world => Chooser(g, ch, r))
  }

  /** The first `b` ranks have acted. */
  function Sweep<B>(before: seq<Rank<B>>, after: seq<Rank<B>>, b: nat): (s: seq<Rank<B>>)
    requires b <= |before| == |after|
    ensures |s| == |before| && forall q :: 0 <= q < |s| ==> s[q] == if q < b then after[q] else before[q]
  {
    after[..b] + before[b..]
  }

  /** When the first `b` ranks have acted, rank `b` can, with the wanted effect. */
  ghost predicate Acts<B(!new)>(g: Group<B>, s: seq<Rank<B>>, a: Action, b: nat, next: Rank<B>) {
    g.WellShaped(s) ==> a.rank == b && g.Enabled(false, s, a) && g.Act(s, a) == next
  }

  lemma {:induction false} SweepReachable<B(!new)>(
    g: Group<B>, before: seq<Rank<B>>, after: seq<Rank<B>>, actions: seq<Action>, b: nat)
    requires |before| == |after| == |actions| == g.e.world && b <= g.e.world && Reachable(g, before)
    requires forall q :: 0 <= q < g.e.world ==> Acts(g, Sweep(before, after, q), actions[q], q, after[q])
    ensures Reachable(g, Sweep(before, after, b))
  {
    hide Reachable, Inv, Group.WellShaped, Group.Enabled, Group.Act;
    if b == 0 {
      assert Sweep(before, after, 0) == before;
    } else {
      var c := b - 1;
      SweepReachable(g, before, after, actions, c);
      var s, t := Sweep(before, after, c), Sweep(before, after, c + 1);
      ReachableShaped(g, s);
      assert Acts(g, s, actions[c], c, after[c]);
      assert t == s[c := after[c]];
      ReachNext(g, s, actions[c], t);
    }
  }

  lemma {:induction false} SweptReachable<B(!new)>(
    g: Group<B>, before: seq<Rank<B>>, after: seq<Rank<B>>, actions: seq<Action>)
    requires |before| == |after| == |actions| == g.e.world && Reachable(g, before)
    requires forall q :: 0 <= q < g.e.world ==> Acts(g, Sweep(before, after, q), actions[q], q, after[q])
    ensures Reachable(g, after)
  {
    hide Reachable, Acts;
    SweepReachable(g, before, after, actions, g.e.world);
    assert Sweep(before, after, g.e.world) == after;
  }

  lemma {:induction false} CallActs<B(!new)>(g: Group<B>, s: seq<Rank<B>>, r: nat, m: nat, c: nat)
    requires g.Valid() && m + c < |g.sends| && r < g.e.world && g.WellShaped(s) && s[r] == Starter(g, m, c, r)
    ensures g.Enabled(false, s, Call(r)) && g.Act(s, Call(r)) == Starter(g, m, c + 1, r)
  {
    OpsCall(g, r, m, c);
    OneBufferPerRank(g, m + c);
    hide Group.Valid, Group.WellShaped, Group.Complete, Ops, Results, Upto;
  }

  lemma {:induction false} CallSweep<B(!new)>(g: Group<B>, m: nat, c: nat)
    requires g.Valid() && m + c < |g.sends| && Reachable(g, Started(g, m, c))
    ensures Reachable(g, Started(g, m, c + 1))
  {
    hide Reachable, Group.Valid, Group.WellShaped, Group.Enabled, Group.Act, Starter;
    var before, after := Started(g, m, c), Started(g, m, c + 1);
    var actions := seq(g.e.world, (r: nat) => Call(r));
    forall q | 0 <= q < g.e.world
      ensures Acts(g, Sweep(before, after, q), actions[q], q, after[q])
    {
      if g.WellShaped(Sweep(before, after, q)) {
        CallActs(g, Sweep(before, after, q), q, m, c);
      }
    }
    hide Acts;
    SweptReachable(g, before, after, actions);
  }

  /** All ranks agree on the collectives before place `n`. */
  ghost predicate Begins<B(!new)>(g: Group<B>, s: seq<Rank<B>>, m: nat, n: nat)
    requires g.Valid() && m <= |g.sends| && n <= m + |g.sends|
  {
    |s| == g.e.world && forall q :: 0 <= q < g.e.world ==> Ops(g, q, m, n) <= s[q].issued
  }

  lemma {:induction false} BeginsKinds<B(!new)>(g: Group<B>, s: seq<Rank<B>>, m: nat, n: nat, q: nat, k: nat)
    requires g.Valid() && m <= |g.sends| && n <= m + |g.sends| && Begins(g, s, m, n) && q < g.e.world && k < n
    ensures k < |s[q].issued| && s[q].issued[k] == Ops(g, q, m, n)[k]
  {
    hide Ops;
  }

  lemma {:induction false} BeginsComplete<B(!new)>(g: Group<B>, s: seq<Rank<B>>, m: nat, n: nat, k: nat)
    requires g.Valid() && m <= |g.sends| && n <= m + |g.sends| && Begins(g, s, m, n) && k < n
    ensures g.Complete(s, k, k < 2 * m && k % 2 == 1)
  {
    forall q, i | 0 <= q < g.e.world && 0 <= i <= k
      ensures i < |s[q].issued| && s[q].issued[i].second == (i < 2 * m && i % 2 == 1)
    {
      BeginsKinds(g, s, m, n, q, i);
    }
    hide Begins, Ops, Group.Valid;
  }

  /** When all ranks have started run `j`, rank `r` can reduce it once the pool has taken it up. */
  lemma {:induction false} CanReduce<B(!new)>(g: Group<B>, s: seq<Rank<B>>, r: nat, m: nat, j: nat)
    requires g.WellShaped(s) && r < g.e.world && m <= j < |g.sends| && Begins(g, s, m, m + j + 1)
    requires j !in s[r].reduced && Ahead(s[r].results, j) < POOL_WORKERS
    ensures g.Enabled(false, s, Reduce(r, m + j))
    ensures g.Act(s, Reduce(r, m + j))
         == s[r].(issued := s[r].issued + [SecondOf(g, j, r)], reduced := s[r].reduced + {j})
  {
    var k := m + j;
    BeginsComplete(g, s, m, k + 1, k);
    forall q | 0 <= q < g.e.world
      ensures k < |s[q].issued| && s[q].issued[k] == FirstOf(g, j, q)
    {
      BeginsKinds(g, s, m, k + 1, q, k);
    }
    hide Begins, Ops, Ahead, SecondOf, Group.Row, Group.Complete;
    FirstsForm(g, s, k, j);
    ReduceAct(g, s, r, k);
    SecondIs(g, j, r);
  }

  /** The first collectives of one run carry its buffers. */
  lemma {:induction false} FirstsForm<B(!new)>(g: Group<B>, s: seq<Rank<B>>, k: nat, j: nat)
    requires g.WellShaped(s) && g.Complete(s, k, false) && j < |g.sends|
    requires forall q :: 0 <= q < g.e.world ==> k < |s[q].issued| && s[q].issued[k] == FirstOf(g, j, q)
    ensures g.Data(s, k, false) == g.sends[j]
  {
    OneBufferPerRank(g, j);
    hide Group.Valid, Group.Complete, Group.WellShaped;
  }

  /** The second collectives of one run carry its rows. */
  lemma {:induction false} SecondsForm<B(!new)>(g: Group<B>, s: seq<Rank<B>>, k: nat, j: nat)
    requires g.WellShaped(s) && g.Complete(s, k, true) && j < |g.sends|
    requires forall q :: 0 <= q < g.e.world ==> k < |s[q].issued| && s[q].issued[k] == SecondOf(g, j, q)
    ensures g.Data(s, k, true) == g.Rows(j)
  {
    hide Group.Valid, Group.Complete, Group.WellShaped, Group.Rows;
  }

  lemma ReduceAct<B(!new)>(g: Group<B>, s: seq<Rank<B>>, r: nat, k: nat)
    requires g.WellShaped(s) && g.Enabled(false, s, Reduce(r, k))
    ensures g.Act(s, Reduce(r, k))
         == s[r].(issued := s[r].issued
                            + [Op(s[r].issued[k].job, true, g.Row(AllToAll(g.e, g.Data(s, k, false), r)))],
                  reduced := s[r].reduced + {s[r].issued[k].job})
  {
  }

  lemma SecondIs<B(!new)>(g: Group<B>, j: nat, r: nat)
    requires g.Valid() && j < |g.sends| && r < g.e.world
    ensures SecondOf(g, j, r) == Op(j, true, g.Row(AllToAll(g.e, g.sends[j], r)))
  {
  }

  lemma OpsPrefix<B(!new)>(g: Group<B>, r: nat, m: nat, n: nat, longer: nat)
    requires g.Valid() && r < g.e.world && m <= |g.sends| && n <= longer <= m + |g.sends|
    ensures Ops(g, r, m, n) <= Ops(g, r, m, longer)
  {
    hide Group.Valid;
  }

  lemma {:induction false} BeginsEarlier<B(!new)>(g: Group<B>, s: seq<Rank<B>>, m: nat, n: nat, longer: nat)
    requires g.Valid() && m <= |g.sends| && n <= longer <= m + |g.sends| && Begins(g, s, m, longer)
    ensures Begins(g, s, m, n)
  {
    hide Group.Valid, Ops;
    forall q | 0 <= q < g.e.world
      ensures Ops(g, q, m, n) <= s[q].issued
    {
      OpsPrefix(g, q, m, n, longer);
    }
  }

  lemma {:induction false} ChoosingBegins<B(!new)>(g: Group<B>, ch: Choice, b: nat)
    requires Fits(g, ch) && b <= g.e.world
    ensures Begins(g, Sweep(Started(g, ch.done, ch.window), Chosen(g, ch), b), ch.done, ch.Place())
  {
    hide Group.Valid, Ops, Results, SecondOf, Upto;
  }

  lemma {:induction false} ReduceActs<B(!new)>(g: Group<B>, ch: Choice, s: seq<Rank<B>>, b: nat)
    requires Fits(g, ch) && b < g.e.world && g.WellShaped(s)
    requires Begins(g, s, ch.done, ch.Place()) && s[b] == Starter(g, ch.done, ch.window, b)
    ensures g.Enabled(false, s, Reduce(b, ch.done + ch.Of(b)))
    ensures g.Act(s, Reduce(b, ch.done + ch.Of(b))) == Chooser(g, ch, b)
  {
    hide Group.Valid, Group.WellShaped, Group.Enabled, Group.Act, Ops, Results, SecondOf, Upto, Begins;
    BeginsEarlier(g, s, ch.done, ch.done + ch.Of(b) + 1, ch.Place());
    AheadBound(Results(g, ch.done), ch.done, ch.Of(b));
    CanReduce(g, s, b, ch.done, ch.Of(b));
  }

  lemma {:induction false} ReduceSweep<B(!new)>(g: Group<B>, ch: Choice)
    requires Fits(g, ch) && Reachable(g, Started(g, ch.done, ch.window))
    ensures Reachable(g, Chosen(g, ch))
  {
    hide Reachable, Group.Valid, Group.WellShaped, Group.Enabled, Group.Act, Starter, Chooser;
    var before, after := Started(g, ch.done, ch.window), Chosen(g, ch);
    var actions := seq(g.e.world, (r: nat) => Reduce(r, ch.done + ch.Of(r)));
    forall q | 0 <= q < g.e.world
      ensures Acts(g, Sweep(before, after, q), actions[q], q, after[q])
    {
      if g.WellShaped(Sweep(before, after, q)) {
        ChoosingBegins(g, ch, q);
        ReduceActs(g, ch, Sweep(before, after, q), q);
      }
    }
    hide Acts;
    SweptReachable(g, before, after, actions);
  }

  /** Run `m` alone in flight. */
  function Alone(m: nat): Choice {
    Choice(m, 1, m, 0, m)
  }

  /** Alone in flight, run `m` is delivered right. */
  lemma {:induction false} CanFinish<B(!new)>(g: Group<B>, s: seq<Rank<B>>, r: nat, m: nat)
    requires g.WellShaped(s) && r < g.e.world && m < |g.sends| && Begins(g, s, m + 1, 2 * m + 2)
    requires m !in s[r].results
    ensures g.Enabled(false, s, Finish(r, 2 * m + 1))
    ensures g.Act(s, Finish(r, 2 * m + 1)) == s[r].(results := s[r].results[m := g.Restore(g.Rows(m))])
  {
    hide Begins, Ops, SecondOf, Group.Rows, Group.Restore, Group.Complete, Group.Act, Group.Enabled;
    var k := 2 * m + 1;
    BeginsComplete(g, s, m + 1, k + 1, k);
    forall q | 0 <= q < g.e.world
      ensures k < |s[q].issued| && s[q].issued[k] == SecondOf(g, m, q)
    {
      BeginsKinds(g, s, m + 1, k + 1, q, k);
      OpsNext(g, q, m);
    }
    FinishForm(g, s, r, k, m);
  }

  lemma {:induction false} FinishForm<B(!new)>(g: Group<B>, s: seq<Rank<B>>, r: nat, k: nat, m: nat)
    requires g.WellShaped(s) && r < g.e.world && m < |g.sends| && g.Complete(s, k, true) && m !in s[r].results
    requires forall q :: 0 <= q < g.e.world ==> k < |s[q].issued| && s[q].issued[k] == SecondOf(g, m, q)
    ensures g.Enabled(false, s, Finish(r, k))
    ensures g.Act(s, Finish(r, k)) == s[r].(results := s[r].results[m := g.Restore(g.Rows(m))])
  {
    SecondIs(g, m, r);
    hide SecondOf, Group.Rows, Group.Row, Group.Restore, Group.Complete, Group.Data;
    SecondsForm(g, s, k, m);
    FinishAct(g, s, r, k);
  }

  lemma {:induction false} ResultsNext<B(!new)>(g: Group<B>, m: nat)
    requires g.Valid() && m < |g.sends|
    ensures Results(g, m)[m := g.Restore(g.Rows(m))] == Results(g, m + 1)
  {
    hide Results, Group.Restore, Group.Rows;
  }

  lemma {:induction false} FinishingBegins<B(!new)>(g: Group<B>, m: nat, b: nat)
    requires g.Valid() && m < |g.sends| && b <= g.e.world && g.e.world > 0
    ensures Begins(g, Sweep(Chosen(g, Alone(m)), Started(g, m + 1, 0), b), m + 1, 2 * m + 2)
  {
    hide Group.Valid, Ops, Results, SecondOf, Upto;
    forall q | 0 <= q < g.e.world
      ensures Chooser(g, Alone(m), q).issued == Ops(g, q, m + 1, 2 * m + 2)
    {
      OpsNext(g, q, m);
    }
  }

  lemma {:induction false} FinishActs<B(!new)>(g: Group<B>, m: nat, s: seq<Rank<B>>, b: nat)
    requires g.Valid() && m < |g.sends| && b < g.e.world && g.WellShaped(s)
    requires Begins(g, s, m + 1, 2 * m + 2) && s[b] == Chooser(g, Alone(m), b)
    ensures g.Enabled(false, s, Finish(b, 2 * m + 1))
    ensures g.Act(s, Finish(b, 2 * m + 1)) == Starter(g, m + 1, 0, b)
  {
    ResultsNext(g, m);
    OpsNext(g, b, m);
    assert Upto(m) + {m} == Upto(m + 1);
    hide Group.Valid, Group.WellShaped, Group.Enabled, Group.Act, Ops, SecondOf, Group.Restore, Group.Rows, Results,
         Upto, Begins;
    CanFinish(g, s, b, m);
  }

  lemma {:induction false} FinishSweep<B(!new)>(g: Group<B>, m: nat)
    requires g.Valid() && g.e.world > 0 && m < |g.sends| && Reachable(g, Chosen(g, Alone(m)))
    ensures Reachable(g, Started(g, m + 1, 0))
  {
    hide Reachable, Group.Valid, Group.WellShaped, Group.Enabled, Group.Act, Starter, Chooser;
    var before, after := Chosen(g, Alone(m)), Started(g, m + 1, 0);
    var actions := seq(g.e.world, (r: nat) => Finish(r, 2 * m + 1));
    forall q | 0 <= q < g.e.world
      ensures Acts(g, Sweep(before, after, q), actions[q], q, after[q])
    {
      if g.WellShaped(Sweep(before, after, q)) {
        FinishingBegins(g, m, q);
        FinishActs(g, m, Sweep(before, after, q), q);
      }
    }
    hide Acts;
    SweptReachable(g, before, after, actions);
  }

  lemma {:induction false} NothingStarted<B(!new)>(g: Group<B>)
    requires g.Valid()
    ensures Reachable(g, Started(g, 0, 0))
  {
    var s := Started(g, 0, 0);
    assert Results(g, 0) == map[];
    assert s == seq(g.e.world, _ => Rank([], 0, {}, map[])) by {
      hide Group.Valid, Results;
    }
    hide Started;
    var run, actions: seq<Action> := [s], [];
    assert g.IsRun(false, run, actions) && run[|actions|] == s;
  }

  lemma {:induction false} StartedReachable<B(!new)>(g: Group<B>, m: nat, c: nat)
    requires g.Valid() && g.e.world > 0 && m + c <= |g.sends|
    ensures Reachable(g, Started(g, m, c))
    decreases m, c
  {
    hide Reachable, Group.Valid, Started, Chosen;
    if c > 0 {
      StartedReachable(g, m, c - 1);
      CallSweep(g, m, c - 1);
    } else if m > 0 {
      StartedReachable(g, m - 1, 1);
      ReduceSweep(g, Alone(m - 1));
      FinishSweep(g, m - 1);
    } else {
      NothingStarted(g);
    }
  }

  lemma {:induction false} ReachableShaped<B(!new)>(g: Group<B>, s: seq<Rank<B>>)
    requires Reachable(g, s)
    ensures g.WellShaped(s) && Inv(g, s)
  {
    var run, actions :| g.IsRun(false, run, actions) && run[|actions|] == s;
    RunKeepsInv(g, false, run, actions, |actions|);
  }

  /** The reduced shard that a row carries. */
  function RowShard<B(!new)>(g: Group<B>, row: seq<B>): seq<real>
    requires g.e.Valid() && |row| == g.e.stride
  {
    Dequantize(g.e.codec, g.e.compact, row[..g.e.PayloadNumel()], g.e.groups)
  }

  lemma {:induction false} RestoredRow<B(!new)>(g: Group<B>, rows: seq<seq<B>>, r: nat)
    requires g.e.Valid() && |rows| == g.e.world && Uniform(rows, g.e.stride) && r < g.e.world
    ensures Restored(g.e, AllGather(g.e, rows))[r] == RowShard(g, rows[r])
  {
    SlotOfFlatten(rows, g.e.stride, r);
  }

  /** Restoring is injective in the shards that the rows carry. */
  lemma {:induction false} SameRestoredIff<B(!new)>(g: Group<B>, a: seq<seq<B>>, b: seq<seq<B>>)
    requires g.e.Valid() && |a| == |b| == g.e.world && Uniform(a, g.e.stride) && Uniform(b, g.e.stride)
    ensures g.Restore(a) == g.Restore(b) <==> forall r :: 0 <= r < g.e.world ==> RowShard(g, a[r]) == RowShard(g, b[r])
  {
    var x, y := Restored(g.e, AllGather(g.e, a)), Restored(g.e, AllGather(g.e, b));
    RestoredLengths(g.e, AllGather(g.e, a));
    RestoredLengths(g.e, AllGather(g.e, b));
    forall r | 0 <= r < g.e.world
      ensures x[r] == RowShard(g, a[r]) && y[r] == RowShard(g, b[r])
      ensures Flatten(x) == Flatten(y) ==> x[r] == y[r]
    {
      RestoredRow(g, a, r);
      RestoredRow(g, b, r);
      FlattenBlock(x, g.e.ShardNumel(), r);
      FlattenBlock(y, g.e.ShardNumel(), r);
    }
    hide RowShard, Restored, AllGather, Flatten;
    if forall r :: 0 <= r < g.e.world ==> RowShard(g, a[r]) == RowShard(g, b[r]) {
      assert x == y;
    }
  }

  /** Every reduced shard restores the same in all runs. */
  ghost predicate SameShards<B(!new)>(g: Group<B>)
    requires g.Valid()
  {
    forall i, j, q :: 0 <= i < |g.sends| && 0 <= j < |g.sends| && 0 <= q < g.e.world ==>
      RowShard(g, g.Rows(i)[q]) == RowShard(g, g.Rows(j)[q])
  }

  /** What run `j` has to deliver: the image of the mean of its inputs. */
  ghost function ResultOf<B(!new)>(g: Group<B>, j: nat): (result: seq<real>)
    requires g.Valid() && j < |g.sends|
    ensures result == g.Restore(g.Rows(j))
  {
    RestoreIsImageOfMean(g, j);
    Image(g.e.codec, ReducedTensor(g.e, g.inputs[j]), g.e.world * g.e.groups)
  }

  /** All runs have one result, whatever becomes of them. */
  ghost predicate SameResults<B(!new)>(g: Group<B>)
    requires g.Valid()
  {
    forall i, j :: 0 <= i < |g.sends| && 0 <= j < |g.sends| ==> ResultOf(g, i) == ResultOf(g, j)
  }

  lemma {:induction false} SameShardsIff<B(!new)>(g: Group<B>)
    requires g.Valid()
    ensures SameShards(g) <==> SameResults(g)
  {
    hide RowShard, Group.Restore, Group.Rows;
    forall i, j | 0 <= i < |g.sends| && 0 <= j < |g.sends|
      ensures ResultOf(g, i) == ResultOf(g, j)
         <==> forall q :: 0 <= q < g.e.world ==> RowShard(g, g.Rows(i)[q]) == RowShard(g, g.Rows(j)[q])
    {
      SameRestoredIff(g, g.Rows(i), g.Rows(j));
    }
    hide ResultOf, Group.Valid;
  }

  /** In every reachable state every result of every rank is the one of its run. */
  ghost predicate AlwaysRight<B(!new)>(g: Group<B>)
    requires g.Valid()
  {
    forall s :: Reachable(g, s) ==> AllRight(g, s)
  }

  /** With equal shards a mixture is the result of any one run. */
  lemma {:induction false} MixtureOfEqualShards<B(!new)>(g: Group<B>, r: nat, j: nat, value: seq<real>)
    requires g.Valid() && SameShards(g) && r < g.e.world && j < |g.sends| && IsMixture(g, r, j, value)
    ensures value == g.Restore(g.Rows(j))
  {
    var jobs: seq<nat> :|
      && |jobs| == g.e.world && (forall q :: 0 <= q < |jobs| ==> jobs[q] < |g.sends|)
      && jobs[r] == j && value == g.Restore(Mix(g, jobs));
    SameRestoredIff(g, Mix(g, jobs), g.Rows(j));
    hide RowShard, Group.Restore, Group.Rows;
    forall q | 0 <= q < g.e.world
      ensures RowShard(g, Mix(g, jobs)[q]) == RowShard(g, g.Rows(j)[q])
    {
      assert Mix(g, jobs)[q] == g.Rows(jobs[q])[q];
    }
  }

  /** The choices of all ranks form one collective. */
  lemma {:induction false} SecondsFormOne<B(!new)>(g: Group<B>, ch: Choice, s: seq<Rank<B>>)
    requires Fits(g, ch) && g.WellShaped(s) && s == Chosen(g, ch)
    ensures g.Complete(s, ch.Place(), true)
    ensures forall q :: 0 <= q < g.e.world ==>
              ch.Place() < |s[q].issued| && s[q].issued[ch.Place()].job == ch.Of(q)
              && s[q].results == Results(g, ch.done)
  {
    hide Group.Valid, Group.WellShaped, Results;
    forall q, i | 0 <= q < g.e.world && 0 <= i <= ch.Place()
      ensures i < |s[q].issued|
      ensures s[q].issued[i].second == if i == ch.Place() then true else i < 2 * ch.done && i % 2 == 1
    {
      assert s[q] == Chooser(g, ch, q);
    }
  }

  lemma {:induction false} ChosenCompletes<B(!new)>(g: Group<B>, ch: Choice)
    requires Fits(g, ch)
    ensures var s, n := Chosen(g, ch), ch.Place();
            && Reachable(g, s) && g.WellShaped(s) && Inv(g, s) && g.Complete(s, n, true)
            && forall q :: 0 <= q < g.e.world ==>
                 n < |s[q].issued| && s[q].issued[n].job == ch.Of(q) && s[q].results == Results(g, ch.done)
  {
    StartedReachable(g, ch.done, ch.window);
    ReduceSweep(g, ch);
    ReachableShaped(g, Chosen(g, ch));
    hide Reachable, Inv, Group.WellShaped, Group.Complete, Chosen, Results;
    SecondsFormOne(g, ch, Chosen(g, ch));
  }

  /** After any number of finished runs all ranks start a number of further runs; then one rank reduces another of
      those that the pool has taken up than the rest.  Every other rank's first result is the common run's with the
      odd rank's shard of the other run, and it is right exactly if that shard restores the same. */
  lemma {:induction false} OverlapMixesRuns<B(!new)>(g: Group<B>, ch: Choice, r: nat)
    requires Fits(g, ch) && r < g.e.world && r != ch.odd
    ensures var s := Chosen(g, ch);
            && Reachable(g, s) && g.WellShaped(s) && g.Enabled(false, s, Finish(r, ch.Place()))
            && RankIsRight(g, s[r])
            && var next := g.Act(s, Finish(r, ch.Place()));
               && next.results.Keys == s[r].results.Keys + {ch.common} && ch.common !in s[r].results
               && (RankIsRight(g, next) <==>
                     RowShard(g, g.Rows(ch.other)[ch.odd]) == RowShard(g, g.Rows(ch.common)[ch.odd]))
  {
    hide Chosen, Reachable, Inv, RowShard, Group.Restore, Group.Data, Group.Rows, Group.Act;
    var s, n := Chosen(g, ch), ch.Place();
    ChosenCompletes(g, ch);
    assert g.Enabled(false, s, Finish(r, n));
    SecondsAreMixed(g, s, n);
    FinishAct(g, s, r, n);
    var jobs := JobsAt(g, s, n);
    var rows := Mix(g, jobs);
    assert g.Act(s, Finish(r, n)).results == Results(g, ch.done)[ch.common := g.Restore(rows)];
    SameRestoredIff(g, rows, g.Rows(ch.common));
    hide Group.WellShaped, Group.Enabled, Group.Complete, JobsAt;
    forall q | 0 <= q < g.e.world
      ensures rows[q] == g.Rows(ch.Of(q))[q]
    {
      assert jobs[q] == ch.Of(q);
    }
    assert rows[ch.odd] == g.Rows(ch.other)[ch.odd];
  }

  lemma {:induction false} EqualShardsAreRight<B(!new)>(g: Group<B>, s: seq<Rank<B>>)
    requires g.Valid() && SameShards(g) && Reachable(g, s)
    ensures AllRight(g, s)
  {
    ReachableShaped(g, s);
    hide Reachable, SameShards, RowShard, Group.Restore, Group.Rows, IsMixture;
    forall r, j | 0 <= r < |s| && j in s[r].results
      ensures j < |g.sends| && s[r].results[j] == g.Restore(g.Rows(j))
    {
      InvOf(g, s, r);
      MixtureOfEqualShards(g, r, j, s[r].results[j]);
    }
  }

  lemma {:induction false} UnequalShardsAreMixed<B(!new)>(g: Group<B>, i: nat, q: nat)
    returns (t: seq<Rank<B>>)
    requires g.Valid() && g.e.world >= 2 && i + 1 < |g.sends| && q < g.e.world
    requires RowShard(g, g.Rows(i)[q]) != RowShard(g, g.Rows(i + 1)[q])
    ensures Reachable(g, t) && !AllRight(g, t)
  {
    hide RowShard, Group.Rows, Reachable, Chosen, Group.Act, Group.WellShaped, Group.Enabled, RankIsRight;
    var ch, r := Choice(i, 2, i + 1, q, i), if q == 0 then 1 else 0;
    OverlapMixesRuns(g, ch, r);
    var s := Chosen(g, ch);
    t := s[r := g.Act(s, Finish(r, ch.Place()))];
    ReachNext(g, s, Finish(r, ch.Place()), t);
    assert !RankIsRight(g, t[r]);
  }

  /** If the shards of one rank differ anywhere, they differ between two neighbouring runs. */
  lemma {:induction false} NeighboursDiffer<B(!new)>(g: Group<B>, i: nat, j: nat, q: nat) returns (k: nat)
    requires g.Valid() && i < j < |g.sends| && q < g.e.world
    requires RowShard(g, g.Rows(i)[q]) != RowShard(g, g.Rows(j)[q])
    ensures k + 1 < |g.sends| && RowShard(g, g.Rows(k)[q]) != RowShard(g, g.Rows(k + 1)[q])
    decreases j
  {
    hide RowShard, Group.Rows;
    k := j - 1;
    if RowShard(g, g.Rows(k)[q]) == RowShard(g, g.Rows(j)[q]) {
      k := NeighboursDiffer(g, i, j - 1, q);
    }
  }

  lemma {:induction false} SameShardsAreRight<B(!new)>(g: Group<B>)
    requires g.Valid() && SameShards(g)
    ensures AlwaysRight(g)
  {
    hide Reachable, AllRight, SameShards, Group.Valid;
    forall s: seq<Rank<B>> | Reachable(g, s)
      ensures AllRight(g, s)
    {
      EqualShardsAreRight(g, s);
    }
  }

  lemma {:induction false} OtherShardsGoWrong<B(!new)>(g: Group<B>)
    requires g.Valid() && g.e.world >= 2 && !SameShards(g)
    ensures !AlwaysRight(g)
  {
    hide Reachable, AllRight, RowShard, Group.Rows;
    var i, j, q :| 0 <= i < |g.sends| && 0 <= j < |g.sends| && 0 <= q < g.e.world
                   && RowShard(g, g.Rows(i)[q]) != RowShard(g, g.Rows(j)[q]);
    var k := NeighboursDiffer(g, if i < j then i else j, if i < j then j else i, q);
    var _ := UnequalShardsAreMixed(g, k, q);
  }

  /** Runs in flight, on any number of ranks: every result in every run of the machine is right exactly if
      all runs have the same result anyway. */
  lemma {:induction false} OverlapIsRightIff<B(!new)>(g: Group<B>)
    requires g.Valid() && g.e.world >= 2
    ensures AlwaysRight(g) <==> SameResults(g)
  {
    hide AlwaysRight, SameShards, SameResults, Group.Valid;
    SameShardsIff(g);
    if SameShards(g) {
      SameShardsAreRight(g);
    } else {
      OtherShardsGoWrong(g);
    }
  }

  /** Two ranks have issued collectives of different kinds as their `k`-th. */
  ghost predicate Mismatch<B(!new)>(s: seq<Rank<B>>, r: nat, q: nat, k: nat) {
    && r < |s| && q < |s| && k < |s[r].issued| && k < |s[q].issued|
    && s[r].issued[k].second != s[q].issued[k].second
  }

  /** With one run a rank issues its first and then its second collective. */
  ghost predicate FirstThenSecond<B(!new)>(rank: Rank<B>) {
    && rank.called <= 1 && |rank.issued| == rank.called + (if 0 in rank.reduced then 1 else 0)
    && (0 in rank.reduced ==> rank.called == 1)
    && (|rank.issued| > 0 ==> !rank.issued[0].second)
    && (|rank.issued| > 1 ==> rank.issued[1].second)
  }

  lemma {:induction false} SingleRunStep<B(!new)>(g: Group<B>, s: seq<Rank<B>>, a: Action)
    requires g.WellShaped(s) && g.Enabled(false, s, a) && |g.sends| <= 1 && FirstThenSecond(s[a.rank])
    ensures FirstThenSecond(g.Act(s, a))
  {
    hide Group.Row, Group.Data, Group.Restore, AllToAll;
  }

  lemma {:induction false} SingleRunInOrder<B(!new)>(
    g: Group<B>, run: seq<seq<Rank<B>>>, actions: seq<Action>, i: nat)
    requires g.IsRun(false, run, actions) && i < |run| && |g.sends| <= 1
    ensures forall r :: 0 <= r < |run[i]| ==> FirstThenSecond(run[i][r])
  {
    if i > 0 {
      var s, a, t := run[i - 1], actions[i - 1], run[i - 1 + 1];
      SingleRunInOrder(g, run, actions, i - 1);
      assert g.Steps(false, s, a, t);
      StepShaped(g, false, s, a, t);
      assert FirstThenSecond(s[a.rank]);
      SingleRunStep(g, s, a);
      hide FirstThenSecond, Group.Act, Group.WellShaped, Group.Enabled;
    }
  }

  lemma {:induction false} FirstRunReduces<B(!new)>(g: Group<B>)
    requires g.Valid() && g.e.world > 0 && |g.sends| >= 1 && g.WellShaped(Started(g, 0, 1))
    ensures var s := Started(g, 0, 1);
            && g.Enabled(false, s, Reduce(0, 0))
            && g.Act(s, Reduce(0, 0)) == s[0].(issued := s[0].issued + [SecondOf(g, 0, 0)], reduced := {0})
  {
    var s := Started(g, 0, 1);
    hide Group.Valid, Group.WellShaped, Group.Enabled, Group.Act, Ops, SecondOf, Results;
    forall q | 0 <= q < g.e.world
      ensures Ops(g, q, 0, 1) <= s[q].issued
    {
      assert s[q] == Starter(g, 0, 1, q);
    }
    CanReduce(g, s, 0, 0, 0);
  }

  /** Two runs in flight block: after rank 0 has gone on and rank 1 has not, their second calls differ in kind. */
  lemma {:induction false} OverlapBlocks<B(!new)>(g: Group<B>) returns (s: seq<Rank<B>>)
    requires g.Valid() && g.e.world >= 2 && |g.sends| >= 2
    ensures Reachable(g, s) && Mismatch(s, 0, 1, 1)
  {
    hide Reachable, Inv, Ops, SecondOf, Results, Group.Act, Group.Enabled, Group.WellShaped, Group.Valid;
    var started := Started(g, 0, 1);
    StartedReachable(g, 0, 1);
    ReachableShaped(g, started);
    FirstRunReduces(g);
    var reduced := started[0 := g.Act(started, Reduce(0, 0))];
    ReachNext(g, started, Reduce(0, 0), reduced);
    ReachableShaped(g, reduced);
    CallActs(g, reduced, 1, 0, 1);
    s := reduced[1 := Starter(g, 0, 2, 1)];
    ReachNext(g, reduced, Call(1), s);
    SecondIsSecond(g, 0, 0);
  }

  lemma SecondIsSecond<B(!new)>(g: Group<B>, j: nat, r: nat)
    requires g.Valid() && j < |g.sends| && r < g.e.world
    ensures SecondOf(g, j, r).second
  {
  }

  lemma {:induction false} SingleRunReachable<B(!new)>(g: Group<B>, s: seq<Rank<B>>)
    requires |g.sends| <= 1 && Reachable(g, s)
    ensures forall r :: 0 <= r < |s| ==> FirstThenSecond(s[r])
  {
    hide FirstThenSecond, Group.Steps;
    var run, actions :| g.IsRun(false, run, actions) && run[|actions|] == s;
    SingleRunInOrder(g, run, actions, |actions|);
  }

  lemma KindsByPlace<B(!new)>(s: seq<Rank<B>>, r: nat, q: nat, k: nat)
    requires forall p :: 0 <= p < |s| ==> FirstThenSecond(s[p])
    ensures !Mismatch(s, r, q, k)
  {
  }

  lemma {:induction false} NeverMismatched<B(!new)>(g: Group<B>, s: seq<Rank<B>>, r: nat, q: nat, k: nat)
    requires g.Valid() && (g.e.world < 2 || |g.sends| < 2) && Reachable(g, s)
    ensures !Mismatch(s, r, q, k)
  {
    hide Reachable, Inv, Group.Valid, FirstThenSecond;
    if |g.sends| <= 1 {
      SingleRunReachable(g, s);
      KindsByPlace(s, r, q, k);
    } else {
      ReachableShaped(g, s);
    }
  }

  /** Ranks can come to wait for each other forever exactly if there are at least two ranks and two runs. */
  lemma {:induction false} CanBlockIff<B(!new)>(g: Group<B>)
    requires g.Valid()
    ensures (exists s: seq<Rank<B>>, r, q, k :: Reachable(g, s) && Mismatch(s, r, q, k))
       <==> g.e.world >= 2 && |g.sends| >= 2
  {
    hide Reachable, Mismatch;
    if g.e.world >= 2 && |g.sends| >= 2 {
      var s := OverlapBlocks(g);
    } else {
      forall s: seq<Rank<B>>, r, q, k | Reachable(g, s)
        ensures !Mismatch(s, r, q, k)
      {
        NeverMismatched(g, s, r, q, k);
      }
    }
  }

  // ---------------------------------------------------------------------------
  // A group for which it goes wrong.

  /** A send buffer for one tensor, with zeros behind the payloads. */
  ghost function SendOf<B(!new)>(e: Exchange<B>, x: seq<real>, zero: B): (send: seq<B>)
    requires e.Valid() && |x| <= e.Padded()
    ensures SendsChunks(e, x, send)
  {
    var slots := seq(e.world, d requires 0 <= d < e.world => SlotOf(e, x, zero, d));
    assert forall d :: 0 <= d < e.world ==> SlotPayload(e, Flatten(slots), d) == ChunkPayload(e, x, d) by {
      FlattenLength(slots, e.stride);
      forall d | 0 <= d < e.world {
        SlotOfFlatten(slots, e.stride, d);
      }
    }
    FlattenLength(slots, e.stride);
    Flatten(slots)
  }

  ghost function SlotOf<B(!new)>(e: Exchange<B>, x: seq<real>, zero: B, d: nat): (slot: seq<B>)
    requires e.Valid() && |x| <= e.Padded() && d < e.world
    ensures |slot| == e.stride && slot[..e.PayloadNumel()] == ChunkPayload(e, x, d)
  {
    PayloadLength(e.codec, e.compact, Block(Pad(x, e.Padded()), e.ShardNumel(), e.world, d), e.groups);
    ChunkPayload(e, x, d) + seq(e.stride - e.PayloadNumel(), _ => zero)
  }

  /** The group of two runs with the given inputs. */
  ghost function TwoRuns<B(!new)>(e: Exchange<B>, x: seq<seq<real>>, y: seq<seq<real>>, zero: B): (g: Group<B>)
    requires e.Valid() && |x| == |y| == e.world
    requires forall r :: 0 <= r < e.world ==> |x[r]| <= e.Padded() && |y[r]| <= e.Padded()
    ensures g.Valid() && g.e == e && g.inputs == [x, y] && |g.sends| == 2
  {
    Group(e, [x, y], [seq(e.world, r requires 0 <= r < e.world => SendOf(e, x[r], zero)),
                      seq(e.world, r requires 0 <= r < e.world => SendOf(e, y[r], zero))], zero)
  }

  /** Two runs with different means go wrong in some interleaving, even with a lossless codec. */
  lemma {:induction false} DifferentMeansGoWrong<B(!new)>(g: Group<B>, i: nat, j: nat, numel: nat)
    requires g.Valid() && g.e.world >= 2 && g.e.codec.Lossless() && i < |g.sends| && j < |g.sends|
    requires |g.inputs[i]| == |g.inputs[j]| == g.e.world && numel <= g.e.Padded()
    requires Uniform(g.inputs[i], numel) && Uniform(g.inputs[j], numel)
    requires MeanOf(g.inputs[i], numel) != MeanOf(g.inputs[j], numel)
    ensures !AlwaysRight(g)
  {
    OverlapIsRightIff(g);
    forall k | k == i || k == j
      ensures |ResultOf(g, k)| >= numel && ResultOf(g, k)[..numel] == MeanOf(g.inputs[k], numel)
    {
      RestoreIsImageOfMean(g, k);
      LosslessImage(g.e.codec, ReducedTensor(g.e, g.inputs[k]), g.e.world * g.e.groups);
      LosslessReduced(g.e, g.inputs[k], numel);
      Regroup(g.e.world, g.e.groups, g.e.codec.groupSize);
    }
    hide ResultOf, AlwaysRight;
  }

  /** Two ranks, two runs of one element each: all ones, and all zeros. */
  lemma {:induction false} OverlapCanGoWrong()
    ensures exists g: Group<real> ::
              && g.Valid() && g.e.codec == Verbatim(16, FP32) && g.e.codec.Lossless() && g.e.world == 2
              && g.inputs == [[[1.0], [1.0]], [[0.0], [0.0]]] && !AlwaysRight(g)
  {
    VerbatimExchange();
    MeansDiffer();
    hide Verbatim, Codec.Lossless, Codec.Valid, MeanOf, TwoRuns, AlwaysRight, Group.Valid;
    var g := TwoRuns(SMALL, [[1.0], [1.0]], [[0.0], [0.0]], 0.0);
    DifferentMeansGoWrong(g, 0, 1, 1);
  }

  const SMALL: Exchange<real> := Exchange(Verbatim(16, FP32), false, 2, 1, 32)

  lemma VerbatimExchange()
    ensures SMALL.Valid() && SMALL.codec.Lossless() && SMALL.Padded() == 32
  {
    var wire := QuantizedWire(8, 16, "linear", false);
    assert !IsSpace(wire.quantType[0]);
    VerbatimIsLossless(wire, FP32);
  }

  lemma MeansDiffer()
    ensures MeanOf([[1.0], [1.0]], 1) != MeanOf([[0.0], [0.0]], 1)
  {
    var ones, zeros := [[1.0], [1.0]], [[0.0], [0.0]];
    assert Column(ones, 1, 0) == [] + [1.0] + [1.0] && Column(zeros, 1, 0) == [0.0, 0.0];
    SumAppend([] + [1.0], 1.0);
    SumAppend([], 1.0);
    SumZero([0.0, 0.0]);
    hide Sum;
    assert MeanOf(ones, 1)[0] == 1.0 && MeanOf(zeros, 1)[0] == 0.0;
  }
}
