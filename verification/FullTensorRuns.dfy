/** Full-tensor runs in flight on one process group: the first collective of a run is issued by the caller, the
    second by one of the pool's threads when the first has completed.  The k-th collectives of all ranks form one. */
module FullTensorRuns {
  import opened Sequences
  import opened Codecs
  import opened Executors
  import opened Collectives

  /** A collective as one rank issued it. */
  datatype Op<B> = Op(job: nat, second: bool, data: seq<B>)

  /** `issued` in issue order; `called` runs were started, `reduced` ones have issued their second collective. */
  datatype Rank<B> = Rank(issued: seq<Op<B>>, called: nat, reduced: set<nat>, results: map<nat, seq<real>>)

  const POOL_WORKERS: nat := 8

  /** The runs before run `j` that have not delivered.  The pool takes up runs in the order in which they were
      started, so run `j` has a worker once they are fewer than the workers. */
  function Ahead(results: map<nat, seq<real>>, j: nat): nat {
    if j == 0 then 0 else Ahead(results, j - 1) + if j - 1 in results then 0 else 1
  }

  lemma {:induction false} AheadBound(results: map<nat, seq<real>>, m: nat, j: nat)
    requires m <= j && forall i :: 0 <= i < m ==> i in results
    ensures Ahead(results, j) <= j - m
  {
    if j > m {
      AheadBound(results, m, j - 1);
    } else if j > 0 {
      AheadBound(results, m - 1, j - 1);
    }
  }

  /** `sends[j][r]` is the send buffer of rank `r` for run `j`, prepared from `inputs[j][r]`. */
  datatype Group<!B(!new)> =
    Group(e: Exchange<B>, inputs: seq<seq<seq<real>>>, sends: seq<seq<seq<B>>>, zero: B)
  {
    ghost predicate Valid() {
      && e.Valid() && |inputs| == |sends|
      && forall j :: 0 <= j < |sends| ==> AllSend(e, inputs[j], sends[j]) && Uniform(sends[j], e.world * e.stride)
    }

    /** What the requantize kernel leaves in the reduced payload. */
    function Row(received: seq<B>): (row: seq<B>)
      requires e.Valid() && |received| == e.world * e.stride
      ensures |row| == e.stride
      ensures row[..e.PayloadNumel()] == Payload(e.codec, e.compact, ReduceMean(e, received), e.groups)
    {
      PayloadLength(e.codec, e.compact, ReduceMean(e, received), e.groups);
      Payload(e.codec, e.compact, ReduceMean(e, received), e.groups) + seq(e.stride - e.PayloadNumel(), _ => zero)
    }

    function Rows(j: nat): (rows: seq<seq<B>>)
      requires Valid() && j < |sends|
      ensures |rows| == e.world && Uniform(rows, e.stride)
    {
      seq(e.world, r requires 0 <= r < e.world => Row(AllToAll(e, sends[j], r)))
    }

    function Restore(rows: seq<seq<B>>): seq<real>
      requires e.Valid() && |rows| == e.world && Uniform(rows, e.stride)
    {
      Flatten(Restored(e, AllGather(e, rows)))
    }

    function Width(second: bool): nat {
      if second then e.stride else e.world * e.stride
    }

    ghost predicate WellShaped(s: seq<Rank<B>>) {
      && Valid() && |s| == e.world
      && forall r, k :: 0 <= r < e.world && 0 <= k < |s[r].issued| ==>
           s[r].issued[k].job < |sends| && |s[r].issued[k].data| == Width(s[r].issued[k].second)
    }

    /** The `k`-th collective completes when every rank has issued it as the same kind of call, and so the ones
        before it: the calls on one group are executed in order. */
    ghost predicate Complete(s: seq<Rank<B>>, k: nat, second: bool)
      requires |s| == e.world
    {
      && (forall r :: 0 <= r < e.world ==> k < |s[r].issued| && s[r].issued[k].second == second)
      && forall r, q, i :: 0 <= r < e.world && 0 <= q < e.world && 0 <= i < k ==>
           s[r].issued[i].second == s[q].issued[i].second
    }

    ghost function Data(s: seq<Rank<B>>, k: nat, second: bool): (data: seq<seq<B>>)
      requires WellShaped(s) && Complete(s, k, second)
      ensures |data| == e.world && Uniform(data, Width(second))
      ensures forall r :: 0 <= r < e.world ==> data[r] == s[r].issued[k].data
    {
      seq(e.world, r requires 0 <= r < e.world => s[r].issued[k].data)
    }

    /** With `serial`, a rank starts a run only when its earlier runs have delivered. */
    ghost predicate Enabled(serial: bool, s: seq<Rank<B>>, a: Action)
      requires WellShaped(s)
    {
      && a.rank < e.world
      && var rank := s[a.rank];
         match a
         case Call(_) =>
           rank.called < |sends| && (serial ==> forall j :: 0 <= j < rank.called ==> j in rank.results)
         case Reduce(_, k) =>
           && k < |rank.issued| && rank.issued[k].job !in rank.reduced && Complete(s, k, false)
           && Ahead(rank.results, rank.issued[k].job) < POOL_WORKERS
         case Finish(_, k) => k < |rank.issued| && rank.issued[k].job !in rank.results && Complete(s, k, true)
    }

    /** What the acting rank becomes. */
    ghost function Act(s: seq<Rank<B>>, a: Action): Rank<B>
      requires WellShaped(s) && Enabled(false, s, a)
    {
      var rank := s[a.rank];
      match a
      case Call(r) =>
        rank.(issued := rank.issued + [Op(rank.called, false, sends[rank.called][r])], called := rank.called + 1)
      case Reduce(r, k) =>
        var j := rank.issued[k].job;
        rank.(issued := rank.issued + [Op(j, true, Row(AllToAll(e, Data(s, k, false), r)))],
              reduced := rank.reduced + {j})
      case Finish(_, k) =>
        rank.(results := rank.results[rank.issued[k].job := Restore(Data(s, k, true))])
    }

    ghost predicate Steps(serial: bool, s: seq<Rank<B>>, a: Action, t: seq<Rank<B>>) {
      && WellShaped(s) && Enabled(serial, s, a) && Enabled(false, s, a)
      && t == s[a.rank := Act(s, a)]
    }

    ghost predicate IsRun(serial: bool, run: seq<seq<Rank<B>>>, actions: seq<Action>) {
      && Valid()
      && |run| == |actions| + 1
      && run[0] == seq(e.world, _ => Rank([], 0, {}, map[]))
      && forall i :: 0 <= i < |actions| ==> Steps(serial, run[i], actions[i], run[i + 1])
    }
  }

  datatype Action = Call(rank: nat) | Reduce(rank: nat, k: nat) | Finish(rank: nat, k: nat)

  lemma {:induction false} AheadCounts(results: map<nat, seq<real>>, j: nat)
    ensures Ahead(results, j) == |set i: nat | i < j && i !in results|
  {
    if j > 0 {
      AheadCounts(results, j - 1);
      var before, all := set i: nat | i < j - 1 && i !in results, set i: nat | i < j && i !in results;
      assert all == if j - 1 in results then before else before + {j - 1};
    }
  }

  /** A run whose first collective has completed goes on exactly if fewer than eight earlier runs of the rank have yet
      to deliver. */
  lemma {:induction false} GoesOnIff<B(!new)>(g: Group<B>, s: seq<Rank<B>>, r: nat, k: nat)
    requires g.WellShaped(s) && r < g.e.world && g.Complete(s, k, false) && s[r].issued[k].job !in s[r].reduced
    ensures g.Enabled(false, s, Reduce(r, k)) <==> |set i: nat | i < s[r].issued[k].job && i !in s[r].results| < 8
  {
    AheadCounts(s[r].results, s[r].issued[k].job);
  }

  // ---------------------------------------------------------------------------
  // What holds in every run.

  /** The rows of all ranks, each from a run of its own. */
  function Mix<B(!new)>(g: Group<B>, jobs: seq<nat>): (rows: seq<seq<B>>)
    requires g.Valid() && |jobs| == g.e.world && forall q :: 0 <= q < |jobs| ==> jobs[q] < |g.sends|
    ensures |rows| == g.e.world && Uniform(rows, g.e.stride)
  {
    seq(g.e.world, q requires 0 <= q < g.e.world => g.Rows(jobs[q])[q])
  }

  ghost predicate OpIsRight<B(!new)>(g: Group<B>, op: Op<B>, r: nat)
    requires g.Valid() && r < g.e.world
  {
    && op.job < |g.sends| && |g.sends[op.job]| == g.e.world
    && op.data == if op.second then g.Rows(op.job)[r] else g.sends[op.job][r]
  }

  /** A result of rank `r` for run `j` is restored from its own row of that run and, of every other rank, a row of
      some run. */
  ghost predicate IsMixture<B(!new)>(g: Group<B>, r: nat, j: nat, value: seq<real>)
    requires g.Valid() && r < g.e.world
  {
    exists jobs: seq<nat> ::
      && |jobs| == g.e.world && (forall q :: 0 <= q < |jobs| ==> jobs[q] < |g.sends|)
      && jobs[r] == j && value == g.Restore(Mix(g, jobs))
  }

  /** The first collectives among some. */
  function Firsts<B>(issued: seq<Op<B>>): nat {
    if issued == [] then 0
    else Firsts(issued[..|issued| - 1]) + if issued[|issued| - 1].second then 0 else 1
  }

  /** First collectives are issued in the order of the runs. */
  ghost predicate InProgramOrder<B(!new)>(rank: Rank<B>) {
    && rank.called == Firsts(rank.issued)
    && forall k :: 0 <= k < |rank.issued| && !rank.issued[k].second ==>
         rank.issued[k].job == Firsts(rank.issued[..k])
  }

  ghost predicate RankInv<B(!new)>(g: Group<B>, rank: Rank<B>, r: nat)
    requires g.Valid() && r < g.e.world
  {
    && InProgramOrder(rank)
    && (forall k :: 0 <= k < |rank.issued| ==> OpIsRight(g, rank.issued[k], r))
    && (forall j :: j in rank.results ==> j < |g.sends| && IsMixture(g, r, j, rank.results[j]))
  }

  ghost predicate Inv<B(!new)>(g: Group<B>, s: seq<Rank<B>>)
    requires g.WellShaped(s)
  {
    forall r :: 0 <= r < |s| ==> RankInv(g, s[r], r)
  }

  lemma {:induction false} StepShaped<B(!new)>(g: Group<B>, serial: bool, s: seq<Rank<B>>, a: Action, t: seq<Rank<B>>)
    requires g.Steps(serial, s, a, t)
    ensures g.WellShaped(t) && a.rank < |s| == |t|
    ensures forall r :: 0 <= r < |s| ==> s[r].issued <= t[r].issued && (r != a.rank ==> t[r] == s[r])
  {
    if a.Call? {
      assert Uniform(g.sends[s[a.rank].called], g.e.world * g.e.stride);
    }
  }

  lemma OneBufferPerRank<B(!new)>(g: Group<B>, j: nat)
    requires g.Valid() && j < |g.sends|
    ensures |g.sends[j]| == g.e.world
  {
    assert AllSend(g.e, g.inputs[j], g.sends[j]);
  }

  lemma {:induction false} FirstsAgree<B(!new)>(a: seq<Op<B>>, b: seq<Op<B>>, k: nat)
    requires k <= |a| && k <= |b| && forall i :: 0 <= i < k ==> a[i].second == b[i].second
    ensures Firsts(a[..k]) == Firsts(b[..k])
  {
    if k > 0 {
      FirstsAgree(a, b, k - 1);
      assert a[..k][..k - 1] == a[..k - 1] && b[..k][..k - 1] == b[..k - 1];
    }
  }

  /** The first collectives that form one are always those of one run. */
  lemma {:induction false} FirstsAreMatched<B(!new)>(g: Group<B>, s: seq<Rank<B>>, r: nat, k: nat)
    requires g.WellShaped(s) && Inv(g, s) && r < |s| && g.Complete(s, k, false)
    ensures s[r].issued[k].job < |g.sends| && g.Data(s, k, false) == g.sends[s[r].issued[k].job]
  {
    var j := s[r].issued[k].job;
    OneBufferPerRank(g, j);
    forall q | 0 <= q < g.e.world
      ensures g.Data(s, k, false)[q] == g.sends[j][q]
    {
      assert RankInv(g, s[q], q) && RankInv(g, s[r], r) && OpIsRight(g, s[q].issued[k], q);
      FirstsAgree(s[r].issued, s[q].issued, k);
    }
  }

  /** The runs whose rows form the `k`-th collective. */
  ghost function JobsAt<B(!new)>(g: Group<B>, s: seq<Rank<B>>, k: nat): (jobs: seq<nat>)
    requires g.WellShaped(s) && g.Complete(s, k, true)
    ensures |jobs| == g.e.world && forall q :: 0 <= q < |jobs| ==> jobs[q] == s[q].issued[k].job < |g.sends|
  {
    seq(g.e.world, q requires 0 <= q < g.e.world => s[q].issued[k].job)
  }

  lemma {:induction false} SecondsAreMixed<B(!new)>(g: Group<B>, s: seq<Rank<B>>, k: nat)
    requires g.WellShaped(s) && Inv(g, s) && g.Complete(s, k, true)
    ensures g.Data(s, k, true) == Mix(g, JobsAt(g, s, k))
  {
    forall q | 0 <= q < g.e.world
      ensures g.Data(s, k, true)[q] == Mix(g, JobsAt(g, s, k))[q]
    {
      assert RankInv(g, s[q], q) && OpIsRight(g, s[q].issued[k], q);
    }
  }

  lemma {:induction false} AppendInOrder<B(!new)>(rank: Rank<B>, next: Rank<B>, op: Op<B>)
    requires InProgramOrder(rank) && next.issued == rank.issued + [op]
    requires if op.second then next.called == rank.called else op.job == rank.called && next.called == rank.called + 1
    ensures InProgramOrder(next)
  {
    FirstsAppend(rank.issued, op);
    hide Firsts;
    var n := |rank.issued|;
    forall k | 0 <= k <= n && !next.issued[k].second
      ensures next.issued[k].job == Firsts(next.issued[..k])
    {
      assert next.issued[..k] == rank.issued[..k];
      assert k == n ==> rank.issued[..k] == rank.issued;
      assert k < n ==> next.issued[k] == rank.issued[k];
    }
  }

  lemma {:induction false} FirstsAppend<B(!new)>(issued: seq<Op<B>>, op: Op<B>)
    ensures Firsts(issued + [op]) == Firsts(issued) + if op.second then 0 else 1
  {
    assert (issued + [op])[..|issued|] == issued;
  }

  /** A right collective appended keeps the invariant of a rank. */
  lemma {:induction false} AppendKeepsInv<B(!new)>(g: Group<B>, rank: Rank<B>, next: Rank<B>, r: nat, op: Op<B>)
    requires g.Valid() && r < g.e.world && RankInv(g, rank, r) && OpIsRight(g, op, r)
    requires next.issued == rank.issued + [op] && next.results == rank.results
    requires if op.second then next.called == rank.called else op.job == rank.called && next.called == rank.called + 1
    ensures RankInv(g, next, r)
  {
    AppendInOrder(rank, next, op);
    hide OpIsRight, InProgramOrder, IsMixture;
  }

  lemma {:induction false} CallKeepsInv<B(!new)>(g: Group<B>, s: seq<Rank<B>>, r: nat)
    requires g.WellShaped(s) && g.Enabled(false, s, Call(r)) && Inv(g, s)
    ensures RankInv(g, g.Act(s, Call(r)), r)
  {
    assert RankInv(g, s[r], r);
    OneBufferPerRank(g, s[r].called);
    hide RankInv, Inv, Group.WellShaped;
    AppendKeepsInv(g, s[r], g.Act(s, Call(r)), r, Op(s[r].called, false, g.sends[s[r].called][r]));
  }

  lemma {:induction false} ReduceKeepsInv<B(!new)>(g: Group<B>, s: seq<Rank<B>>, r: nat, k: nat)
    requires g.WellShaped(s) && g.Enabled(false, s, Reduce(r, k)) && Inv(g, s)
    ensures RankInv(g, g.Act(s, Reduce(r, k)), r)
  {
    var j := s[r].issued[k].job;
    assert RankInv(g, s[r], r);
    OneBufferPerRank(g, j);
    FirstsAreMatched(g, s, r, k);
    hide RankInv, Inv, Group.WellShaped, Group.Row, Group.Data, AllToAll, Group.Complete;
    AppendKeepsInv(g, s[r], g.Act(s, Reduce(r, k)), r, Op(j, true, g.Row(AllToAll(g.e, g.sends[j], r))));
  }

  lemma FinishAct<B(!new)>(g: Group<B>, s: seq<Rank<B>>, r: nat, k: nat)
    requires g.WellShaped(s) && g.Enabled(false, s, Finish(r, k))
    ensures g.Act(s, Finish(r, k))
         == s[r].(results := s[r].results[s[r].issued[k].job := g.Restore(g.Data(s, k, true))])
  {
  }

  /** A mixture added to the results keeps the invariant of a rank. */
  lemma {:induction false} ResultKeepsInv<B(!new)>(
    g: Group<B>, rank: Rank<B>, next: Rank<B>, r: nat, j: nat, value: seq<real>)
    requires g.Valid() && r < g.e.world && RankInv(g, rank, r) && j < |g.sends| && IsMixture(g, r, j, value)
    requires next == rank.(results := rank.results[j := value])
    ensures RankInv(g, next, r)
  {
    hide IsMixture, OpIsRight, Group.Valid;
  }

  lemma {:induction false} FinishKeepsInv<B(!new)>(g: Group<B>, s: seq<Rank<B>>, r: nat, k: nat)
    requires g.WellShaped(s) && g.Enabled(false, s, Finish(r, k)) && Inv(g, s)
    ensures RankInv(g, g.Act(s, Finish(r, k)), r)
  {
    hide Inv, RankInv, Group.Act, Group.Data, Group.Restore, Mix;
    var jobs := JobsAt(g, s, k);
    SecondsAreMixed(g, s, k);
    FinishAct(g, s, r, k);
    assert jobs[r] == s[r].issued[k].job && |jobs| == g.e.world;
    var value := g.Restore(g.Data(s, k, true));
    hide Group.WellShaped, Group.Complete, Group.Enabled, JobsAt;
    assert value == g.Restore(Mix(g, jobs));
    assert IsMixture(g, r, jobs[r], value);
    assert RankInv(g, s[r], r) by {
      InvOf(g, s, r);
    }
    ResultKeepsInv(g, s[r], g.Act(s, Finish(r, k)), r, jobs[r], value);
  }

  lemma InvOf<B(!new)>(g: Group<B>, s: seq<Rank<B>>, r: nat)
    requires g.WellShaped(s) && Inv(g, s) && r < |s|
    ensures RankInv(g, s[r], r)
  {
  }

  lemma {:induction false} ActKeepsInv<B(!new)>(g: Group<B>, s: seq<Rank<B>>, a: Action)
    requires g.WellShaped(s) && g.Enabled(false, s, a) && Inv(g, s) && a.rank < g.e.world
    ensures RankInv(g, g.Act(s, a), a.rank)
  {
    hide Inv, RankInv, Group.Act, Group.Enabled, Group.WellShaped;
    match a {
      case Call(r) => CallKeepsInv(g, s, r);
      case Reduce(r, k) => ReduceKeepsInv(g, s, r, k);
      case Finish(r, k) => FinishKeepsInv(g, s, r, k);
    }
  }

  lemma {:induction false} StepKeepsInv<B(!new)>(
    g: Group<B>, serial: bool, s: seq<Rank<B>>, a: Action, t: seq<Rank<B>>)
    requires g.Steps(serial, s, a, t) && Inv(g, s)
    ensures g.WellShaped(t) && Inv(g, t)
  {
    StepShaped(g, serial, s, a, t);
    ActKeepsInv(g, s, a);
    hide RankInv, Group.Act, Group.Enabled, Group.WellShaped;
  }

  lemma InitialInv<B(!new)>(g: Group<B>, s: seq<Rank<B>>)
    requires g.Valid() && s == seq(g.e.world, _ => Rank([], 0, {}, map[]))
    ensures g.WellShaped(s) && Inv(g, s)
  {
  }

  lemma {:induction false} RunKeepsInv<B(!new)>(
    g: Group<B>, serial: bool, run: seq<seq<Rank<B>>>, actions: seq<Action>, i: nat)
    requires g.IsRun(serial, run, actions) && i < |run|
    ensures g.WellShaped(run[i]) && Inv(g, run[i])
  {
    hide Inv, Group.Steps, Group.WellShaped;
    if i == 0 {
      InitialInv(g, run[0]);
    } else {
      RunKeepsInv(g, serial, run, actions, i - 1);
      assert g.Steps(serial, run[i - 1], actions[i - 1], run[i - 1 + 1]);
      StepKeepsInv(g, serial, run[i - 1], actions[i - 1], run[i]);
    }
  }

  // ---------------------------------------------------------------------------
  // Same order on all ranks.

  /** Ranks that have both issued a `k`-th collective issued it for the same run and kind. */
  ghost predicate Aligned<B(!new)>(s: seq<Rank<B>>) {
    forall r, q, k :: 0 <= r < |s| && 0 <= q < |s| && 0 <= k < |s[r].issued| && k < |s[q].issued| ==>
      s[r].issued[k].job == s[q].issued[k].job && s[r].issued[k].second == s[q].issued[k].second
  }

  /** Every result is restored from the rows of its run alone. */
  ghost predicate RankIsRight<B(!new)>(g: Group<B>, rank: Rank<B>)
    requires g.Valid()
  {
    forall j :: j in rank.results ==> j < |g.sends| && rank.results[j] == g.Restore(g.Rows(j))
  }

  ghost predicate AllRight<B(!new)>(g: Group<B>, s: seq<Rank<B>>)
    requires g.Valid()
  {
    forall r :: 0 <= r < |s| ==> RankIsRight(g, s[r])
  }

  lemma {:induction false} AlignedIsUnmixed<B(!new)>(g: Group<B>, s: seq<Rank<B>>, r: nat, k: nat)
    requires g.WellShaped(s) && Aligned(s) && r < |s| && g.Complete(s, k, true)
    ensures Mix(g, JobsAt(g, s, k)) == g.Rows(s[r].issued[k].job)
  {
    hide Group.Row, AllToAll;
    var jobs := JobsAt(g, s, k);
    forall q | 0 <= q < g.e.world
      ensures jobs[q] == s[r].issued[k].job
    {
    }
  }

  lemma {:induction false} FinisherIsRight<B(!new)>(g: Group<B>, s: seq<Rank<B>>, r: nat, k: nat)
    requires g.WellShaped(s) && g.Enabled(false, s, Finish(r, k)) && Inv(g, s) && Aligned(s) && RankIsRight(g, s[r])
    ensures RankIsRight(g, g.Act(s, Finish(r, k)))
  {
    var j := s[r].issued[k].job;
    assert j < |g.sends|;
    hide Inv, Aligned, RankIsRight, Group.Act, Group.Data, Group.Restore, Mix, Group.Rows;
    SecondsAreMixed(g, s, k);
    AlignedIsUnmixed(g, s, r, k);
    FinishAct(g, s, r, k);
    RightResult(g, s[r], g.Act(s, Finish(r, k)), j, g.Restore(g.Data(s, k, true)));
  }

  lemma {:induction false} RightResult<B(!new)>(g: Group<B>, rank: Rank<B>, next: Rank<B>, j: nat, value: seq<real>)
    requires g.Valid() && RankIsRight(g, rank) && j < |g.sends| && value == g.Restore(g.Rows(j))
    requires next == rank.(results := rank.results[j := value])
    ensures RankIsRight(g, next)
  {
    hide Group.Valid, Group.Restore, Group.Rows;
  }

  lemma OnlyFinishDelivers<B(!new)>(g: Group<B>, s: seq<Rank<B>>, a: Action)
    requires g.WellShaped(s) && g.Enabled(false, s, a) && !a.Finish?
    ensures g.Act(s, a).results == s[a.rank].results
  {
  }

  lemma {:induction false} AlignedStepIsRight<B(!new)>(
    g: Group<B>, serial: bool, s: seq<Rank<B>>, a: Action, t: seq<Rank<B>>)
    requires g.Steps(serial, s, a, t) && Inv(g, s) && Aligned(s) && AllRight(g, s)
    ensures AllRight(g, t)
  {
    hide Aligned, Inv, Group.Act, Group.Enabled, Group.WellShaped, Group.Restore, Group.Rows;
    StepShaped(g, serial, s, a, t);
    assert RankIsRight(g, s[a.rank]);
    if a.Finish? {
      FinisherIsRight(g, s, a.rank, a.k);
    } else {
      OnlyFinishDelivers(g, s, a);
    }
    assert RankIsRight(g, t[a.rank]);
    forall r | 0 <= r < |t|
      ensures RankIsRight(g, t[r])
    {
      assert r != a.rank ==> RankIsRight(g, s[r]);
    }
  }

  lemma {:induction false} PrefixAligned<B(!new)>(s: seq<Rank<B>>, t: seq<Rank<B>>)
    requires |s| == |t| && Aligned(t)
    requires forall r :: 0 <= r < |s| ==> s[r].issued <= t[r].issued
    ensures Aligned(s)
  {
    forall r, q, k | 0 <= r < |s| && 0 <= q < |s| && 0 <= k < |s[r].issued| && k < |s[q].issued|
      ensures s[r].issued[k].job == s[q].issued[k].job && s[r].issued[k].second == s[q].issued[k].second
    {
      assert t[r].issued[k] == s[r].issued[k] && t[q].issued[k] == s[q].issued[k];
    }
  }

  lemma {:induction false} AlignedRunIsRight<B(!new)>(
    g: Group<B>, serial: bool, run: seq<seq<Rank<B>>>, actions: seq<Action>, i: nat)
    requires g.IsRun(serial, run, actions) && i < |run| && Aligned(run[i])
    ensures AllRight(g, run[i])
  {
    hide Aligned, Inv, Group.Steps, Group.WellShaped;
    if i > 0 {
      assert g.Steps(serial, run[i - 1], actions[i - 1], run[i - 1 + 1]);
      StepShaped(g, serial, run[i - 1], actions[i - 1], run[i]);
      PrefixAligned(run[i - 1], run[i]);
      RunKeepsInv(g, serial, run, actions, i - 1);
      AlignedRunIsRight(g, serial, run, actions, i - 1);
      hide AllRight;
      AlignedStepIsRight(g, serial, run[i - 1], actions[i - 1], run[i]);
    }
  }

  /** What a run has to deliver. */
  lemma {:induction false} RestoreIsImageOfMean<B(!new)>(g: Group<B>, j: nat)
    requires g.Valid() && j < |g.sends|
    ensures |ReducedTensor(g.e, g.inputs[j])| == (g.e.world * g.e.groups) * g.e.codec.groupSize
    ensures g.Restore(g.Rows(j)) == Image(g.e.codec, ReducedTensor(g.e, g.inputs[j]), g.e.world * g.e.groups)
  {
    var restored := seq(g.e.world, _ => g.Restore(g.Rows(j)));
    assert AllSend(g.e, g.inputs[j], g.sends[j]);
    assert FullTensorRound(g.e, g.inputs[j], g.sends[j], g.Rows(j), restored);
    FullTensorIsImageOfMean(g.e, g.inputs[j], g.sends[j], g.Rows(j), restored, 0);
  }

  /** If all ranks issue their collectives in the same order, every result that any rank has, in whatever
      order the runs overlap, is the image of the mean of that run's inputs. */
  lemma {:induction false} AlignedRunsAreCorrect<B(!new)>(
    g: Group<B>, serial: bool, run: seq<seq<Rank<B>>>, actions: seq<Action>, i: nat, r: nat, j: nat)
    requires g.IsRun(serial, run, actions) && i < |run| && Aligned(run[i])
    requires r < |run[i]| && j in run[i][r].results
    ensures j < |g.sends|
    ensures |ReducedTensor(g.e, g.inputs[j])| == (g.e.world * g.e.groups) * g.e.codec.groupSize
    ensures run[i][r].results[j]
         == Image(g.e.codec, ReducedTensor(g.e, g.inputs[j]), g.e.world * g.e.groups)
  {
    AlignedRunIsRight(g, serial, run, actions, i);
    assert RankIsRight(g, run[i][r]);
    RestoreIsImageOfMean(g, j);
  }

  // ---------------------------------------------------------------------------
  // One run at a time.

  ghost predicate Alternates<B(!new)>(issued: seq<Op<B>>) {
    forall k :: 0 <= k < |issued| ==> issued[k].job == k / 2 && issued[k].second == (k % 2 == 1)
  }

  /** A rank that starts runs one after the other issues first and second collectives in turn; runs whose
      second collective was issued are reduced, and every run but the last has delivered. */
  ghost predicate InTurn<B(!new)>(rank: Rank<B>) {
    && 2 * rank.called - 1 <= |rank.issued| <= 2 * rank.called
    && Alternates(rank.issued)
    && (forall j: nat :: j in rank.reduced <==> 2 * j + 1 < |rank.issued|)
    && (forall j: nat :: j in rank.results ==> 2 * j + 1 < |rank.issued|)
    && (forall j: nat :: j + 1 < rank.called ==> j in rank.results)
  }

  lemma {:induction false} AppendAlternates<B(!new)>(issued: seq<Op<B>>, op: Op<B>)
    requires Alternates(issued) && op.job == |issued| / 2 && op.second == (|issued| % 2 == 1)
    ensures Alternates(issued + [op])
  {
  }

  lemma {:induction false} CallInTurn<B(!new)>(rank: Rank<B>, next: Rank<B>, op: Op<B>)
    requires InTurn(rank) && forall j :: 0 <= j < rank.called ==> j in rank.results
    requires op.job == rank.called && !op.second
    requires next == rank.(issued := rank.issued + [op], called := rank.called + 1)
    ensures InTurn(next)
  {
    assert rank.called > 0 ==> rank.called - 1 in rank.results;
    assert |rank.issued| == 2 * rank.called;
    AppendAlternates(rank.issued, op);
    hide Alternates;
  }

  lemma {:induction false} ReduceInTurn<B(!new)>(rank: Rank<B>, next: Rank<B>, k: nat, op: Op<B>)
    requires InTurn(rank) && k < |rank.issued| && !rank.issued[k].second && rank.issued[k].job !in rank.reduced
    requires op.job == rank.issued[k].job && op.second
    requires next == rank.(issued := rank.issued + [op], reduced := rank.reduced + {op.job})
    ensures InTurn(next)
  {
    assert op.job == k / 2 && k % 2 == 0;
    assert |rank.issued| == k + 1;
    AppendAlternates(rank.issued, op);
    hide Alternates;
  }

  lemma {:induction false} FinishInTurn<B(!new)>(rank: Rank<B>, next: Rank<B>, k: nat, value: seq<real>)
    requires InTurn(rank) && k < |rank.issued| && rank.issued[k].second
    requires next == rank.(results := rank.results[rank.issued[k].job := value])
    ensures InTurn(next)
  {
    assert rank.issued[k].job == k / 2 && k % 2 == 1;
    hide Alternates;
  }

  lemma {:induction false} SerialStep<B(!new)>(g: Group<B>, s: seq<Rank<B>>, a: Action, t: seq<Rank<B>>)
    requires g.Steps(true, s, a, t) && InTurn(s[a.rank])
    ensures InTurn(t[a.rank])
  {
    hide InTurn, Group.Row, Group.Restore, AllToAll, Group.Data;
    var rank, next := s[a.rank], t[a.rank];
    match a {
      case Call(_) => CallInTurn(rank, next, next.issued[|rank.issued|]);
      case Reduce(_, k) => ReduceInTurn(rank, next, k, next.issued[|rank.issued|]);
      case Finish(_, k) => FinishInTurn(rank, next, k, next.results[rank.issued[k].job]);
    }
  }

  lemma {:induction false} SerialRunInTurn<B(!new)>(
    g: Group<B>, run: seq<seq<Rank<B>>>, actions: seq<Action>, i: nat)
    requires g.IsRun(true, run, actions) && i < |run|
    ensures g.WellShaped(run[i]) && forall r :: 0 <= r < |run[i]| ==> InTurn(run[i][r])
  {
    if i > 0 {
      hide InTurn, Group.Steps, Group.WellShaped;
      assert g.Steps(true, run[i - 1], actions[i - 1], run[i - 1 + 1]);
      StepShaped(g, true, run[i - 1], actions[i - 1], run[i]);
      SerialRunInTurn(g, run, actions, i - 1);
      SerialStep(g, run[i - 1], actions[i - 1], run[i]);
    }
  }

  /** With one run at a time per rank, every rank's result of every run is right, under every interleaving. */
  lemma {:induction false} SerialRunsAreCorrect<B(!new)>(
    g: Group<B>, run: seq<seq<Rank<B>>>, actions: seq<Action>, i: nat, r: nat, j: nat)
    requires g.IsRun(true, run, actions) && i < |run| && r < |run[i]| && j in run[i][r].results
    ensures j < |g.sends|
    ensures |ReducedTensor(g.e, g.inputs[j])| == (g.e.world * g.e.groups) * g.e.codec.groupSize
    ensures run[i][r].results[j]
         == Image(g.e.codec, ReducedTensor(g.e, g.inputs[j]), g.e.world * g.e.groups)
  {
    SerialRunInTurn(g, run, actions, i);
    AlignedRunsAreCorrect(g, true, run, actions, i, r, j);
  }

  /** Issued collectives and delivered results of a rank that runs in turn. */
  ghost function Progress<B(!new)>(rank: Rank<B>): int {
    |rank.issued| + if rank.called == 0 || rank.called - 1 in rank.results then rank.called else rank.called - 1
  }

  lemma {:induction false} FindLeast<B(!new)>(s: seq<Rank<B>>, n: nat) returns (r: nat)
    requires 0 < n <= |s|
    ensures r < n && forall q :: 0 <= q < n ==> Progress(s[r]) <= Progress(s[q])
  {
    r := 0;
    if n > 1 {
      var best := FindLeast(s, n - 1);
      r := if Progress(s[best]) <= Progress(s[n - 1]) then best else n - 1;
    }
  }

  lemma {:induction false} LeastCanAct<B(!new)>(g: Group<B>, s: seq<Rank<B>>, r: nat) returns (a: Action)
    requires g.WellShaped(s) && r < |s|
    requires forall q :: 0 <= q < |s| ==> InTurn(s[q]) && Progress(s[r]) <= Progress(s[q])
    requires s[r].called < |g.sends| || (s[r].called > 0 && s[r].called - 1 !in s[r].results)
    ensures g.Enabled(true, s, a)
  {
    var rank := s[r];
    var c := rank.called;
    if c == 0 || c - 1 in rank.results {
      a := Call(r);
    } else {
      var k := |rank.issued| - 1;
      forall q | 0 <= q < |s|
        ensures k < |s[q].issued| && forall i :: 0 <= i <= k ==> s[q].issued[i].second == (i % 2 == 1)
      {
        assert InTurn(s[q]) && Progress(rank) <= Progress(s[q]);
      }
      AheadBound(rank.results, c - 1, c - 1);
      a := if k % 2 == 1 then Finish(r, k) else Reduce(r, k);
    }
  }

  /** With one run at a time no unfinished state is stuck. */
  lemma {:induction false} SerialNeverStuck<B(!new)>(
    g: Group<B>, run: seq<seq<Rank<B>>>, actions: seq<Action>, i: nat, r: nat, j: nat)
    requires g.IsRun(true, run, actions) && i < |run| && r < |run[i]| && j < |g.sends|
    requires j !in run[i][r].results
    ensures g.WellShaped(run[i]) && exists a :: g.Enabled(true, run[i], a)
  {
    SerialRunInTurn(g, run, actions, i);
    var s := run[i];
    var least := FindLeast(s, |s|);
    assert InTurn(s[r]) && InTurn(s[least]) && Progress(s[least]) <= Progress(s[r]);
    var _ := LeastCanAct(g, s, least);
  }

  // ---------------------------------------------------------------------------
  // Collectives that never complete.

  lemma {:induction false} IssuedGrows<B(!new)>(
    g: Group<B>, serial: bool, run: seq<seq<Rank<B>>>, actions: seq<Action>, i: nat, n: nat, r: nat)
    requires g.IsRun(serial, run, actions) && i <= n < |run| && r < g.e.world
    ensures |run[i]| == |run[n]| == g.e.world && run[i][r].issued <= run[n][r].issued
    decreases n
  {
    if n > 0 {
      hide Group.Steps;
      assert g.Steps(serial, run[n - 1], actions[n - 1], run[n - 1 + 1]);
      StepShaped(g, serial, run[n - 1], actions[n - 1], run[n]);
      if i < n {
        IssuedGrows(g, serial, run, actions, i, n - 1, r);
      }
    }
  }

  /** If one rank's `k`-th collective is a first and another's a second one, no collective from there on ever
      completes: all ranks that issued one wait forever. */
  lemma {:induction false} MismatchNeverCompletes<B(!new)>(
    g: Group<B>, serial: bool, run: seq<seq<Rank<B>>>, actions: seq<Action>, i: nat, n: nat,
    r: nat, q: nat, k: nat, later: nat, second: bool)
    requires g.IsRun(serial, run, actions) && i <= n < |run| && r < g.e.world && q < g.e.world && k <= later
    requires |run[i]| == g.e.world && k < |run[i][r].issued| && k < |run[i][q].issued|
    requires run[i][r].issued[k].second != run[i][q].issued[k].second
    ensures |run[n]| == g.e.world && !g.Complete(run[n], later, second)
  {
    IssuedGrows(g, serial, run, actions, i, n, r);
    IssuedGrows(g, serial, run, actions, i, n, q);
    assert run[n][r].issued[k] == run[i][r].issued[k] && run[n][q].issued[k] == run[i][q].issued[k];
  }
}
