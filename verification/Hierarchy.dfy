/** Two-level mean: reduce to the node leader, all-reduce between leaders, broadcast back. */
module Hierarchy {
  import opened Sequences
  import opened Topologies
  import opened Wrappers

  datatype HierarchyPlan = HierarchyPlan(
    rank: nat, localGroup: seq<nat>, localLeader: nat, leaderGroup: seq<nat>, isLeader: bool)

  function CompileHierarchy(t: Topology, rank: int): (r: Result<HierarchyPlan>)
    requires Parsed(t)
    ensures r.Ok? <==> 0 <= rank < |t.nodeIds|
    ensures r.Ok? ==> r.value.rank == rank && IsOwnPlan(t, r.value)
  {
    if 0 <= rank < |t.nodeIds| then
      PlanIsOwn(t, rank);
      Ok(Plan(t, rank))
    else Err("rank must be within world_size")
  }

  function Plan(t: Topology, r: nat): HierarchyPlan
    requires Parsed(t) && r < |t.nodeIds|
  {
    ParsedGroups(t);
    GroupForRankIsOwn(t, r);
    var g := GroupForRank(t, r).value;
    HierarchyPlan(r, g, g[0], t.leaders, r == g[0])
  }

  /** No lower rank is on the same node. */
  ghost predicate IsFirst(ids: seq<int>, r: nat) {
    r < |ids| && forall q :: 0 <= q < r ==> ids[q] != ids[r]
  }

  /** The local group holds the ranks of the own node, its leader is the first of them, the leader group holds
      the first rank of every node, and a rank leads exactly if it is one of those. */
  ghost predicate IsOwnPlan(t: Topology, p: HierarchyPlan) {
    && p.rank < |t.nodeIds|
    && (forall q: nat :: q in p.localGroup <==> q < |t.nodeIds| && t.nodeIds[q] == t.nodeIds[p.rank])
    && p.localLeader in p.localGroup && IsFirst(t.nodeIds, p.localLeader)
    && (forall l: nat :: l in p.leaderGroup <==> IsFirst(t.nodeIds, l))
    && (p.isLeader <==> p.rank in p.leaderGroup)
  }

  lemma {:induction false} PlanIsOwn(t: Topology, rank: nat)
    requires Parsed(t) && rank < |t.nodeIds|
    ensures IsOwnPlan(t, Plan(t, rank))
  {
    GroupForRankIsOwn(t, rank);
    forall l: nat
      ensures l in t.leaders <==> IsFirst(t.nodeIds, l)
    {
      LeadersAreFirst(t, l);
    }
    hide Parsed;
  }

  lemma {:induction false} LeadersAreFirst(t: Topology, l: nat)
    requires Parsed(t)
    ensures l in t.leaders <==> IsFirst(t.nodeIds, l)
  {
    ParsedGroups(t);
    if l in t.leaders {
      LeaderLeads(t, l);
      GroupForRankIsOwn(t, l);
    }
    if IsFirst(t.nodeIds, l) {
      GroupForRankIsOwn(t, l);
      assert GroupForRank(t, l).value[0] in GroupForRank(t, l).value;
    }
  }

  /** A leader is the first rank of its own group. */
  lemma {:induction false} LeaderLeads(t: Topology, l: nat)
    requires Parsed(t) && l in t.leaders
    ensures l < |t.nodeIds|
    ensures forall g :: g in t.nodeGroups ==> |g| > 0 && g[0] < |t.nodeIds|
    ensures GroupForRank(t, l).Ok? && |GroupForRank(t, l).value| > 0 && GroupForRank(t, l).value[0] == l
  {
    ParsedGroups(t);
    var j :| 0 <= j < |t.leaders| && t.leaders[j] == l;
    MembersAre(t.nodeIds, FirstSeen(t.nodeIds)[j], |t.nodeIds|);
    assert t.nodeGroups[j][0] in t.nodeGroups[j];
    GroupForRankIsOwn(t, l);
  }

  // ---------------------------------------------------------------------------
  // One machine for all ranks.  `tensor[r]` is the buffer that rank `r` updates in place;
  // the other fields record what it handed to each collective when it joined.

  datatype State = State(
    tensor: seq<real>, stage: seq<nat>, reduceInput: seq<real>, interInput: seq<real>, broadcastInput: seq<real>)

  // Stages of one rank.
  const FRESH: nat := 0
  const IN_REDUCE: nat := 1
  const REDUCED: nat := 2
  const IN_INTER: nat := 3
  const AVERAGED: nat := 4
  const IN_BROADCAST: nat := 5
  const DONE: nat := 6

  /** `junk` is what a reduce leaves in the buffer of a rank that is not its destination. */
  datatype Action =
    | JoinReduce(rank: nat) | LeaveReduce(rank: nat, junk: real)
    | JoinInter(rank: nat) | LeaveInter(rank: nat)
    | JoinBroadcast(rank: nat) | LeaveBroadcast(rank: nat)

  ghost predicate WellShaped(w: nat, s: State) {
    |s.tensor| == |s.stage| == |s.reduceInput| == |s.interInput| == |s.broadcastInput| == w
  }

  ghost predicate AllAtLeast(s: State, group: seq<nat>, stage: nat) {
    forall i :: 0 <= i < |group| ==> group[i] < |s.stage| && s.stage[group[i]] >= stage
  }

  ghost predicate Within(group: seq<nat>, n: nat) {
    forall i :: 0 <= i < |group| ==> group[i] < n
  }

  function SumOver(group: seq<nat>, v: seq<real>): real
    requires Within(group, |v|)
  {
    if group == [] then 0.0 else SumOver(group[..|group| - 1], v) + v[group[|group| - 1]]
  }

  /** A rank leaves a collective as soon as the data it needs exists: the destination of a reduce needs
      every input, other ranks nothing; a broadcast receiver needs the leader only. */
  ghost predicate Enabled(t: Topology, s: State, a: Action)
    requires Parsed(t) && WellShaped(|t.nodeIds|, s)
  {
    && a.rank < |t.nodeIds|
    && var p := Plan(t, a.rank);
    && match a
       case JoinReduce(r) => s.stage[r] == FRESH
       case LeaveReduce(r, _) => s.stage[r] == IN_REDUCE && (p.isLeader ==> AllAtLeast(s, p.localGroup, IN_REDUCE))
       case JoinInter(r) => s.stage[r] == REDUCED && p.isLeader
       case LeaveInter(r) => s.stage[r] == IN_INTER && AllAtLeast(s, p.leaderGroup, IN_INTER)
       case JoinBroadcast(r) => s.stage[r] == if p.isLeader then AVERAGED else REDUCED
       case LeaveBroadcast(r) =>
         s.stage[r] == IN_BROADCAST && p.localLeader < |s.stage| && s.stage[p.localLeader] >= IN_BROADCAST
  }

  /** The strictest reading: every collective is a barrier for its whole group. */
  ghost predicate EnabledAsBarrier(t: Topology, s: State, a: Action)
    requires Parsed(t) && WellShaped(|t.nodeIds|, s)
  {
    && Enabled(t, s, a)
    && (a.LeaveReduce? ==> AllAtLeast(s, Plan(t, a.rank).localGroup, IN_REDUCE))
    && (a.LeaveBroadcast? ==> AllAtLeast(s, Plan(t, a.rank).localGroup, IN_BROADCAST))
  }

  ghost function Apply(t: Topology, s: State, a: Action): State
    requires Parsed(t) && WellShaped(|t.nodeIds|, s) && Enabled(t, s, a)
  {
    var p := Plan(t, a.rank);
    LocalGroupWithin(t, a.rank);
    LeadersWithin(t);
    match a
    case JoinReduce(r) => s.(stage := s.stage[r := IN_REDUCE], reduceInput := s.reduceInput[r := s.tensor[r]])
    case LeaveReduce(r, junk) =>
      s.(stage := s.stage[r := REDUCED],
         tensor := s.tensor[r := if p.isLeader then SumOver(p.localGroup, s.reduceInput) else junk])
    case JoinInter(r) => s.(stage := s.stage[r := IN_INTER], interInput := s.interInput[r := s.tensor[r]])
    case LeaveInter(r) =>
      s.(stage := s.stage[r := AVERAGED],
         tensor := s.tensor[r := SumOver(p.leaderGroup, s.interInput) / (|t.nodeIds| as real)])
    case JoinBroadcast(r) =>
      s.(stage := s.stage[r := IN_BROADCAST], broadcastInput := s.broadcastInput[r := s.tensor[r]])
    case LeaveBroadcast(r) =>
      s.(stage := s.stage[r := DONE], tensor := s.tensor[r := s.broadcastInput[p.localLeader]])
  }

  ghost predicate Starts(t: Topology, x: seq<real>, s: State)
    requires Parsed(t)
  {
    && |x| == |t.nodeIds|
    && WellShaped(|t.nodeIds|, s)
    && s.tensor == x
    && forall r :: 0 <= r < |x| ==> s.stage[r] == FRESH
  }

  ghost predicate Next(t: Topology, s: State, u: State)
    requires Parsed(t)
  {
    WellShaped(|t.nodeIds|, s) && exists a :: Enabled(t, s, a) && u == Apply(t, s, a)
  }

  ghost predicate IsRun(t: Topology, x: seq<real>, run: seq<State>) {
    && Parsed(t)
    && |run| > 0
    && Starts(t, x, run[0])
    && forall i :: 0 <= i < |run| - 1 ==> Next(t, run[i], run[i + 1])
  }

  function Mean(x: seq<real>): real
    requires |x| > 0
  {
    Sum(x) / (|x| as real)
  }

  // ---------------------------------------------------------------------------
  // Sums over groups.

  lemma {:induction false} SumOverExt(group: seq<nat>, u: seq<real>, v: seq<real>)
    requires Within(group, |u|) && Within(group, |v|)
    requires forall i :: 0 <= i < |group| ==> u[group[i]] == v[group[i]]
    ensures SumOver(group, u) == SumOver(group, v)
  {
    if group != [] {
      SumOverExt(group[..|group| - 1], u, v);
    }
  }

  lemma {:induction false} SumOverIsSum(group: seq<nat>, v: seq<real>, picked: seq<real>)
    requires Within(group, |v|) && |picked| == |group|
    requires forall j :: 0 <= j < |group| ==> picked[j] == v[group[j]]
    ensures SumOver(group, v) == Sum(picked)
  {
    if group != [] {
      var n := |group| - 1;
      SumOverIsSum(group[..n], v, picked[..n]);
    }
  }

  /** The sum of `x` over the ranks below `n` on node `id`. */
  function NodeSum(ids: seq<int>, id: int, x: seq<real>, n: nat): real
    requires n <= |ids| == |x|
  {
    if n == 0 then 0.0 else NodeSum(ids, id, x, n - 1) + if ids[n - 1] == id then x[n - 1] else 0.0
  }

  lemma {:induction false} NodeSumIsSumOver(ids: seq<int>, id: int, x: seq<real>, n: nat)
    requires n <= |ids| == |x|
    ensures Within(Members(ids, id, n), n)
    ensures SumOver(Members(ids, id, n), x) == NodeSum(ids, id, x, n)
  {
    if n > 0 {
      NodeSumIsSumOver(ids, id, x, n - 1);
      var front := Members(ids, id, n - 1);
      assert (front + [n - 1])[..|front|] == front;
    }
  }

  /** Summing node by node over a prefix of the ranks is summing over the prefix. */
  lemma {:induction false} NodeSums(ids: seq<int>, ordered: seq<int>, x: seq<real>, n: nat, sums: seq<real>)
    requires |x| == |ids| && n <= |ids| && |sums| == |ordered|
    requires forall r :: 0 <= r < |ids| ==> ids[r] in ordered
    requires forall i, j :: 0 <= i < j < |ordered| ==> ordered[i] != ordered[j]
    requires forall j :: 0 <= j < |ordered| ==> sums[j] == NodeSum(ids, ordered[j], x, n)
    ensures Sum(sums) == Sum(x[..n])
    decreases n
  {
    if n == 0 {
      SumZero(sums);
    } else {
      assert ids[n - 1] in ordered;
      var k :| 0 <= k < |ordered| && ordered[k] == ids[n - 1];
      var before := sums[k := sums[k] - x[n - 1]];
      NodeSums(ids, ordered, x, n - 1, before);
      SumUpdate(sums, k, sums[k] - x[n - 1]);
      assert x[..n] == x[..n - 1] + [x[n - 1]];
      SumAppend(x[..n - 1], x[n - 1]);
    }
  }

  lemma LocalGroupWithin(t: Topology, r: nat)
    requires Parsed(t) && r < |t.nodeIds|
    ensures Within(Plan(t, r).localGroup, |t.nodeIds|)
  {
    GroupForRankIsOwn(t, r);
    var g := Plan(t, r).localGroup;
    forall i | 0 <= i < |g|
      ensures g[i] < |t.nodeIds|
    {
      assert g[i] in g;
    }
  }

  lemma LeadersWithin(t: Topology)
    requires Parsed(t)
    ensures Within(t.leaders, |t.nodeIds|)
  {
    forall j | 0 <= j < |t.leaders|
      ensures t.leaders[j] < |t.nodeIds|
    {
      LeaderFacts(t, j);
    }
  }

  /** The sum of `x` over the node of rank `r`. */
  function GroupSum(t: Topology, x: seq<real>, r: nat): real
    requires Parsed(t) && |x| == |t.nodeIds| && r < |x|
  {
    LocalGroupWithin(t, r);
    SumOver(Plan(t, r).localGroup, x)
  }

  lemma {:induction false} LeaderFacts(t: Topology, j: nat)
    requires Parsed(t) && j < |t.leaders|
    ensures |t.leaders| == |FirstSeen(t.nodeIds)|
    ensures var l := t.leaders[j];
            && l < |t.nodeIds| && Plan(t, l).isLeader
            && Plan(t, l).localGroup == Group(t.nodeIds, FirstSeen(t.nodeIds)[j])
  {
    ParsedGroups(t);
    var id := FirstSeen(t.nodeIds)[j];
    MembersAre(t.nodeIds, id, |t.nodeIds|);
    assert t.leaders[j] in Group(t.nodeIds, id);
    GroupForRankIsOwn(t, t.leaders[j]);
  }

  lemma {:induction false} LeaderSum(t: Topology, x: seq<real>, j: nat)
    requires Parsed(t) && |x| == |t.nodeIds| && j < |t.leaders|
    ensures j < |FirstSeen(t.nodeIds)| && t.leaders[j] < |x|
    ensures GroupSum(t, x, t.leaders[j]) == NodeSum(t.nodeIds, FirstSeen(t.nodeIds)[j], x, |x|)
  {
    LeaderFacts(t, j);
    NodeSumIsSumOver(t.nodeIds, FirstSeen(t.nodeIds)[j], x, |x|);
  }

  lemma {:induction false} AllNodesSum(ids: seq<int>, x: seq<real>, sums: seq<real>)
    requires |x| == |ids| && |sums| == |FirstSeen(ids)|
    requires forall j :: 0 <= j < |sums| ==> sums[j] == NodeSum(ids, FirstSeen(ids)[j], x, |x|)
    ensures Sum(sums) == Sum(x)
  {
    FirstSeenIs(ids);
    NodeSums(ids, FirstSeen(ids), x, |x|, sums);
    assert x[..|x|] == x;
  }

  lemma {:induction false} LeadersSumToAll(t: Topology, x: seq<real>, v: seq<real>)
    requires Parsed(t) && |x| == |v| == |t.nodeIds|
    requires Within(t.leaders, |x|)
    requires forall j :: 0 <= j < |t.leaders| ==> v[t.leaders[j]] == GroupSum(t, x, t.leaders[j])
    ensures SumOver(t.leaders, v) == Sum(x)
  {
    var sums := seq(|t.leaders|, j requires 0 <= j < |t.leaders| => v[t.leaders[j]]);
    SumOverIsSum(t.leaders, v, sums);
    assert |t.leaders| == |FirstSeen(t.nodeIds)| by {
      ParsedGroups(t);
    }
    forall j | 0 <= j < |sums|
      ensures sums[j] == NodeSum(t.nodeIds, FirstSeen(t.nodeIds)[j], x, |x|)
    {
      LeaderSum(t, x, j);
    }
    AllNodesSum(t.nodeIds, x, sums);
  }

  // ---------------------------------------------------------------------------
  // The invariant.

  ghost predicate RankInv(t: Topology, x: seq<real>, s: State, r: nat)
    requires Parsed(t) && |x| == |t.nodeIds| && WellShaped(|x|, s) && r < |x|
  {
    && s.stage[r] <= DONE
    && (s.stage[r] == FRESH ==> s.tensor[r] == x[r])
    && (s.stage[r] >= IN_REDUCE ==> s.reduceInput[r] == x[r])
    && (s.stage[r] == DONE ==> s.tensor[r] == Mean(x))
    && (if Plan(t, r).isLeader then
          && (s.stage[r] == REDUCED ==> s.tensor[r] == GroupSum(t, x, r))
          && (s.stage[r] >= IN_INTER ==> s.interInput[r] == GroupSum(t, x, r))
          && (s.stage[r] >= AVERAGED ==> s.tensor[r] == Mean(x))
          && (s.stage[r] >= IN_BROADCAST ==> s.broadcastInput[r] == Mean(x))
        else
          s.stage[r] != IN_INTER && s.stage[r] != AVERAGED)
  }

  ghost predicate Inv(t: Topology, x: seq<real>, s: State)
    requires Parsed(t) && |x| == |t.nodeIds|
  {
    WellShaped(|x|, s) && forall r :: 0 <= r < |x| ==> RankInv(t, x, s, r)
  }

  lemma {:induction false} LeaderOf(t: Topology, r: nat)
    requires Parsed(t) && r < |t.nodeIds|
    ensures var p := Plan(t, r);
            && p.localLeader < |t.nodeIds| && Plan(t, p.localLeader).isLeader
            && p.localLeader in p.localGroup && r in p.localGroup
            && Within(p.localGroup, |t.nodeIds|)
            && p.leaderGroup == t.leaders
            && (p.isLeader ==> r in t.leaders && p.localLeader == r)
  {
    GroupForRankIsOwn(t, r);
    var g := Plan(t, r).localGroup;
    assert g[0] in g;
    GroupForRankIsOwn(t, g[0]);
    LocalGroupWithin(t, r);
  }

  /** What the acting rank's buffer holds after the step. */
  lemma {:induction false} ActingRank(t: Topology, x: seq<real>, s: State, a: Action)
    requires Parsed(t) && |x| == |t.nodeIds| && Inv(t, x, s) && Enabled(t, s, a)
    ensures RankInv(t, x, Apply(t, s, a), a.rank)
  {
    var p := Plan(t, a.rank);
    LeaderOf(t, a.rank);
    assert RankInv(t, x, s, a.rank);
    match a {
      case JoinReduce(_) =>
      case LeaveReduce(r, _) =>
        if p.isLeader {
          forall i | 0 <= i < |p.localGroup|
            ensures s.reduceInput[p.localGroup[i]] == x[p.localGroup[i]]
          {
            assert RankInv(t, x, s, p.localGroup[i]);
          }
          SumOverExt(p.localGroup, s.reduceInput, x);
        }
      case JoinInter(_) =>
      case LeaveInter(r) =>
        LeadersWithin(t);
        forall j | 0 <= j < |t.leaders|
          ensures s.interInput[t.leaders[j]] == GroupSum(t, x, t.leaders[j])
        {
          LeaderFacts(t, j);
          assert RankInv(t, x, s, t.leaders[j]);
        }
        LeadersSumToAll(t, x, s.interInput);
      case JoinBroadcast(_) =>
      case LeaveBroadcast(r) =>
        assert RankInv(t, x, s, p.localLeader);
    }
  }

  lemma {:induction false} ActionKeepsInv(t: Topology, x: seq<real>, s: State, a: Action)
    requires Parsed(t) && |x| == |t.nodeIds| && Inv(t, x, s) && Enabled(t, s, a)
    ensures Inv(t, x, Apply(t, s, a))
  {
    ActingRank(t, x, s, a);
    var u := Apply(t, s, a);
    forall q | 0 <= q < |x|
      ensures RankInv(t, x, u, q)
    {
      if q != a.rank {
        assert RankInv(t, x, s, q);
        assert u.stage[q] == s.stage[q] && u.tensor[q] == s.tensor[q] && u.reduceInput[q] == s.reduceInput[q]
            && u.interInput[q] == s.interInput[q] && u.broadcastInput[q] == s.broadcastInput[q];
      }
    }
  }

  lemma {:induction false} RunKeepsInv(t: Topology, x: seq<real>, run: seq<State>, i: nat)
    requires IsRun(t, x, run) && i < |run|
    ensures Inv(t, x, run[i])
  {
    if i > 0 {
      RunKeepsInv(t, x, run, i - 1);
      assert Next(t, run[i - 1], run[i - 1 + 1]);
      var a :| Enabled(t, run[i - 1], a) && run[i] == Apply(t, run[i - 1], a);
      ActionKeepsInv(t, x, run[i - 1], a);
    } else {
      forall r | 0 <= r < |x|
        ensures RankInv(t, x, run[0], r)
      {
      }
    }
  }

  // ---------------------------------------------------------------------------
  // Main results.

  /** Whatever the interleaving and whatever the reduce leaves in other buffers, a rank that has
      returned holds the mean over all ranks. */
  lemma {:induction false} ReturnsGlobalMean(t: Topology, x: seq<real>, run: seq<State>, i: nat, r: nat)
    requires IsRun(t, x, run) && i < |run| && r < |x|
    requires WellShaped(|x|, run[i]) && run[i].stage[r] == DONE
    ensures run[i].tensor[r] == Mean(x)
  {
    RunKeepsInv(t, x, run, i);
    assert RankInv(t, x, run[i], r);
  }

  /** The rank in the earliest stage can always act, even if every collective is a full barrier. */
  lemma {:induction false} LeastStage(s: State, n: nat) returns (r: nat)
    requires 0 < n <= |s.stage|
    ensures r < n && forall q :: 0 <= q < n ==> s.stage[r] <= s.stage[q]
  {
    r := 0;
    for i := 1 to n
      invariant r < i && forall q :: 0 <= q < i ==> s.stage[r] <= s.stage[q]
    {
      if s.stage[i] < s.stage[r] {
        r := i;
      }
    }
  }

  lemma {:induction false} NeverStuck(t: Topology, x: seq<real>, run: seq<State>, i: nat, r: nat)
    requires IsRun(t, x, run) && i < |run| && r < |x|
    requires WellShaped(|x|, run[i]) && run[i].stage[r] != DONE
    ensures exists a :: EnabledAsBarrier(t, run[i], a)
  {
    RunKeepsInv(t, x, run, i);
    var s := run[i];
    var q := LeastStage(s, |x|);
    assert RankInv(t, x, s, r) && RankInv(t, x, s, q);
    LeaderOf(t, q);
    var p := Plan(t, q);
    var k := s.stage[q];
    if k == FRESH {
      assert EnabledAsBarrier(t, s, JoinReduce(q));
    } else if k == IN_REDUCE {
      assert EnabledAsBarrier(t, s, LeaveReduce(q, 0.0));
    } else if k == REDUCED {
      assert EnabledAsBarrier(t, s, if p.isLeader then JoinInter(q) else JoinBroadcast(q));
    } else if k == IN_INTER {
      forall j | 0 <= j < |t.leaders|
        ensures t.leaders[j] < |s.stage| && s.stage[t.leaders[j]] >= IN_INTER
      {
        LeaderFacts(t, j);
      }
      assert EnabledAsBarrier(t, s, LeaveInter(q));
    } else if k == AVERAGED {
      assert EnabledAsBarrier(t, s, JoinBroadcast(q));
    } else {
      assert EnabledAsBarrier(t, s, LeaveBroadcast(q));
    }
  }

  lemma {:induction false} NextRaisesTotal(t: Topology, s: State, u: State)
    requires Parsed(t) && Next(t, s, u) && WellShaped(|t.nodeIds|, u)
    ensures Total(u.stage) > Total(s.stage)
  {
    var a :| Enabled(t, s, a) && u == Apply(t, s, a);
    TotalStep(s.stage, a.rank, u.stage[a.rank]);
    assert u.stage == s.stage[a.rank := u.stage[a.rank]] && u.stage[a.rank] > s.stage[a.rank];
  }

  /** Every run is finite: no run has more than six steps per rank. */
  lemma {:induction false} RunLength(t: Topology, x: seq<real>, run: seq<State>, i: nat)
    requires IsRun(t, x, run) && i < |run|
    ensures WellShaped(|x|, run[i]) && i <= Total(run[i].stage) <= |x| * DONE
  {
    RunKeepsInv(t, x, run, i);
    forall r | 0 <= r < |x|
      ensures run[i].stage[r] <= DONE
    {
      assert RankInv(t, x, run[i], r);
    }
    hide RankInv, Inv;
    TotalBound(run[i].stage, DONE);
    if i > 0 {
      RunLength(t, x, run, i - 1);
      assert Next(t, run[i - 1], run[i - 1 + 1]);
      NextRaisesTotal(t, run[i - 1], run[i]);
    }
  }
}
