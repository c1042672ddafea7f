/** What error feedback conserves while hook calls, deferred finishes and rebuilds interleave. */
module HookLedger {
  import opened Feedback
  import opened Wrappers
  import opened Hook

  // ---------------------------------------------------------------------------
  // Transactions of jobs.

  /** What a job has added to its gradient at lane `i`: the residual it read. */
  function Added(job: Job, i: nat): real {
    if job.txn.Some? then At(job.txn.value.prepared, i) - At(job.value, i) else 0.0
  }

  ghost predicate TxnInv(job: Job) {
    job.txn.Some? ==>
      var txn := job.txn.value;
      && txn.key == job.key && !txn.closed && txn.finite == IsFinite(job.value)
      && |txn.prepared.lanes| == |job.value.lanes|
      && (txn.finite ==> IsFinite(txn.prepared))
  }

  ghost predicate Sound(s: State) {
    && (forall k :: k in s.store.residuals ==> IsFinite(s.store.residuals[k]))
    && (forall j :: 0 <= j < |s.jobs| ==> TxnInv(s.jobs[j]))
  }

  lemma {:induction false} ReadIsSound(s: Store, key: Key, value: Tensor)
    requires forall k :: k in s.residuals ==> IsFinite(s.residuals[k])
    ensures var t := TxnFor(s, key, value);
            && |t.prepared.lanes| == |value.lanes| && (IsFinite(value) ==> IsFinite(t.prepared))
  {
  }

  lemma {:induction false} StepIsSound(s: State, a: Action)
    requires Sound(s) && Enabled(s, a)
    ensures Sound(Apply(s, a))
  {
    var t := Apply(s, a);
    match a {
      case Read(j) => ReadIsSound(s.store, s.jobs[j].key, s.jobs[j].value);
      case StoreResidual(j) => assert TxnInv(s.jobs[j]);
      case _ =>
    }
    forall j | 0 <= j < |t.jobs|
      ensures TxnInv(t.jobs[j])
    {
      assert j < |s.jobs| ==> TxnInv(s.jobs[j]);
    }
  }

  lemma {:induction false} RunIsSound(run: seq<State>, actions: seq<Action>, n: nat)
    requires IsRun(run, actions) && n < |run|
    ensures Sound(run[n])
  {
    if n > 0 {
      RunIsSound(run, actions, n - 1);
      StepIsSound(run[n - 1], actions[n - 1]);
    }
  }

  // ---------------------------------------------------------------------------
  // The ledger of a run.

  /** The action writes the residual of the key. */
  ghost predicate StoresOn(s: State, a: Action, key: Key) {
    && a.StoreResidual? && Enabled(s, a)
    && s.jobs[a.job].txn.value.key == key
    && CommitTxn(s.store, s.jobs[a.job].txn.value, s.jobs[a.job].restored.value, false).outcome.Committed?
  }

  ghost function Post(l: Ledger, s: State, a: Action, key: Key, i: nat): Ledger {
    if StoresOn(s, a, key) then
      var job := s.jobs[a.job];
      Ledger(l.gradients + At(job.value, i), l.restored + At(job.restored.value, i), l.discarded,
             l.stale + (Residual(s.store, key, i) - Added(job, i)))
    else if a.ApplyRebuild? then l.(discarded := l.discarded + Residual(s.store, key, i))
    else l
  }

  /** The ledger after the first `n` actions. */
  ghost function Books(run: seq<State>, actions: seq<Action>, key: Key, i: nat, n: nat): Ledger
    requires |run| == |actions| + 1 && n <= |actions|
  {
    if n == 0 then Ledger(0.0, 0.0, 0.0, 0.0)
    else Post(Books(run, actions, key, i, n - 1), run[n - 1], actions[n - 1], key, i)
  }

  /** What a store leaves: the gradient and what was added to it, less what was sent. */
  lemma {:induction false} StoreLeaves(s: State, a: Action, key: Key, i: nat)
    requires Sound(s) && StoresOn(s, a, key)
    ensures Residual(Apply(s, a).store, key, i)
         == At(s.jobs[a.job].value, i) + Added(s.jobs[a.job], i) - At(s.jobs[a.job].restored.value, i)
  {
    assert TxnInv(s.jobs[a.job]);
  }

  lemma {:induction false} OthersKeepResidual(s: State, a: Action, key: Key)
    requires Enabled(s, a) && !StoresOn(s, a, key) && !a.ApplyRebuild?
    ensures key in Apply(s, a).store.residuals <==> key in s.store.residuals
    ensures key in s.store.residuals ==> Apply(s, a).store.residuals[key] == s.store.residuals[key]
    ensures Apply(s, a).store.layoutGeneration == s.store.layoutGeneration
  {
  }

  /** The balance of every run, whatever interleaves: what was sent is the gradients, less the residual that is left,
      less what rebuilds discarded, less how far residuals had moved between being read and being replaced. */
  lemma {:induction false} RunBalance(run: seq<State>, actions: seq<Action>, key: Key, i: nat, n: nat)
    requires IsRun(run, actions) && n <= |actions|
    ensures var b := Books(run, actions, key, i, n);
            b.restored == b.gradients - Residual(run[n].store, key, i) - b.discarded - b.stale
  {
    if n > 0 {
      var s, a := run[n - 1], actions[n - 1];
      RunBalance(run, actions, key, i, n - 1);
      RunIsSound(run, actions, n - 1);
      assert Enabled(s, a) && run[n - 1 + 1] == Apply(s, a);
      if StoresOn(s, a, key) {
        StoreLeaves(s, a, key, i);
      } else if !a.ApplyRebuild? {
        OthersKeepResidual(s, a, key);
      }
      hide IsRun, Sound, Enabled, Apply, StoresOn;
    }
  }

  // ---------------------------------------------------------------------------
  // One call of the key at a time.

  /** The job may still store: it has taken its key and neither stored nor failed. */
  predicate Unsettled(job: Job) {
    job.phase == Keyed || job.phase == Prepared || job.phase == Launched || job.phase == Waited
  }

  ghost predicate SerialCall(s: State, a: Action, key: Key) {
    a.Call? && KeyOf(s.store, a.bucket, a.value) == key ==>
      forall j :: 0 <= j < |s.jobs| && s.jobs[j].key == key ==> !Unsettled(s.jobs[j])
  }

  /** The hook is called for the key only when earlier calls for it have settled; other keys are free. */
  ghost predicate SerialCalls(run: seq<State>, actions: seq<Action>, key: Key)
    requires |run| == |actions| + 1
  {
    forall n :: 0 <= n < |actions| ==> SerialCall(run[n], actions[n], key)
  }

  /** Tensors of one shape have one size. */
  ghost predicate OneSize(actions: seq<Action>, key: Key, size: nat) {
    forall n :: 0 <= n < |actions| && actions[n].Call? && actions[n].value.shape == key.shape ==>
      |actions[n].value.lanes| == size
  }

  /** While its layout is current, an unsettled job that has read holds the residual that is stored. */
  ghost predicate HoldsCurrent(s: State, job: Job, key: Key, size: nat) {
    job.key == key ==>
      && |job.value.lanes| == size && key.layoutGeneration <= s.store.layoutGeneration
      && (Unsettled(job) && key.layoutGeneration == s.store.layoutGeneration ==>
            if job.phase == Keyed then job.txn.None? else job.txn == Some(TxnFor(s.store, key, job.value)))
  }

  ghost predicate InTurn(s: State, key: Key, size: nat) {
    && (key in s.store.residuals ==> |s.store.residuals[key].lanes| == size)
    && (forall j :: 0 <= j < |s.jobs| ==> HoldsCurrent(s, s.jobs[j], key, size))
    && (forall j, k :: 0 <= j < k < |s.jobs| && s.jobs[j].key == key && s.jobs[k].key == key ==>
          !Unsettled(s.jobs[j]) || !Unsettled(s.jobs[k]))
  }

  ghost predicate SizedCall(a: Action, key: Key, size: nat) {
    a.Call? && a.value.shape == key.shape ==> |a.value.lanes| == size
  }

  /** A rebuild that raises the generation leaves the key's layout behind. */
  lemma {:induction false} RebuildInTurn(s: State, a: Action, key: Key, size: nat)
    requires InTurn(s, key, size) && Enabled(s, a) && a.ApplyRebuild?
    requires s.rebuilds[a.index] > s.store.layoutGeneration
    ensures InTurn(Apply(s, a), key, size)
  {
    forall j | 0 <= j < |s.jobs|
      ensures HoldsCurrent(Apply(s, a), s.jobs[j], key, size)
    {
      assert HoldsCurrent(s, s.jobs[j], key, size);
    }
  }

  lemma {:induction false} CallInTurn(s: State, a: Action, key: Key, size: nat)
    requires InTurn(s, key, size) && Enabled(s, a) && a.Call? && SerialCall(s, a, key) && SizedCall(a, key, size)
    ensures InTurn(Apply(s, a), key, size)
  {
    var t := Apply(s, a);
    forall j | 0 <= j < |t.jobs|
      ensures HoldsCurrent(t, t.jobs[j], key, size)
    {
      assert j < |s.jobs| ==> HoldsCurrent(s, s.jobs[j], key, size);
    }
  }

  /** A step of one job that does not store on the key. */
  lemma {:induction false} JobHoldsCurrent(s: State, a: Action, key: Key, size: nat)
    requires Sound(s) && Enabled(s, a) && !StoresOn(s, a, key)
    requires !a.Call? && !a.ApplyRebuild? && !a.CheckRebuild? && HoldsCurrent(s, s.jobs[a.job], key, size)
    ensures HoldsCurrent(Apply(s, a), Apply(s, a).jobs[a.job], key, size)
    ensures Unsettled(Apply(s, a).jobs[a.job]) ==> Unsettled(s.jobs[a.job])
    ensures Apply(s, a).jobs[a.job].key == s.jobs[a.job].key
  {
    OthersKeepResidual(s, a, key);
    assert TxnInv(s.jobs[a.job]);
  }

  lemma OtherJobsStay(s: State, a: Action)
    requires Enabled(s, a) && !a.Call?
    ensures |Apply(s, a).jobs| == |s.jobs|
    ensures a.ApplyRebuild? || a.CheckRebuild? ==> Apply(s, a).jobs == s.jobs
    ensures !a.ApplyRebuild? && !a.CheckRebuild? ==>
              a.job < |s.jobs| && Apply(s, a).jobs == s.jobs[a.job := Apply(s, a).jobs[a.job]]
  {
  }

  lemma {:induction false} SameStoreHolds(s: State, t: State, job: Job, key: Key, size: nat)
    requires HoldsCurrent(s, job, key, size) && t.store.layoutGeneration == s.store.layoutGeneration
    requires key in t.store.residuals <==> key in s.store.residuals
    requires key in s.store.residuals ==> t.store.residuals[key] == s.store.residuals[key]
    ensures HoldsCurrent(t, job, key, size)
  {
  }

  lemma {:induction false} JobInTurn(s: State, a: Action, key: Key, size: nat)
    requires InTurn(s, key, size) && Sound(s) && Enabled(s, a) && !StoresOn(s, a, key)
    requires !a.Call? && !a.ApplyRebuild?
    ensures InTurn(Apply(s, a), key, size)
  {
    OthersKeepResidual(s, a, key);
    OtherJobsStay(s, a);
    if !a.CheckRebuild? {
      JobHoldsCurrent(s, a, key, size);
    }
    hide Apply, Enabled, Sound, StoresOn, HoldsCurrent, Unsettled;
    var t := Apply(s, a);
    forall j | 0 <= j < |t.jobs|
      ensures HoldsCurrent(t, t.jobs[j], key, size)
    {
      SameStoreHolds(s, t, s.jobs[j], key, size);
    }
  }

  lemma {:induction false} StoreInTurn(s: State, a: Action, key: Key, size: nat)
    requires InTurn(s, key, size) && Sound(s) && StoresOn(s, a, key)
    requires s.jobs[a.job].phase == Waited
    ensures InTurn(Apply(s, a), key, size)
    ensures s.jobs[a.job].txn == Some(TxnFor(s.store, key, s.jobs[a.job].value))
  {
    var t := Apply(s, a);
    assert TxnInv(s.jobs[a.job]) && HoldsCurrent(s, s.jobs[a.job], key, size);
    forall j | 0 <= j < |t.jobs|
      ensures HoldsCurrent(t, t.jobs[j], key, size)
    {
      assert HoldsCurrent(s, s.jobs[j], key, size);
    }
  }

  /** A transaction that reads and stores the same residual is not stale. */
  lemma {:induction false} CurrentIsNotStale(s: State, a: Action, key: Key, size: nat, i: nat)
    requires InTurn(s, key, size) && Sound(s) && StoresOn(s, a, key)
    ensures Residual(s.store, key, i) == Added(s.jobs[a.job], i)
  {
    StoreInTurn(s, a, key, size);
    assert TxnInv(s.jobs[a.job]) && HoldsCurrent(s, s.jobs[a.job], key, size);
  }

  lemma {:induction false} RunInTurn(
    run: seq<State>, actions: seq<Action>, key: Key, size: nat, n: nat)
    requires IsRun(run, actions) && OneRebuildAtATime(run) && n < |run|
    requires SerialCalls(run, actions, key) && OneSize(actions, key, size)
    ensures InTurn(run[n], key, size) && Sound(run[n])
  {
    RunIsSound(run, actions, n);
    if n > 0 {
      var s, a := run[n - 1], actions[n - 1];
      RunInTurn(run, actions, key, size, n - 1);
      PendingRebuildIsAbove(run, actions, n - 1);
      assert Enabled(s, a) && run[n - 1 + 1] == Apply(s, a);
      assert SerialCall(s, a, key) && SizedCall(a, key, size);
      if a.Call? {
        CallInTurn(s, a, key, size);
      } else if a.ApplyRebuild? {
        RebuildInTurn(s, a, key, size);
      } else if StoresOn(s, a, key) {
        StoreInTurn(s, a, key, size);
      } else {
        JobInTurn(s, a, key, size);
      }
    }
  }

  lemma {:induction false} NothingStale(
    run: seq<State>, actions: seq<Action>, key: Key, size: nat, i: nat, n: nat)
    requires IsRun(run, actions) && OneRebuildAtATime(run) && n <= |actions|
    requires SerialCalls(run, actions, key) && OneSize(actions, key, size)
    ensures Books(run, actions, key, i, n).stale == 0.0
  {
    if n > 0 {
      NothingStale(run, actions, key, size, i, n - 1);
      RunInTurn(run, actions, key, size, n - 1);
      if StoresOn(run[n - 1], actions[n - 1], key) {
        CurrentIsNotStale(run[n - 1], actions[n - 1], key, size, i);
      }
    }
  }

  /** Conservation in every interleaving: if the hook is called for a key only when its earlier calls have settled,
      and rebuilds do not overlap, the restored values of the key sum to its gradients less the residual that is left
      and less what rebuilds discarded. */
  lemma {:induction false} RunConserves(
    run: seq<State>, actions: seq<Action>, key: Key, size: nat, i: nat, n: nat)
    requires IsRun(run, actions) && OneRebuildAtATime(run) && n <= |actions|
    requires SerialCalls(run, actions, key) && OneSize(actions, key, size)
    ensures var b := Books(run, actions, key, i, n);
            b.restored == b.gradients - Residual(run[n].store, key, i) - b.discarded
  {
    RunBalance(run, actions, key, i, n);
    NothingStale(run, actions, key, size, i, n);
  }

  /** One store conserves exactly if the residual is what the job has added. */
  lemma {:induction false} StoreConservesIff(run: seq<State>, actions: seq<Action>, n: nat, key: Key, i: nat)
    requires IsRun(run, actions) && n < |actions| && StoresOn(run[n], actions[n], key)
    ensures var job := run[n].jobs[actions[n].job];
            At(job.restored.value, i)
            == At(job.value, i) + Residual(run[n].store, key, i) - Residual(run[n + 1].store, key, i)
            <==> Residual(run[n].store, key, i) == Added(job, i)
  {
    RunIsSound(run, actions, n);
    StoreLeaves(run[n], actions[n], key, i);
  }

  // ---------------------------------------------------------------------------
  // Overlapping rebuilds.

  /** Two rebuilds for one generation pass their checks.  Between their turns one call stores a residual of a half,
      and the next one reads it; the second rebuild discards it and leaves the layout current, so that the call
      stores: the half is both discarded and sent. */
  const REBUILT_TWICE: seq<Action> := [
    CheckRebuild(1), CheckRebuild(1), ApplyRebuild(0),
    Call(0, ONE), Read(0), Launch(0, Some(HALF)), Wait(0, false), StoreResidual(0),
    Call(0, ONE), Read(1), ApplyRebuild(0), Launch(1, Some(HALF)), Wait(1, false), StoreResidual(1)]

  const ONE: Tensor := Tensor([1], "fp32", [Finite(1.0)])
  const HALF: Tensor := Tensor([1], "fp32", [Finite(0.5)])
  const CURRENT: Key := Key(0, 1, [1], "fp32")

  /** What job `j` of that run is in the given phase. */
  function JobIn(prepared: real, phase: Phase): Job {
    Job(CURRENT, ONE,
        if phase == Keyed then None else Some(Txn(CURRENT, Tensor([1], "fp32", [Finite(prepared)]), true, false)),
        if phase == Keyed || phase == Prepared then None else Some(HALF),
        phase, if phase == Stored then 1 else 0, false, Pending)
  }

  function RebuiltTwice(n: nat): State
    requires n <= |REBUILT_TWICE|
  {
    var store := if n < 3 then Store(0, map[])
                 else if 8 <= n < 11 then Store(1, map[CURRENT := HALF])
                 else if n == 14 then Store(1, map[CURRENT := ONE])
                 else Store(1, map[]);
    var first := if n < 4 then []
                 else [JobIn(1.0, if n == 4 then Keyed else if n == 5 then Prepared else if n == 6 then Launched
                                  else if n == 7 then Waited else Stored)];
    var second := if n < 9 then []
                  else [JobIn(1.5, if n == 9 then Keyed else if n < 12 then Prepared else if n == 12 then Launched
                                   else if n == 13 then Waited else Stored)];
    State(store, first + second,
          if n == 0 || n > 10 then [] else if n == 2 then [1, 1] else [1])
  }

  lemma {:induction false} FirstRebuild(n: nat)
    requires 0 <= n < 3
    ensures Enabled(RebuiltTwice(n), REBUILT_TWICE[n])
    ensures RebuiltTwice(n + 1) == Apply(RebuiltTwice(n), REBUILT_TWICE[n])
  {
  }

  lemma {:induction false} FirstCall(n: nat)
    requires 3 <= n < 7
    ensures Enabled(RebuiltTwice(n), REBUILT_TWICE[n])
    ensures RebuiltTwice(n + 1) == Apply(RebuiltTwice(n), REBUILT_TWICE[n])
  {
  }

  lemma {:induction false} FirstStore(n: nat)
    requires 7 <= n < 8
    ensures Enabled(RebuiltTwice(n), REBUILT_TWICE[n])
    ensures RebuiltTwice(n + 1) == Apply(RebuiltTwice(n), REBUILT_TWICE[n])
  {
    assert Sub(ONE, HALF).lanes == [Finite(0.5)];
  }

  lemma {:induction false} SecondCall(n: nat)
    requires 8 <= n < 10
    ensures Enabled(RebuiltTwice(n), REBUILT_TWICE[n])
    ensures RebuiltTwice(n + 1) == Apply(RebuiltTwice(n), REBUILT_TWICE[n])
  {
    assert Add(ONE, HALF).lanes == [Finite(1.5)];
  }

  lemma {:induction false} SecondRebuild(n: nat)
    requires 10 <= n < 13
    ensures Enabled(RebuiltTwice(n), REBUILT_TWICE[n])
    ensures RebuiltTwice(n + 1) == Apply(RebuiltTwice(n), REBUILT_TWICE[n])
  {
  }

  lemma {:induction false} SecondStore(n: nat)
    requires 13 <= n < 14
    ensures Enabled(RebuiltTwice(n), REBUILT_TWICE[n])
    ensures RebuiltTwice(n + 1) == Apply(RebuiltTwice(n), REBUILT_TWICE[n])
  {
    assert Sub(Tensor([1], "fp32", [Finite(1.5)]), HALF).lanes == [Finite(1.0)];
  }

  lemma {:induction false} RebuiltTwiceStep(n: nat)
    requires n < |REBUILT_TWICE|
    ensures Enabled(RebuiltTwice(n), REBUILT_TWICE[n])
    ensures RebuiltTwice(n + 1) == Apply(RebuiltTwice(n), REBUILT_TWICE[n])
    ensures SerialCall(RebuiltTwice(n), REBUILT_TWICE[n], CURRENT) && SizedCall(REBUILT_TWICE[n], CURRENT, 1)
  {
    if n == 3 || n == 8 {
      assert RebuiltTwice(n).jobs == if n == 3 then [] else [JobIn(1.0, Stored)];
    }
    hide RebuiltTwice, Apply, Enabled;
    if n < 3 {
      FirstRebuild(n);
    } else if n < 7 {
      FirstCall(n);
    } else if n < 8 {
      FirstStore(n);
    } else if n < 10 {
      SecondCall(n);
    } else if n < 13 {
      SecondRebuild(n);
    } else {
      SecondStore(n);
    }
  }

  /** What each action of the run enters in the ledger. */
  lemma {:induction false} RebuiltTwiceEntry(n: nat, l: Ledger)
    requires n < |REBUILT_TWICE|
    ensures Post(l, RebuiltTwice(n), REBUILT_TWICE[n], CURRENT, 0) ==
            if n == 7 then Ledger(l.gradients + 1.0, l.restored + 0.5, l.discarded, l.stale)
            else if n == 10 then l.(discarded := l.discarded + 0.5)
            else if n == 13 then Ledger(l.gradients + 1.0, l.restored + 0.5, l.discarded, l.stale - 0.5)
            else l
  {
    if n == 7 || n == 13 {
      var job := RebuiltTwice(n).jobs[if n == 7 then 0 else 1];
      assert job == if n == 7 then JobIn(1.0, Waited) else JobIn(1.5, Waited);
      assert StoresOn(RebuiltTwice(n), REBUILT_TWICE[n], CURRENT);
      assert Added(job, 0) == if n == 7 then 0.0 else 0.5;
      hide RebuiltTwice, StoresOn;
    } else {
      assert !REBUILT_TWICE[n].StoreResidual?;
    }
  }

  lemma {:induction false} RebuiltTwiceBooks(run: seq<State>, n: nat)
    requires n <= |REBUILT_TWICE| && |run| == |REBUILT_TWICE| + 1
    requires forall k: nat :: k < |run| ==> run[k] == RebuiltTwice(k)
    ensures Books(run, REBUILT_TWICE, CURRENT, 0, n) ==
            if n <= 7 then Ledger(0.0, 0.0, 0.0, 0.0) else if n <= 10 then Ledger(1.0, 0.5, 0.0, 0.0)
            else if n <= 13 then Ledger(1.0, 0.5, 0.5, 0.0) else Ledger(2.0, 1.0, 0.5, -0.5)
  {
    if n > 0 {
      RebuiltTwiceBooks(run, n - 1);
      RebuiltTwiceEntry(n - 1, Books(run, REBUILT_TWICE, CURRENT, 0, n - 1));
      hide RebuiltTwice, Post;
    }
  }

  /** That rebuilds do not overlap is needed, even if no rebuild lowers the generation: in this run calls of the key
      come one at a time, and the books are half a unit out. */
  lemma {:induction false} OverlappingRebuildsBreakConservation()
    ensures exists run: seq<State>, actions: seq<Action>, key ::
              && |run| == |actions| + 1 == 15 && IsRun(run, actions)
              && SerialCalls(run, actions, key) && OneSize(actions, key, 1)
              && (forall n, m :: 0 <= n < 15 && m == n + 1 < 15 ==>
                    run[n].store.layoutGeneration <= run[m].store.layoutGeneration)
              && var b := Books(run, actions, key, 0, 14);
                 && b.restored == 1.0 && b.gradients == 2.0 && b.discarded == 0.5
                 && Residual(run[14].store, key, 0) == 1.0
  {
    var run := seq(15, (n: nat) requires n < 15 => RebuiltTwice(n));
    RebuiltTwiceBooks(run, 14);
    assert RebuiltTwice(14).store == Store(1, map[CURRENT := ONE]);
    assert RebuiltTwice(0) == Initial(0);
    forall n: nat | n < 15
      ensures RebuiltTwice(n).store.layoutGeneration == if n < 3 then 0 else 1
    {
    }
    hide RebuiltTwice, Apply, Enabled, Books;
    forall n | 0 <= n < 14
      ensures Enabled(run[n], REBUILT_TWICE[n]) && run[n + 1] == Apply(run[n], REBUILT_TWICE[n])
      ensures SerialCall(run[n], REBUILT_TWICE[n], CURRENT) && SizedCall(REBUILT_TWICE[n], CURRENT, 1)
    {
      RebuiltTwiceStep(n);
    }
    assert IsRun(run, REBUILT_TWICE) && SerialCalls(run, REBUILT_TWICE, CURRENT);
  }
}
