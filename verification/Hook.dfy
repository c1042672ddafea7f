/** The DDP hook: prepare, launch, and a deferred finish that commits before it resolves a future. */
module Hook {
  import opened Feedback
  import opened Wrappers

  datatype Future = Pending | Result | Raised

  /** One call of the hook on its own thread, with nothing else running. */
  method CallAndFinish(
    state: GradientFeedbackState, bucket: nat, value: Tensor,
    restored: Option<Tensor>, waitRaises: bool, callbackRaises: bool)
    returns (future: Future)
    modifies state
    ensures future.Result? || future.Raised?
    ensures var before := old(state.Contents());
            var txn := PrepareTxn(before, bucket, value);
            if restored.None? || waitRaises then future.Raised? && state.Contents() == before
            else
              var r := CommitTxn(before, txn, restored.value, callbackRaises);
              && state.Contents() == r.store
              && (future.Result? <==> r.outcome == Committed)
    ensures future.Raised? && state.Contents() != old(state.Contents()) ==> callbackRaises
    ensures var finite := IsFinite(value) && restored.Some? && IsFinite(restored.value);
            var commits := finite && !waitRaises && |restored.value.lanes| == |value.lanes|;
            && (future.Result? <==> commits && !callbackRaises)
            && (!commits ==> state.Contents() == old(state.Contents()))
            && (commits ==> Key(bucket, old(state.layoutGeneration), value.shape, value.dtype) in state.residuals)
  {
    var txn := state.Prepare(bucket, value);
    if restored.None? {
      txn.Abort();
      return Raised;
    }
    if waitRaises {
      txn.Abort();
      return Raised;
    }
    var outcome := txn.Commit(restored.value, callbackRaises);
    if outcome != Committed {
      txn.Abort();
      return Raised;
    }
    future := Result;
  }

  // ---------------------------------------------------------------------------
  // Many hooks and rebuilds at once.  Every step is one lock region or one local action.

  datatype Phase = Keyed | Prepared | Launched | Waited | Stored | Accepted | Failing | Done

  /** `stores` counts the residuals this job has written. */
  datatype Job = Job(
    key: Key, value: Tensor, txn: Option<Txn>, restored: Option<Tensor>,
    phase: Phase, stores: nat, callbackRaised: bool, future: Future)

  /** `rebuilds` are rebuilds that have passed their check and not yet taken the lock. */
  datatype State = State(store: Store, jobs: seq<Job>, rebuilds: seq<nat>)

  datatype Action =
    | Call(bucket: nat, value: Tensor)
    | Read(job: nat)
    | Launch(job: nat, restored: Option<Tensor>)
    | Wait(job: nat, raises: bool)
    | StoreResidual(job: nat)
    | Callback(job: nat, raises: bool)
    | Resolve(job: nat)
    | CheckRebuild(generation: nat)
    | ApplyRebuild(index: nat)

  predicate Enabled(s: State, a: Action) {
    match a
    case Call(_, _) => true
    case CheckRebuild(g) => g > s.store.layoutGeneration
    case ApplyRebuild(i) => i < |s.rebuilds|
    case Read(j) => j < |s.jobs| && s.jobs[j].phase == Keyed
    case Launch(j, _) => j < |s.jobs| && s.jobs[j].phase == Prepared
    case Wait(j, _) => j < |s.jobs| && s.jobs[j].phase == Launched
    case StoreResidual(j) =>
      j < |s.jobs| && s.jobs[j].phase == Waited && s.jobs[j].txn.Some? && s.jobs[j].restored.Some?
    case Callback(j, _) => j < |s.jobs| && s.jobs[j].phase == Stored
    case Resolve(j) => j < |s.jobs| && (s.jobs[j].phase == Accepted || s.jobs[j].phase == Failing)
  }

  function JobStep(s: Store, job: Job, a: Action): Job
    requires a.Read? || a.Launch? || a.Wait? || a.StoreResidual? || a.Callback? || a.Resolve?
    requires a.StoreResidual? ==> job.txn.Some? && job.restored.Some?
  {
    match a
    case Read(_) => job.(phase := Prepared, txn := Some(TxnFor(s, job.key, job.value)))
    case Launch(_, restored) => job.(phase := if restored.Some? then Launched else Failing, restored := restored)
    case Wait(_, raises) => job.(phase := if raises then Failing else Waited)
    case StoreResidual(_) =>
      if CommitTxn(s, job.txn.value, job.restored.value, false).outcome.Committed?
      then job.(phase := Stored, stores := job.stores + 1)
      else job.(phase := Failing)
    case Callback(_, raises) => job.(phase := if raises then Failing else Accepted, callbackRaised := raises)
    case Resolve(_) => job.(phase := Done, future := if job.phase == Accepted then Result else Raised)
  }

  function Apply(s: State, a: Action): State
    requires Enabled(s, a)
  {
    match a
    case Call(bucket, value) =>
      s.(jobs := s.jobs + [Job(KeyOf(s.store, bucket, value), value, None, None, Keyed, 0, false, Pending)])
    case CheckRebuild(g) => s.(rebuilds := s.rebuilds + [g])
    case ApplyRebuild(i) =>
      s.(store := RebuildStore(s.store, s.rebuilds[i]), rebuilds := s.rebuilds[..i] + s.rebuilds[i + 1..])
    case StoreResidual(j) =>
      s.(store := CommitTxn(s.store, s.jobs[j].txn.value, s.jobs[j].restored.value, false).store,
         jobs := s.jobs[j := JobStep(s.store, s.jobs[j], a)])
    case _ => s.(jobs := s.jobs[a.job := JobStep(s.store, s.jobs[a.job], a)])
  }

  function Initial(generation: nat): State {
    State(Store(generation, map[]), [], [])
  }

  ghost predicate IsRun(run: seq<State>, actions: seq<Action>) {
    && |run| == |actions| + 1
    && run[0] == Initial(run[0].store.layoutGeneration)
    && forall i :: 0 <= i < |actions| ==> Enabled(run[i], actions[i]) && run[i + 1] == Apply(run[i], actions[i])
  }

  ghost predicate CurrentKeys(s: Store) {
    forall k :: k in s.residuals ==> k.layoutGeneration == s.layoutGeneration
  }

  ghost predicate JobInv(job: Job) {
    && (job.phase in {Keyed, Prepared, Launched, Waited} ==> job.stores == 0 && !job.callbackRaised)
    && (job.phase in {Stored, Accepted} ==> job.stores == 1 && !job.callbackRaised)
    && (job.phase in {Failing, Done} ==> (job.future.Result? ==> job.stores == 1 && !job.callbackRaised))
    && (job.phase == Failing || job.future.Raised? ==> job.stores == if job.callbackRaised then 1 else 0)
    && (job.phase == Done <==> !job.future.Pending?)
    && (job.phase != Keyed ==> job.txn.Some?) && (job.phase in {Launched, Waited} ==> job.restored.Some?)
  }

  ghost predicate Inv(s: State) {
    && CurrentKeys(s.store)
    && forall j :: 0 <= j < |s.jobs| ==> JobInv(s.jobs[j])
  }

  lemma {:induction false} ActionKeepsInv(s: State, a: Action)
    requires Inv(s) && Enabled(s, a)
    ensures Inv(Apply(s, a))
  {
    var t := Apply(s, a);
    forall j | 0 <= j < |t.jobs|
      ensures JobInv(t.jobs[j])
    {
      if j < |s.jobs| {
        assert JobInv(s.jobs[j]);
      }
    }
  }

  lemma {:induction false} RunKeepsInv(run: seq<State>, actions: seq<Action>, i: nat)
    requires IsRun(run, actions) && i < |run|
    ensures Inv(run[i])
  {
    if i > 0 {
      RunKeepsInv(run, actions, i - 1);
      ActionKeepsInv(run[i - 1], actions[i - 1]);
    }
  }

  /** Under any interleaving, every stored residual carries the current layout generation. */
  lemma {:induction false} StoredKeysAreCurrent(run: seq<State>, actions: seq<Action>, i: nat, key: Key)
    requires IsRun(run, actions) && i < |run| && key in run[i].store.residuals
    ensures key.layoutGeneration == run[i].store.layoutGeneration
  {
    RunKeepsInv(run, actions, i);
  }

  /** A future that has a result had its residual stored, once, before; a future that has an exception
      belongs to a job that stored nothing, exactly unless the commit callback raised. */
  lemma {:induction false} FutureAndStore(run: seq<State>, actions: seq<Action>, i: nat, j: nat)
    requires IsRun(run, actions) && i < |run| && j < |run[i].jobs|
    ensures run[i].jobs[j].future.Result? ==> run[i].jobs[j].stores == 1 && !run[i].jobs[j].callbackRaised
    ensures run[i].jobs[j].future.Raised? ==> (run[i].jobs[j].stores == 0 <==> !run[i].jobs[j].callbackRaised)
    ensures run[i].jobs[j].stores <= 1
  {
    RunKeepsInv(run, actions, i);
    assert JobInv(run[i].jobs[j]);
  }

  /** The next action of a job, if the launch gives `restored` and nothing raises. */
  function NextOf(job: Job, j: nat, restored: Tensor): Action {
    match job.phase
    case Keyed => Read(j)
    case Prepared => Launch(j, Some(restored))
    case Launched => Wait(j, false)
    case Waited => StoreResidual(j)
    case Stored => Callback(j, false)
    case Accepted => Resolve(j)
    case Failing => Resolve(j)
    case Done => CheckRebuild(0)
  }

  function ActionsLeft(job: Job): nat {
    match job.phase
    case Keyed => 6
    case Prepared => 5
    case Launched => 4
    case Waited => 3
    case Stored => 2
    case Accepted => 1
    case Failing => 1
    case Done => 0
  }

  /** A call whose future is pending can always go on, whatever other calls and rebuilds do, and after at most six
      actions of its own the future is resolved; nobody else's actions touch it. */
  lemma {:induction false} CallGoesOn(
    run: seq<State>, actions: seq<Action>, i: nat, j: nat, restored: Tensor)
    requires IsRun(run, actions) && i < |run| && j < |run[i].jobs| && run[i].jobs[j].future.Pending?
    ensures var a := NextOf(run[i].jobs[j], j, restored);
            && Enabled(run[i], a)
            && ActionsLeft(Apply(run[i], a).jobs[j]) < ActionsLeft(run[i].jobs[j]) <= 6
            && (ActionsLeft(Apply(run[i], a).jobs[j]) == 0 ==> !Apply(run[i], a).jobs[j].future.Pending?)
    ensures forall a :: Enabled(run[i], a) ==>
              ActionsLeft(Apply(run[i], a).jobs[j]) <= ActionsLeft(run[i].jobs[j])
  {
    RunKeepsInv(run, actions, i);
    assert JobInv(run[i].jobs[j]);
  }

  ghost predicate JobStores(s: State, t: State, a: Action) {
    a.StoreResidual? && a.job < |s.jobs| && a.job < |t.jobs| && t.jobs[a.job].stores == s.jobs[a.job].stores + 1
  }

  /** The residual map changes only when a job's store count goes up or a rebuild is applied; a store
      writes the key of that job's transaction and nothing else. */
  lemma {:induction false} OnlyStoresAndRebuildsWrite(s: State, a: Action)
    requires Enabled(s, a)
    ensures var t := Apply(s, a);
            && (!JobStores(s, t, a) && !a.ApplyRebuild? ==> t.store == s.store)
            && (JobStores(s, t, a) ==>
                  var txn := s.jobs[a.job].txn.value;
                  && |s.jobs[a.job].restored.value.lanes| == |txn.prepared.lanes|
                  && txn.key.layoutGeneration == s.store.layoutGeneration
                  && t.store.residuals
                     == s.store.residuals[txn.key := Sub(txn.prepared, s.jobs[a.job].restored.value)])
  {
  }

  /** A rebuild checks its generation before it takes the lock.  `order` lists which of the pending rebuilds take
      it one after the other, each by its index among those still pending. */
  predicate IsOrder(s: State, order: seq<nat>)
    decreases |order|
  {
    order == [] || (Enabled(s, ApplyRebuild(order[0])) && IsOrder(Apply(s, ApplyRebuild(order[0])), order[1..]))
  }

  /** No rebuild of the order lowers the generation. */
  predicate NeverLowers(s: State, order: seq<nat>)
    requires IsOrder(s, order)
    decreases |order|
  {
    order == []
    || (var t := Apply(s, ApplyRebuild(order[0]));
        s.store.layoutGeneration <= t.store.layoutGeneration && NeverLowers(t, order[1..]))
  }

  /** All pending rebuilds ask for one generation, and it is not below the current one. */
  predicate OnePendingGeneration(s: State) {
    forall i :: 0 <= i < |s.rebuilds| ==>
      s.rebuilds[i] == s.rebuilds[0] && s.rebuilds[i] >= s.store.layoutGeneration
  }

  lemma {:induction false} OneGenerationNeverLowers(s: State, order: seq<nat>)
    requires OnePendingGeneration(s) && IsOrder(s, order)
    ensures NeverLowers(s, order)
    decreases |order|
  {
    if order != [] {
      var t := Apply(s, ApplyRebuild(order[0]));
      assert forall i :: 0 <= i < |t.rebuilds| ==> t.rebuilds[i] in s.rebuilds;
      OneGenerationNeverLowers(t, order[1..]);
    }
  }

  /** The order that applies a larger pending generation before a smaller one. */
  lemma {:induction false} LargerFirstLowers(s: State, low: nat, high: nat)
    requires low < |s.rebuilds| && high < |s.rebuilds| && s.rebuilds[low] < s.rebuilds[high]
    ensures var order := [high, if low < high then low else low - 1];
            IsOrder(s, order) && !NeverLowers(s, order)
  {
    var order := [high, if low < high then low else low - 1];
    var t := Apply(s, ApplyRebuild(high));
    assert t.rebuilds[order[1]] == s.rebuilds[low];
    assert order[1..] == [order[1]] && order[1..][1..] == [];
    assert IsOrder(Apply(t, ApplyRebuild(order[1])), []);
  }

  /** The generation survives every order in which the pending rebuilds can be applied exactly if they all ask
      for one generation that is not below the current one. */
  lemma {:induction false} RebuildsNeverLowerIff(s: State)
    ensures (forall order :: IsOrder(s, order) ==> NeverLowers(s, order)) <==> OnePendingGeneration(s)
  {
    if OnePendingGeneration(s) {
      forall order | IsOrder(s, order)
        ensures NeverLowers(s, order)
      {
        OneGenerationNeverLowers(s, order);
      }
    } else {
      var i :| 0 <= i < |s.rebuilds|
               && !(s.rebuilds[i] == s.rebuilds[0] && s.rebuilds[i] >= s.store.layoutGeneration);
      if s.rebuilds[i] < s.store.layoutGeneration {
        var order := [i];
        assert order[1..] == [] && IsOrder(Apply(s, ApplyRebuild(i)), []);
        assert IsOrder(s, order) && !NeverLowers(s, order);
      } else if s.rebuilds[i] < s.rebuilds[0] {
        LargerFirstLowers(s, i, 0);
      } else {
        LargerFirstLowers(s, 0, i);
      }
    }
  }

  /** Right after their checks all pending rebuilds are above the current generation; then what matters is only
      that they agree. */
  lemma {:induction false} CheckedRebuildsNeverLowerIff(s: State)
    requires forall i :: 0 <= i < |s.rebuilds| ==> s.rebuilds[i] > s.store.layoutGeneration
    ensures (forall order :: IsOrder(s, order) ==> NeverLowers(s, order))
       <==> forall i, j :: 0 <= i < |s.rebuilds| && 0 <= j < |s.rebuilds| ==> s.rebuilds[i] == s.rebuilds[j]
  {
    RebuildsNeverLowerIff(s);
  }

  /** Two rebuilds that are checked before either is applied can lower the generation. */
  lemma {:induction false} OverlappingRebuildsCanLowerGeneration()
    ensures exists run: seq<State>, actions: seq<Action> ::
              && IsRun(run, actions) && |run| == 5
              && run[4].store.layoutGeneration < run[3].store.layoutGeneration
  {
    var s0 := Initial(1);
    var actions := [CheckRebuild(5), CheckRebuild(3), ApplyRebuild(0), ApplyRebuild(0)];
    var s1 := Apply(s0, actions[0]);
    var s2 := Apply(s1, actions[1]);
    var s3 := Apply(s2, actions[2]);
    assert s2.rebuilds == [5, 3] && s3.rebuilds == [3];
    var s4 := Apply(s3, actions[3]);
    var run := [s0, s1, s2, s3, s4];
    assert IsRun(run, actions);
    assert run[4].store.layoutGeneration == 3 && run[3].store.layoutGeneration == 5;
  }

  /** When rebuilds do not overlap each other, generations only grow: a pending rebuild is always above
      the current generation. */
  ghost predicate OneRebuildAtATime(run: seq<State>) {
    forall i :: 0 <= i < |run| ==> |run[i].rebuilds| <= 1
  }

  lemma {:induction false} PendingRebuildIsAbove(run: seq<State>, actions: seq<Action>, i: nat)
    requires IsRun(run, actions) && OneRebuildAtATime(run) && i < |run|
    ensures forall k :: 0 <= k < |run[i].rebuilds| ==> run[i].rebuilds[k] > run[i].store.layoutGeneration
  {
    if i > 0 {
      PendingRebuildIsAbove(run, actions, i - 1);
      OnlyStoresAndRebuildsWrite(run[i - 1], actions[i - 1]);
      assert |run[i].rebuilds| <= 1 && |run[i - 1].rebuilds| <= 1;
    }
  }

  lemma {:induction false} GenerationsGrow(run: seq<State>, actions: seq<Action>, i: nat)
    requires IsRun(run, actions) && OneRebuildAtATime(run) && i < |actions|
    ensures run[i].store.layoutGeneration <= run[i + 1].store.layoutGeneration
  {
    PendingRebuildIsAbove(run, actions, i);
    OnlyStoresAndRebuildsWrite(run[i], actions[i]);
  }
}
