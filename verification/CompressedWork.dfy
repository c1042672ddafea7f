/** The native work object: one compare-and-swap decides who executes, everyone else waits for state 2. */
module CompressedWorks {
  import opened Wrappers

  /** How one foreign call ends. */
  datatype Call<+T> = Returns(value: T) | Throws(error: string)

  datatype Answer<+T> = Value(value: T) | Error(error: string)

  // ---------------------------------------------------------------------------
  // The object, used by one thread.

  class CompressedWork<T> {
    var waitState: nat
    var result: T
    var error: Option<string>
    var callbackFinished: bool
    var resources: seq<nat>

    constructor (result: T, resources: seq<nat>, hasCallback: bool)
      ensures waitState == 0 && this.result == result && error == None && this.resources == resources
      ensures callbackFinished == !hasCallback
    {
      this.waitState := 0;
      this.result := result;
      this.error := None;
      this.callbackFinished := !hasCallback;
      this.resources := resources;
    }

    /** The first call executes transport wait, callback and completion wait; an exception stops the
        sequence and is stored; later calls answer from what is stored. */
    method Wait(transport: Call<()>, callback: Call<T>, completion: Call<()>) returns (answer: Answer<T>)
      requires waitState == 0 || waitState == 2
      modifies this
      ensures waitState == 2
      ensures answer == if error.Some? then Error(error.value) else Value(result)
      ensures old(waitState) == 2 ==> unchanged(this)
      ensures old(waitState) == 0 ==>
        && resources == []
        && (transport.Throws? ==> error == Some(transport.error) && result == old(result)
                                  && callbackFinished == old(callbackFinished))
        && (transport.Returns? ==>
              && callbackFinished
              && (!old(callbackFinished) && callback.Throws? ==> error == Some(callback.error) && result == old(result))
              && (!old(callbackFinished) && callback.Returns? ==> result == callback.value)
              && (old(callbackFinished) ==> result == old(result))
              && (old(callbackFinished) || callback.Returns? ==>
                    error == if completion.Throws? then Some(completion.error) else old(error)))
    {
      if waitState == 0 {
        waitState := 1;
        if transport.Throws? {
          error := Some(transport.error);
        } else {
          var failed := false;
          if !callbackFinished {
            callbackFinished := true;
            match callback {
              case Returns(value) => result := value;
              case Throws(message) => error := Some(message); failed := true;
            }
          }
          if !failed && completion.Throws? {
            error := Some(completion.error);
          }
        }
        resources := [];
        waitState := 2;
      }
      answer := if error.Some? then Error(error.value) else Value(result);
    }
  }

  // ---------------------------------------------------------------------------
  // Any number of threads in `wait`, one atomic step at a time.

  datatype Pc<+T> =
    | Start
    | Checking | Blocking | Sleeping(notified: bool)
    | Transport | CallbackTest | CallbackRun | Completion | Clearing | Publishing | Notifying
    | Reading | Finished(answer: Answer<T>)

  datatype State<T> = State(
    waitState: nat, result: T, error: Option<string>, callbackFinished: bool, cleared: nat, announced: bool,
    transportRuns: nat, callbackRuns: nat, executor: Option<nat>, threads: seq<Pc<T>>)

  datatype Action<T> =
    | Swap(thread: nat)
    | Check(thread: nat) | Block(thread: nat) | Wake(thread: nat) | Spurious(thread: nat)
    | RunTransport(thread: nat, transport: Call<()>)
    | TestCallback(thread: nat)
    | RunCallback(thread: nat, callback: Call<T>)
    | RunCompletion(thread: nat, completion: Call<()>)
    | Clear(thread: nat) | Publish(thread: nat) | Notify(thread: nat)
    | Read(thread: nat)

  function Initial<T>(result: T, hasCallback: bool, threads: nat): State<T> {
    State(0, result, None, !hasCallback, 0, false, 0, 0, None, seq(threads, _ => Start))
  }

  predicate Enabled<T>(s: State<T>, a: Action<T>) {
    && a.thread < |s.threads|
    && var pc := s.threads[a.thread];
       match a
       case Swap(_) => pc.Start?
       case Check(_) => pc.Checking?
       case Block(_) => pc.Blocking?
       case Wake(_) => pc.Sleeping? && pc.notified
       case Spurious(_) => pc.Sleeping?
       case RunTransport(_, _) => pc.Transport?
       case TestCallback(_) => pc.CallbackTest?
       case RunCallback(_, _) => pc.CallbackRun?
       case RunCompletion(_, _) => pc.Completion?
       case Clear(_) => pc.Clearing?
       case Publish(_) => pc.Publishing?
       case Notify(_) => pc.Notifying?
       case Read(_) => pc.Reading?
  }

  function Goto<T>(s: State<T>, i: nat, pc: Pc<T>): State<T>
    requires i < |s.threads|
  {
    s.(threads := s.threads[i := pc])
  }

  function AnswerOf<T>(s: State<T>): Answer<T> {
    if s.error.Some? then Error(s.error.value) else Value(s.result)
  }

  /** Waiters asleep when the executor notifies are told to wake. */
  function Notified<T>(threads: seq<Pc<T>>): (notified: seq<Pc<T>>)
    ensures |notified| == |threads|
  {
    seq(|threads|, i requires 0 <= i < |threads| => if threads[i].Sleeping? then Sleeping(true) else threads[i])
  }

  function Apply<T>(s: State<T>, a: Action<T>): State<T>
    requires Enabled(s, a)
  {
    var i := a.thread;
    match a
    case Swap(_) =>
      if s.waitState == 0 then Goto(s, i, Transport).(waitState := 1, executor := Some(i))
      else if s.waitState == 2 then Goto(s, i, Reading)
      else Goto(s, i, Checking)
    case Check(_) => Goto(s, i, if s.waitState == 2 then Reading else Blocking)
    case Block(_) => Goto(s, i, Sleeping(false))
    case Wake(_) => Goto(s, i, Checking)
    case Spurious(_) => Goto(s, i, Checking)
    case RunTransport(_, transport) =>
      var t := s.(transportRuns := s.transportRuns + 1);
      if transport.Throws? then Goto(t, i, Clearing).(error := Some(transport.error)) else Goto(t, i, CallbackTest)
    case TestCallback(_) =>
      if s.callbackFinished then Goto(s, i, Completion)
      else Goto(s, i, CallbackRun).(callbackFinished := true)
    case RunCallback(_, callback) =>
      var t := s.(callbackRuns := s.callbackRuns + 1);
      if callback.Throws? then Goto(t, i, Clearing).(error := Some(callback.error))
      else Goto(t, i, Completion).(result := callback.value)
    case RunCompletion(_, completion) =>
      if completion.Throws? then Goto(s, i, Clearing).(error := Some(completion.error)) else Goto(s, i, Clearing)
    case Clear(_) => Goto(s, i, Publishing).(cleared := s.cleared + 1)
    case Publish(_) => Goto(s, i, Notifying).(waitState := 2)
    case Notify(_) => s.(threads := Notified(s.threads)[i := Reading], announced := true)
    case Read(_) => Goto(s, i, Finished(AnswerOf(s)))
  }

  ghost predicate IsRun<T>(run: seq<State<T>>, actions: seq<Action<T>>, result: T, hasCallback: bool, threads: nat) {
    && |run| == |actions| + 1
    && run[0] == Initial(result, hasCallback, threads)
    && forall i :: 0 <= i < |actions| ==> Enabled(run[i], actions[i]) && run[i + 1] == Apply(run[i], actions[i])
  }

  /** The stages only the executor passes through. */
  predicate Executes<T>(pc: Pc<T>) {
    pc.Transport? || pc.CallbackTest? || pc.CallbackRun? || pc.Completion? || pc.Clearing? || pc.Publishing?
    || pc.Notifying?
  }

  ghost predicate ThreadInv<T>(s: State<T>, i: nat)
    requires i < |s.threads|
  {
    var pc := s.threads[i];
    && (Executes(pc) ==> s.executor == Some(i))
    && (pc.Notifying? || pc.Reading? || pc.Finished? ==> s.waitState == 2)
    && (pc.Finished? ==> pc.answer == AnswerOf(s))
  }

  /** What has happened when the executor stands at `pc`. */
  ghost predicate Progress<T>(s: State<T>, pc: Pc<T>) {
    && (pc.Transport? ==> s.waitState == 1 && s.transportRuns == 0 && s.callbackRuns == 0 && s.cleared == 0)
    && (pc.CallbackTest? ==> s.waitState == 1 && s.transportRuns == 1 && s.callbackRuns == 0 && s.cleared == 0)
    && (pc.CallbackRun? ==> s.waitState == 1 && s.transportRuns == 1 && s.callbackRuns == 0 && s.cleared == 0
                            && s.callbackFinished)
    && (pc.Completion? || pc.Clearing? ==>
          s.waitState == 1 && s.transportRuns == 1 && s.callbackRuns <= 1 && s.cleared == 0)
    && (pc.Publishing? ==> s.waitState == 1 && s.transportRuns == 1 && s.callbackRuns <= 1 && s.cleared == 1)
    && (!Executes(pc) || pc.Notifying? ==>
          s.waitState == 2 && s.transportRuns == 1 && s.callbackRuns <= 1 && s.cleared == 1)
  }

  /** The callback has been dealt with: there was none, it ran, or an error came before it. */
  ghost predicate CallbackSettled<T>(s: State<T>, hasCallback: bool) {
    !hasCallback || s.callbackRuns == 1 || s.error.Some?
  }

  ghost predicate ExecutorInv<T>(s: State<T>, hasCallback: bool) {
    && (s.waitState == 0 <==> s.executor.None?)
    && (s.executor.None? ==>
          s.transportRuns == 0 && s.callbackRuns == 0 && s.cleared == 0 && s.error.None?
          && s.callbackFinished == !hasCallback)
    && (!hasCallback ==> s.callbackFinished && s.callbackRuns == 0)
    && (s.executor.Some? ==>
          && s.executor.value < |s.threads|
          && var pc := s.threads[s.executor.value];
             && Progress(s, pc)
             && (Executes(pc) || pc.Reading? || pc.Finished?)
             && (pc.Transport? || pc.CallbackTest? ==> s.error.None? && s.callbackFinished == !hasCallback)
             && (pc.CallbackRun? ==> s.error.None? && hasCallback)
             && (!pc.Transport? && !pc.CallbackTest? && !pc.CallbackRun? ==> CallbackSettled(s, hasCallback)))
  }

  ghost predicate Inv<T>(s: State<T>, hasCallback: bool) {
    ExecutorInv(s, hasCallback) && forall i :: 0 <= i < |s.threads| ==> ThreadInv(s, i)
  }

  /** The fields that an answer depends on change only in state 1. */
  lemma {:induction false} ExecutorKeepsThreads<T>(s: State<T>, a: Action<T>, hasCallback: bool, i: nat)
    requires Inv(s, hasCallback) && Enabled(s, a) && Executes(s.threads[a.thread]) && i < |s.threads|
    ensures |Apply(s, a).threads| == |s.threads| && ThreadInv(Apply(s, a), i)
  {
    assert ThreadInv(s, a.thread);
    assert ThreadInv(s, i);
  }

  lemma {:induction false} ExecutorKeepsExecutor<T>(s: State<T>, a: Action<T>, hasCallback: bool)
    requires Inv(s, hasCallback) && Enabled(s, a) && Executes(s.threads[a.thread])
    ensures ExecutorInv(Apply(s, a), hasCallback)
  {
    assert ThreadInv(s, a.thread);
    assert s.executor == Some(a.thread);
    hide ThreadInv;
  }

  lemma {:induction false} ExecutorStep<T>(s: State<T>, a: Action<T>, hasCallback: bool)
    requires Inv(s, hasCallback) && Enabled(s, a) && Executes(s.threads[a.thread])
    ensures Inv(Apply(s, a), hasCallback)
  {
    ExecutorKeepsExecutor(s, a, hasCallback);
    forall i | 0 <= i < |s.threads| {
      ExecutorKeepsThreads(s, a, hasCallback, i);
    }
    ExecutorKeepsThreads(s, a, hasCallback, a.thread);
    hide ThreadInv, ExecutorInv, Apply;
  }

  /** A thread that does not execute changes its own place only, except that the first swap makes it the executor. */
  lemma {:induction false} WaiterMoves<T>(s: State<T>, a: Action<T>, hasCallback: bool)
    requires Inv(s, hasCallback) && Enabled(s, a) && !Executes(s.threads[a.thread])
    ensures var t, i := Apply(s, a), a.thread;
            && |t.threads| == |s.threads| && t.threads == s.threads[i := t.threads[i]] && ThreadInv(t, i)
            && (if a.Swap? && s.waitState == 0
                then t == s.(threads := t.threads, waitState := 1, executor := Some(i)) && t.threads[i].Transport?
                else t == s.(threads := t.threads) && !Executes(t.threads[i])
                     && (s.executor == Some(i) ==> t.threads[i].Finished?))
  {
    assert ThreadInv(s, a.thread);
  }

  lemma {:induction false} WaiterStep<T>(s: State<T>, a: Action<T>, hasCallback: bool)
    requires Inv(s, hasCallback) && Enabled(s, a) && !Executes(s.threads[a.thread])
    ensures Inv(Apply(s, a), hasCallback)
  {
    WaiterMoves(s, a, hasCallback);
    var t := Apply(s, a);
    hide Apply, Enabled;
    forall i | 0 <= i < |t.threads|
      ensures ThreadInv(t, i)
    {
      assert ThreadInv(s, i);
    }
    assert ThreadInv(s, a.thread);
  }

  lemma {:induction false} RunKeepsInv<T>(
    run: seq<State<T>>, actions: seq<Action<T>>, result: T, hasCallback: bool, threads: nat, i: nat)
    requires IsRun(run, actions, result, hasCallback, threads) && i < |run|
    ensures Inv(run[i], hasCallback)
  {
    if i > 0 {
      RunKeepsInv(run, actions, result, hasCallback, threads, i - 1);
      if Executes(run[i - 1].threads[actions[i - 1].thread]) {
        ExecutorStep(run[i - 1], actions[i - 1], hasCallback);
      } else {
        WaiterStep(run[i - 1], actions[i - 1], hasCallback);
      }
    }
  }

  // ---------------------------------------------------------------------------
  // Main results.

  /** At most one thread ever executes; transport wait and callback run at most once, and resources are
      cleared at most once, after the transport wait and after the callback was dealt with. */
  lemma {:induction false} ExecutesOnce<T>(
    run: seq<State<T>>, actions: seq<Action<T>>, result: T, hasCallback: bool, threads: nat, i: nat, x: nat, y: nat)
    requires IsRun(run, actions, result, hasCallback, threads) && i < |run|
    requires x < |run[i].threads| && y < |run[i].threads|
    ensures Executes(run[i].threads[x]) && Executes(run[i].threads[y]) ==> x == y
    ensures run[i].transportRuns <= 1 && run[i].callbackRuns <= 1 && run[i].cleared <= 1
    ensures run[i].cleared == 1 ==> run[i].transportRuns == 1 && CallbackSettled(run[i], hasCallback)
    ensures !hasCallback ==> run[i].callbackRuns == 0
  {
    RunKeepsInv(run, actions, result, hasCallback, threads, i);
    assert ThreadInv(run[i], x) && ThreadInv(run[i], y);
  }

  /** Every `wait` that returns yields the same result or the same stored error, after the resources
      were cleared. */
  lemma {:induction false} AllWaitersAgree<T>(
    run: seq<State<T>>, actions: seq<Action<T>>, result: T, hasCallback: bool, threads: nat, i: nat, x: nat, y: nat)
    requires IsRun(run, actions, result, hasCallback, threads) && i < |run|
    requires x < |run[i].threads| && y < |run[i].threads|
    requires run[i].threads[x].Finished? && run[i].threads[y].Finished?
    ensures run[i].threads[x].answer == run[i].threads[y].answer == AnswerOf(run[i])
    ensures run[i].waitState == 2 && run[i].cleared == 1
  {
    RunKeepsInv(run, actions, result, hasCallback, threads, i);
    assert ThreadInv(run[i], x) && ThreadInv(run[i], y);
  }

  /** The compare-and-swap moves the state from 0 exactly once. */
  lemma {:induction false} OnlyFirstSwapExecutes<T>(
    run: seq<State<T>>, actions: seq<Action<T>>, result: T, hasCallback: bool, threads: nat, i: nat)
    requires IsRun(run, actions, result, hasCallback, threads) && i < |actions|
    ensures run[i].executor.Some? ==> run[i + 1].executor == run[i].executor
    ensures run[i].waitState <= run[i + 1].waitState <= 2
    ensures run[i].waitState == 0 < run[i + 1].waitState <==> actions[i].Swap? && run[i].executor.None?
  {
    RunKeepsInv(run, actions, result, hasCallback, threads, i);
    assert ThreadInv(run[i], actions[i].thread);
  }

  // ---------------------------------------------------------------------------
  // Two claims the object does not support.

  /** A waiter asleep that the only notification has already passed. */
  ghost predicate Stranded<T>(s: State<T>, i: nat) {
    s.announced && i < |s.threads| && s.threads[i] == Sleeping(false)
  }

  /** One step: a waiter becomes stranded exactly when it goes to sleep after the announcement, and stays so until
      a spurious wake-up. */
  lemma {:induction false} StrandedStep<T>(
    run: seq<State<T>>, actions: seq<Action<T>>, result: T, hasCallback: bool, threads: nat, i: nat, x: nat)
    requires IsRun(run, actions, result, hasCallback, threads) && i < |actions|
    ensures Stranded(run[i + 1], x)
       <==> (Stranded(run[i], x) && actions[i].thread != x) || (actions[i] == Block(x) && run[i].announced)
  {
    RunKeepsInv(run, actions, result, hasCallback, threads, i);
    AnnouncedMeansPublished(run, actions, result, hasCallback, threads, i);
    assert ThreadInv(run[i], actions[i].thread);
  }

  /** The step at which a thread that is stranded in state `i` went to sleep for good. */
  ghost predicate FellAsleepAt<T>(run: seq<State<T>>, actions: seq<Action<T>>, i: nat, x: nat, j: nat) {
    && j < i <= |actions| < |run| && actions[j] == Block(x) && run[j].announced
    && forall m :: j < m < i ==> actions[m].thread != x
  }

  /** State 2 is published and announced without the mutex.  In any run a thread is stranded exactly if it once went
      to sleep after the announcement and has not been woken spuriously since. */
  lemma {:induction false} StrandedIff<T>(
    run: seq<State<T>>, actions: seq<Action<T>>, result: T, hasCallback: bool, threads: nat, i: nat, x: nat)
    requires IsRun(run, actions, result, hasCallback, threads) && i < |run|
    ensures Stranded(run[i], x) <==> exists j: nat :: FellAsleepAt(run, actions, i, x, j)
  {
    hide Stranded, Apply, Enabled, FellAsleepAt;
    if i == 0 {
      NobodyAsleep(run, actions, result, hasCallback, threads, x);
    } else {
      StrandedIff(run, actions, result, hasCallback, threads, i - 1, x);
      StrandedStep(run, actions, result, hasCallback, threads, i - 1, x);
      FellAsleepStep(run, actions, i - 1, i, x);
      hide IsRun;
    }
  }

  lemma NobodyAsleep<T>(
    run: seq<State<T>>, actions: seq<Action<T>>, result: T, hasCallback: bool, threads: nat, x: nat)
    requires IsRun(run, actions, result, hasCallback, threads)
    ensures !Stranded(run[0], x) && forall j: nat :: !FellAsleepAt(run, actions, 0, x, j)
  {
  }

  lemma {:induction false} FellAsleepStep<T>(run: seq<State<T>>, actions: seq<Action<T>>, p: nat, i: nat, x: nat)
    requires i == p + 1 && i <= |actions| < |run|
    ensures (exists j: nat :: FellAsleepAt(run, actions, i, x, j))
       <==> ((exists j: nat :: FellAsleepAt(run, actions, p, x, j)) && actions[p].thread != x)
            || (actions[p] == Block(x) && run[p].announced)
  {
    if exists j: nat :: FellAsleepAt(run, actions, i, x, j) {
      var j: nat :| FellAsleepAt(run, actions, i, x, j);
      if j < p {
        assert FellAsleepAt(run, actions, p, x, j);
      }
    }
    if (exists j: nat :: FellAsleepAt(run, actions, p, x, j)) && actions[p].thread != x {
      var j: nat :| FellAsleepAt(run, actions, p, x, j);
      assert FellAsleepAt(run, actions, i, x, j);
    }
    if actions[p] == Block(x) && run[p].announced {
      assert FellAsleepAt(run, actions, i, x, p);
    }
  }

  predicate Waits<T>(pc: Pc<T>) {
    pc.Checking? || pc.Blocking? || pc.Sleeping?
  }

  ghost predicate SawStateOne<T>(run: seq<State<T>>, actions: seq<Action<T>>, x: nat, j: nat) {
    j < |actions| < |run| && actions[j] == Swap(x) && run[j].waitState == 1
  }

  lemma {:induction false} WaiterSawStateOne<T>(
    run: seq<State<T>>, actions: seq<Action<T>>, result: T, hasCallback: bool, threads: nat, i: nat, x: nat)
    requires IsRun(run, actions, result, hasCallback, threads) && i < |run|
    requires x < |run[i].threads| && Waits(run[i].threads[x])
    ensures exists j: nat :: j < i && SawStateOne(run, actions, x, j)
  {
    hide Inv, Apply, SawStateOne, Waits;
    if i == 0 {
      NobodyWaits(run, actions, result, hasCallback, threads, x);
    } else {
      var s, a := run[i - 1], actions[i - 1];
      RunKeepsInv(run, actions, result, hasCallback, threads, i - 1);
      StateRange(s, hasCallback);
      assert Enabled(s, a) && run[i - 1 + 1] == Apply(s, a);
      hide Enabled;
      WaitsSince(s, a, x);
      if Waits(s.threads[x]) {
        WaiterSawStateOne(run, actions, result, hasCallback, threads, i - 1, x);
      } else {
        SawAt(run, actions, x, i - 1);
      }
    }
  }

  lemma NobodyWaits<T>(
    run: seq<State<T>>, actions: seq<Action<T>>, result: T, hasCallback: bool, threads: nat, x: nat)
    requires IsRun(run, actions, result, hasCallback, threads) && x < |run[0].threads|
    ensures !Waits(run[0].threads[x])
  {
  }

  lemma StateRange<T>(s: State<T>, hasCallback: bool)
    requires Inv(s, hasCallback)
    ensures s.waitState <= 2
  {
  }

  lemma SawAt<T>(run: seq<State<T>>, actions: seq<Action<T>>, x: nat, j: nat)
    requires j < |actions| < |run| && actions[j] == Swap(x) && run[j].waitState == 1
    ensures SawStateOne(run, actions, x, j)
  {
  }

  /** A thread that waits has waited before, or its swap has just seen state 1. */
  lemma {:induction false} WaitsSince<T>(s: State<T>, a: Action<T>, x: nat)
    requires Enabled(s, a) && s.waitState <= 2 && x < |Apply(s, a).threads| && Waits(Apply(s, a).threads[x])
    ensures x < |s.threads|
    ensures Waits(s.threads[x]) || (a == Swap(x) && s.waitState == 1)
  {
    if a.thread == x {
      OwnStepWaits(s, a);
    } else {
      OthersStepWaits(s, a, x);
    }
  }

  lemma OwnStepWaits<T>(s: State<T>, a: Action<T>)
    requires Enabled(s, a) && s.waitState <= 2
    ensures |Apply(s, a).threads| == |s.threads|
    ensures Waits(Apply(s, a).threads[a.thread]) ==> Waits(s.threads[a.thread]) || (a.Swap? && s.waitState == 1)
  {
    hide Notified, AnswerOf;
    match a {
      case Swap(_) =>
      case Check(_) =>
      case Block(_) =>
      case Wake(_) =>
      case Spurious(_) =>
      case Read(_) =>
      case Notify(_) =>
      case Publish(_) =>
      case Clear(_) =>
      case TestCallback(_) =>
      case RunTransport(_, _) =>
      case RunCallback(_, _) =>
      case RunCompletion(_, _) =>
    }
  }

  lemma OthersStepWaits<T>(s: State<T>, a: Action<T>, x: nat)
    requires Enabled(s, a) && x != a.thread
    ensures |Apply(s, a).threads| == |s.threads|
    ensures x < |s.threads| ==> (Waits(Apply(s, a).threads[x]) <==> Waits(s.threads[x]))
  {
    hide AnswerOf;
  }

  /** Only a thread whose swap saw state 1 is ever stranded. */
  lemma {:induction false} StrandedSawStateOne<T>(
    run: seq<State<T>>, actions: seq<Action<T>>, result: T, hasCallback: bool, threads: nat, i: nat, x: nat)
    requires IsRun(run, actions, result, hasCallback, threads) && i < |run| && Stranded(run[i], x)
    ensures exists j: nat :: j < i && SawStateOne(run, actions, x, j)
  {
    WaiterSawStateOne(run, actions, result, hasCallback, threads, i, x);
  }

  /** One more step of a run. */
  lemma {:induction false} ExtendRun<T>(
    run: seq<State<T>>, actions: seq<Action<T>>, result: T, hasCallback: bool, threads: nat, a: Action<T>)
    requires IsRun(run, actions, result, hasCallback, threads) && Enabled(run[|actions|], a)
    ensures IsRun(run + [Apply(run[|actions|], a)], actions + [a], result, hasCallback, threads)
  {
    hide Enabled, Apply;
  }

  /** What the executor does next when nothing fails. */
  function NextAction<T>(pc: Pc<T>, e: nat, result: T): Action<T>
    requires Executes(pc)
  {
    match pc
    case Transport => RunTransport(e, Returns(()))
    case CallbackTest => TestCallback(e)
    case CallbackRun => RunCallback(e, Returns(result))
    case Completion => RunCompletion(e, Returns(()))
    case Clearing => Clear(e)
    case Publishing => Publish(e)
    case Notifying => Notify(e)
  }

  /** Stages left to the executor. */
  function Left<T>(pc: Pc<T>): nat {
    match pc
    case Transport => 7
    case CallbackTest => 6
    case CallbackRun => 5
    case Completion => 4
    case Clearing => 3
    case Publishing => 2
    case Notifying => 1
    case _ => 0
  }

  lemma {:induction false} ExecutorMoves<T>(s: State<T>, e: nat, x: nat, result: T)
    requires e < |s.threads| && x < |s.threads| && Executes(s.threads[e]) && s.threads[x].Blocking?
    ensures var a := NextAction(s.threads[e], e, result);
            && Enabled(s, a) && Apply(s, a).threads[x].Blocking? && |Apply(s, a).threads| == |s.threads|
            && Left(Apply(s, a).threads[e]) < Left(s.threads[e])
            && (if s.threads[e].Notifying? then Apply(s, a).announced else Executes(Apply(s, a).threads[e]))
  {
  }

  /** While a waiter is about to sleep, the executor can run to the end and announce. */
  lemma {:induction false} ExecutorRunsOut<T>(
    run: seq<State<T>>, actions: seq<Action<T>>, result: T, hasCallback: bool, threads: nat, e: nat, x: nat)
    returns (longer: seq<State<T>>, more: seq<Action<T>>)
    requires IsRun(run, actions, result, hasCallback, threads)
    requires e < |run[|actions|].threads| && x < |run[|actions|].threads|
    requires Executes(run[|actions|].threads[e]) && run[|actions|].threads[x].Blocking?
    ensures IsRun(longer, more, result, hasCallback, threads) && actions <= more
    ensures longer[|more|].announced && x < |longer[|more|].threads| && longer[|more|].threads[x].Blocking?
    decreases Left(run[|actions|].threads[e])
  {
    var s := run[|actions|];
    var a := NextAction(s.threads[e], e, result);
    ExecutorMoves(s, e, x, result);
    ExtendRun(run, actions, result, hasCallback, threads, a);
    longer, more := run + [Apply(s, a)], actions + [a];
    hide Apply, NextAction, Enabled;
    if !s.threads[e].Notifying? {
      longer, more := ExecutorRunsOut(longer, more, result, hasCallback, threads, e, x);
    }
  }

  /** And every such thread can be: from the state after its swap there is a continuation that strands it. */
  lemma {:induction false} SawStateOneCanBeStranded<T>(
    run: seq<State<T>>, actions: seq<Action<T>>, result: T, hasCallback: bool, threads: nat, x: nat)
    returns (longer: seq<State<T>>, more: seq<Action<T>>)
    requires IsRun(run, actions, result, hasCallback, threads)
    requires actions != [] && SawStateOne(run, actions, x, |actions| - 1)
    ensures IsRun(longer, more, result, hasCallback, threads) && actions <= more
    ensures Stranded(longer[|more|], x)
  {
    var n := |actions| - 1;
    var before, s := run[n], run[n + 1];
    RunKeepsInv(run, actions, result, hasCallback, threads, n);
    assert s == Apply(before, Swap(x)) && s.threads[x].Checking? && s.waitState == 1;
    var e := before.executor.value;
    assert Executes(s.threads[e]) && e != x;
    ExtendRun(run, actions, result, hasCallback, threads, Check(x));
    longer, more := run + [Apply(s, Check(x))], actions + [Check(x)];
    assert Apply(s, Check(x)).threads[x].Blocking?;
    hide ExecutorInv;
    longer, more := ExecutorRunsOut(longer, more, result, hasCallback, threads, e, x);
    ExtendRun(longer, more, result, hasCallback, threads, Block(x));
    longer, more := longer + [Apply(longer[|more|], Block(x))], more + [Block(x)];
  }

  function StrandingActions(n: nat): Action<int> {
    match n
    case 0 => Swap(0)
    case 1 => Swap(1)
    case 2 => Check(1)
    case 3 => RunTransport(0, Returns(()))
    case 4 => TestCallback(0)
    case 5 => RunCompletion(0, Returns(()))
    case 6 => Clear(0)
    case 7 => Publish(0)
    case 8 => Notify(0)
    case _ => Block(1)
  }

  function StrandingThreads(n: nat): seq<Pc<int>> {
    match n
    case 0 => [Start, Start]
    case 1 => [Transport, Start]
    case 2 => [Transport, Checking]
    case 3 => [Transport, Blocking]
    case 4 => [CallbackTest, Blocking]
    case 5 => [Completion, Blocking]
    case 6 => [Clearing, Blocking]
    case 7 => [Publishing, Blocking]
    case 8 => [Notifying, Blocking]
    case 9 => [Reading, Blocking]
    case _ => [Reading, Sleeping(false)]
  }

  function StrandingState(result: int, n: nat): State<int> {
    State(if n == 0 then 0 else if n < 8 then 1 else 2, result, None, true, if n < 7 then 0 else 1, n >= 9,
          if n < 4 then 0 else 1, 0, if n == 0 then None else Some(0), StrandingThreads(n))
  }

  lemma StrandingStep(result: int, n: nat)
    requires n < 10
    ensures Enabled(StrandingState(result, n), StrandingActions(n))
    ensures StrandingState(result, n + 1) == Apply(StrandingState(result, n), StrandingActions(n))
  {
  }

  /** Two threads are enough: one waiter tests the state, the executor runs to the end, the waiter sleeps. */
  lemma {:induction false} WaiterCanBeStranded(result: int)
    ensures exists run, actions :: IsRun(run, actions, result, false, 2) && Stranded(run[|run| - 1], 1)
  {
    var run := seq(11, (i: nat) => StrandingState(result, i));
    var actions := seq(10, (i: nat) => StrandingActions(i));
    forall i | 0 <= i < 10
      ensures Enabled(run[i], actions[i]) && run[i + 1] == Apply(run[i], actions[i])
    {
      StrandingStep(result, i);
    }
    assert run[0] == Initial(result, false, 2);
    assert IsRun(run, actions, result, false, 2) && Stranded(run[|run| - 1], 1);
  }

  lemma {:induction false} AnnouncedMeansPublished<T>(
    run: seq<State<T>>, actions: seq<Action<T>>, result: T, hasCallback: bool, threads: nat, i: nat)
    requires IsRun(run, actions, result, hasCallback, threads) && i < |run|
    ensures run[i].announced ==> ExecutorIsDone(run[i])
  {
    if i > 0 {
      AnnouncedMeansPublished(run, actions, result, hasCallback, threads, i - 1);
      RunKeepsInv(run, actions, result, hasCallback, threads, i - 1);
      AnnouncedStep(run[i - 1], actions[i - 1], hasCallback);
    }
  }

  /** The executor has left its stages once it has announced. */
  ghost predicate ExecutorIsDone<T>(s: State<T>) {
    s.executor.Some? && s.executor.value < |s.threads| && !Executes(s.threads[s.executor.value])
  }

  lemma {:induction false} AnnouncedStep<T>(s: State<T>, a: Action<T>, hasCallback: bool)
    requires Inv(s, hasCallback) && Enabled(s, a) && (s.announced ==> ExecutorIsDone(s))
    ensures Apply(s, a).announced ==> ExecutorIsDone(Apply(s, a))
  {
    assert ThreadInv(s, a.thread);
    hide AnswerOf;
  }

  /** The error of the last foreign call that threw. */
  function LastThrown<T>(actions: seq<Action<T>>): Option<string> {
    if actions == [] then None
    else
      match actions[|actions| - 1]
      case RunTransport(_, Throws(e)) => Some(e)
      case RunCallback(_, Throws(e)) => Some(e)
      case RunCompletion(_, Throws(e)) => Some(e)
      case _ => LastThrown(actions[..|actions| - 1])
  }

  /** The value of the last callback that returned, or else the given result. */
  function LastReturned<T>(actions: seq<Action<T>>, result: T): T {
    if actions == [] then result
    else
      match actions[|actions| - 1]
      case RunCallback(_, Returns(value)) => value
      case _ => LastReturned(actions[..|actions| - 1], result)
  }

  lemma {:induction false} StoredIs<T>(
    run: seq<State<T>>, actions: seq<Action<T>>, result: T, hasCallback: bool, threads: nat, i: nat)
    requires IsRun(run, actions, result, hasCallback, threads) && i < |run|
    ensures run[i].error == LastThrown(actions[..i]) && run[i].result == LastReturned(actions[..i], result)
  {
    if i > 0 {
      StoredIs(run, actions, result, hasCallback, threads, i - 1);
      assert actions[..i][..i - 1] == actions[..i - 1];
      assert Enabled(run[i - 1], actions[i - 1]) && run[i - 1 + 1] == Apply(run[i - 1], actions[i - 1]);
    }
  }

  /** What a wait that returns gives: the error of the call that threw, or else the callback's value, or the given
      result when there was no callback. */
  lemma {:induction false} AnswerIsOutcome<T>(
    run: seq<State<T>>, actions: seq<Action<T>>, result: T, hasCallback: bool, threads: nat, i: nat, x: nat)
    requires IsRun(run, actions, result, hasCallback, threads) && i < |run|
    requires x < |run[i].threads| && run[i].threads[x].Finished?
    ensures run[i].threads[x].answer
         == match LastThrown(actions[..i])
            case Some(e) => Error(e)
            case None => Value(LastReturned(actions[..i], result))
  {
    RunKeepsInv(run, actions, result, hasCallback, threads, i);
    assert ThreadInv(run[i], x);
    StoredIs(run, actions, result, hasCallback, threads, i);
    hide IsRun, ExecutorInv;
  }

  /** What `query` answers before or after publication. */
  predicate Query<T>(s: State<T>, transportDone: bool, completionDone: bool) {
    s.waitState == 2 || (transportDone && s.callbackFinished && completionDone)
  }

  /** Once some wait has returned, every query answers yes. */
  lemma {:induction false} QueryAfterWait<T>(
    run: seq<State<T>>, actions: seq<Action<T>>, result: T, hasCallback: bool, threads: nat, i: nat, x: nat)
    requires IsRun(run, actions, result, hasCallback, threads) && i < |run|
    requires x < |run[i].threads| && run[i].threads[x].Finished?
    ensures forall transportDone, completionDone :: Query(run[i], transportDone, completionDone)
  {
    RunKeepsInv(run, actions, result, hasCallback, threads, i);
    assert ThreadInv(run[i], x);
  }

  /** A thread that neither executes nor sleeps unnotified nor is about to. */
  predicate Awake<T>(pc: Pc<T>) {
    pc.Start? || pc.Checking? || (pc.Sleeping? && pc.notified) || pc.Reading?
  }

  function AwakeNext<T>(pc: Pc<T>, x: nat): Action<T> {
    if pc.Start? then Swap(x) else if pc.Checking? then Check(x) else if pc.Sleeping? then Wake(x) else Read(x)
  }

  function AwakeLeft<T>(pc: Pc<T>): nat {
    if pc.Sleeping? then 3 else if pc.Reading? then 1 else if pc.Finished? then 0 else 2
  }

  /** After publication a thread that is awake can go on, and returns after at most three actions of its own. */
  lemma {:induction false} AwakeGoesOn<T>(s: State<T>, x: nat)
    requires s.waitState == 2 && x < |s.threads| && Awake(s.threads[x])
    ensures Enabled(s, AwakeNext(s.threads[x], x))
    ensures var next := Apply(s, AwakeNext(s.threads[x], x)).threads[x];
            && AwakeLeft(next) < AwakeLeft(s.threads[x]) <= 3
            && (Awake(next) || next.Finished?)
  {
    hide AnswerOf;
  }

  /** Nobody else's action takes it back. */
  lemma {:induction false} AwakeStaysAwake<T>(
    run: seq<State<T>>, actions: seq<Action<T>>, result: T, hasCallback: bool, threads: nat, i: nat, x: nat,
    a: Action<T>)
    requires IsRun(run, actions, result, hasCallback, threads) && i < |run| && run[i].waitState == 2
    requires x < |run[i].threads| && Awake(run[i].threads[x]) && Enabled(run[i], a) && a.thread != x
    ensures var t := Apply(run[i], a);
            && t.waitState == 2 && x < |t.threads| && Awake(t.threads[x])
            && AwakeLeft(t.threads[x]) == AwakeLeft(run[i].threads[x])
  {
    RunKeepsInv(run, actions, result, hasCallback, threads, i);
    assert ThreadInv(run[i], a.thread);
    hide IsRun, AnswerOf;
  }

  /** `query` can be true while the callback has not run: the finished flag is set before the call. */
  lemma {:induction false} QueryCanPrecedeCallback(result: int)
    ensures var s0 := Initial(result, true, 1);
            var a: Action<int>, b: Action<int> := Swap(0), RunTransport(0, Returns(()));
            var c: Action<int> := TestCallback(0);
            && Enabled(s0, a) && Enabled(Apply(s0, a), b) && Enabled(Apply(Apply(s0, a), b), c)
            && var s := Apply(Apply(Apply(s0, a), b), c);
               Query(s, true, true) && s.callbackRuns == 0 && s.threads[0] == CallbackRun
  {
  }

  /** In a reachable state a query is right, in that the callback has been dealt with, exactly unless the
      executor is inside the callback. */
  lemma {:induction false} QueryIsRightIff<T>(
    run: seq<State<T>>, actions: seq<Action<T>>, result: T, threads: nat, i: nat)
    requires IsRun(run, actions, result, true, threads) && i < |run| && Query(run[i], true, true)
    ensures CallbackSettled(run[i], true)
       <==> !(run[i].executor.Some? && run[i].executor.value < |run[i].threads|
              && run[i].threads[run[i].executor.value].CallbackRun?)
  {
    RunKeepsInv(run, actions, result, true, threads, i);
  }
}
