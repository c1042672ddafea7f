/** Pooled workspaces, their leases, and works that own leases until completion. */
module Workspace {
  import opened Wrappers

  type Key = nat

  /** The free buffers of every key, the last one on top. */
  type Pool<T> = map<Key, seq<T>>

  function Free<T>(p: Pool<T>, key: Key): seq<T> {
    if key in p then p[key] else []
  }

  function Pop<T>(p: Pool<T>, key: Key): Pool<T>
    requires |Free(p, key)| > 0
  {
    p[key := p[key][..|p[key]| - 1]]
  }

  function Top<T>(p: Pool<T>, key: Key): T
    requires |Free(p, key)| > 0
  {
    p[key][|p[key]| - 1]
  }

  function Push<T>(p: Pool<T>, key: Key, value: T): Pool<T> {
    p[key := Free(p, key) + [value]]
  }

  class WorkspacePool<T> {
    var available: Pool<T>

    constructor ()
      ensures available == map[]
    {
      available := map[];
    }

    /** Take a free buffer of the key, or the one the allocator would return. */
    method Acquire(key: Key, made: T) returns (lease: WorkspaceLease<T>)
      modifies this
      ensures fresh(lease) && lease.pool == this && lease.key == key && !lease.released
      ensures if |Free(old(available), key)| > 0
              then lease.value == Top(old(available), key) && available == Pop(old(available), key)
              else lease.value == made && available == old(available)
    {
      var value := made;
      if |Free(available, key)| > 0 {
        value := Top(available, key);
        available := Pop(available, key);
      }
      lease := new WorkspaceLease(this, key, value);
    }

    method Return(key: Key, value: T)
      modifies this
      ensures available == Push(old(available), key, value)
    {
      available := Push(available, key, value);
    }
  }

  class WorkspaceLease<T> {
    const pool: WorkspacePool<T>
    const key: Key
    const value: T
    var released: bool

    constructor (pool: WorkspacePool<T>, key: Key, value: T)
      ensures this.pool == pool && this.key == key && this.value == value && !released
    {
      this.pool := pool;
      this.key := key;
      this.value := value;
      this.released := false;
    }

    method Value() returns (r: Result<T>)
      ensures r == if released then Err("workspace lease has been released") else Ok(value)
    {
      r := if released then Err("workspace lease has been released") else Ok(value);
    }

    /** Idempotent: the buffer goes back once. */
    method Release()
      modifies this, pool
      ensures released
      ensures pool.available == if old(released) then old(pool.available) else Push(old(pool.available), key, value)
    {
      if released {
        return;
      }
      released := true;
      pool.Return(key, value);
    }
  }

  /** A buffer taken and released again leaves the pool with the same free buffers of its key. */
  lemma {:induction false} PushAfterPop<T>(p: Pool<T>, key: Key)
    requires |Free(p, key)| > 0
    ensures Push(Pop(p, key), key, Top(p, key)) == p
  {
    var s := p[key];
    assert s[..|s| - 1] + [s[|s| - 1]] == s;
  }

  /** The free buffers of a key are a stack: the last one is taken, a returned one is put behind it, and the other keys
      keep theirs. */
  lemma {:induction false} FreeIsStack<T>(p: Pool<T>, key: Key, other: Key, value: T)
    ensures |Free(p, key)| > 0 ==> Free(Pop(p, key), key) + [Top(p, key)] == Free(p, key)
    ensures |Free(p, key)| > 0 && other != key ==> Free(Pop(p, key), other) == Free(p, other)
    ensures Free(Push(p, key, value), key) == Free(p, key) + [value]
    ensures other != key ==> Free(Push(p, key, value), other) == Free(p, other)
    ensures key !in p ==> Free(p, key) == []
  {
  }

  // ---------------------------------------------------------------------------
  // Completion.

  /** How one run of the completion callback ends. */
  datatype Outcome<+T> = Returned(value: T) | Raises(error: string)

  datatype WaitResult<+T> = Timeout | Value(value: T) | Error(error: string)

  /** Buffers pushed back from the last to the first, without those to be skipped. */
  function PushBack<T>(p: Pool<T>, keys: seq<Key>, values: seq<T>, skips: seq<bool>): Pool<T>
    requires |keys| == |values| == |skips|
    decreases |keys|
  {
    if keys == [] then p
    else
      var n := |keys| - 1;
      var q := if skips[n] then p else Push(p, keys[n], values[n]);
      PushBack(q, keys[..n], values[..n], skips[..n])
  }

  /** The buffers that go back to a key, the last one first. */
  function GoingBack<T>(key: Key, keys: seq<Key>, values: seq<T>, skips: seq<bool>): seq<T>
    requires |keys| == |values| == |skips|
    decreases |keys|
  {
    if keys == [] then []
    else
      var rest := GoingBack(key, keys[1..], values[1..], skips[1..]);
      if keys[0] == key && !skips[0] then rest + [values[0]] else rest
  }

  lemma {:induction false} GoingBackLast<T>(key: Key, keys: seq<Key>, values: seq<T>, skips: seq<bool>)
    requires |keys| == |values| == |skips| > 0
    ensures var n := |keys| - 1;
            GoingBack(key, keys, values, skips)
            == (if keys[n] == key && !skips[n] then [values[n]] else [])
               + GoingBack(key, keys[..n], values[..n], skips[..n])
    decreases |keys|
  {
    var n := |keys| - 1;
    if n > 0 {
      GoingBackLast(key, keys[1..], values[1..], skips[1..]);
      assert keys[1..][..n - 1] == keys[..n][1..];
      assert values[1..][..n - 1] == values[..n][1..];
      assert skips[1..][..n - 1] == skips[..n][1..];
    }
  }

  /** After the releases of a work the free buffers of a key are the earlier ones and behind them the key's buffers that
      went back, in reverse order of the resources. */
  lemma {:induction false} PushedBack<T>(p: Pool<T>, keys: seq<Key>, values: seq<T>, skips: seq<bool>, key: Key)
    requires |keys| == |values| == |skips|
    ensures Free(PushBack(p, keys, values, skips), key) == Free(p, key) + GoingBack(key, keys, values, skips)
    decreases |keys|
  {
    if keys != [] {
      var n := |keys| - 1;
      var q := if skips[n] then p else Push(p, keys[n], values[n]);
      PushedBack(q, keys[..n], values[..n], skips[..n], key);
      GoingBackLast(key, keys, values, skips);
      FreeIsStack(p, keys[n], key, values[n]);
      hide Push, Free;
    }
  }

  lemma {:induction false} PushBackStep<T>(p: Pool<T>, keys: seq<Key>, values: seq<T>, skips: seq<bool>, i: nat)
    requires i < |keys| == |values| == |skips|
    ensures PushBack(p, keys[..i + 1], values[..i + 1], skips[..i + 1])
         == PushBack(if skips[i] then p else Push(p, keys[i], values[i]), keys[..i], values[..i], skips[..i])
  {
    assert keys[..i + 1][..i] == keys[..i];
    assert values[..i + 1][..i] == values[..i];
    assert skips[..i + 1][..i] == skips[..i];
  }

  /** The resources of a work are leases of any pools, and a lease may occur more than once. */
  class CompletionWork<T> {
    var result: T
    var error: Option<string>
    var finished: bool
    const hasCallback: bool
    const resources: seq<WorkspaceLease<T>>

    function Keys(): (keys: seq<Key>)
      ensures |keys| == |resources|
    {
      seq(|resources|, i requires 0 <= i < |resources| => resources[i].key)
    }

    function Values(): (values: seq<T>)
      ensures |values| == |resources|
    {
      seq(|resources|, i requires 0 <= i < |resources| => resources[i].value)
    }

    ghost function Pools(): (pools: set<WorkspacePool<T>>)
      ensures forall i :: 0 <= i < |resources| ==> resources[i].pool in pools
    {
      set i | 0 <= i < |resources| :: resources[i].pool
    }

    /** What a wait does not return to the pool: released leases, leases of other pools, and all but the last
        occurrence of a lease. */
    ghost function Skips(pool: WorkspacePool<T>): (skips: seq<bool>)
      reads resources
      ensures |skips| == |resources|
    {
      seq(|resources|, i requires 0 <= i < |resources| reads resources =>
        resources[i].released || resources[i].pool != pool || resources[i] in resources[i + 1..])
    }

    constructor (result: T, hasCallback: bool, resources: seq<WorkspaceLease<T>>)
      ensures !finished && error == None && this.result == result
      ensures this.hasCallback == hasCallback && this.resources == resources
    {
      this.result := result;
      this.error := None;
      this.finished := false;
      this.hasCallback := hasCallback;
      this.resources := resources;
    }

    method Query() returns (done: bool)
      ensures done == finished
    {
      done := finished;
    }

    /** What is in the pool `p` once the first `i` resources are pushed back as well. */
    ghost function Later(p: WorkspacePool<T>, i: nat, skips: seq<bool>): Pool<T>
      requires i <= |resources| == |skips|
      reads p
    {
      PushBack(p.available, Keys()[..i], Values()[..i], skips[..i])
    }

    lemma {:induction false} LaterAtEnds(p: WorkspacePool<T>, skips: seq<bool>)
      requires |skips| == |resources|
      ensures Later(p, 0, skips) == p.available
      ensures Later(p, |resources|, skips) == PushBack(p.available, Keys(), Values(), skips)
    {
      assert Keys()[..|resources|] == Keys() && Values()[..|resources|] == Values();
      assert skips[..|resources|] == skips;
    }

    /** Release one lease: nothing changes later. */
    method ReleaseOne(i: nat, ghost skips: map<WorkspacePool<T>, seq<bool>>)
      requires i < |resources| && skips.Keys == Pools() && forall p :: p in Pools() ==> |skips[p]| == |resources|
      requires forall p :: p in Pools() ==> skips[p][i] == (resources[i].released || resources[i].pool != p)
      modifies resources[i], Pools()
      ensures resources[i].released
      ensures forall p :: p in Pools() ==> Later(p, i, skips[p]) == old(Later(p, i + 1, skips[p]))
    {
      hide PushBack, Push;
      forall p | p in Pools()
        ensures Later(p, i + 1, skips[p])
             == PushBack(if skips[p][i] then p.available else Push(p.available, resources[i].key, resources[i].value),
                         Keys()[..i], Values()[..i], skips[p][..i])
      {
        PushBackStep(p.available, Keys(), Values(), skips[p], i);
      }
      resources[i].Release();
    }

    /** Release every lease, the last one first. */
    method ReleaseAll()
      modifies resources, Pools()
      ensures forall i :: 0 <= i < |resources| ==> resources[i].released
      ensures forall p :: p in Pools() ==>
                p.available == PushBack(old(p.available), Keys(), Values(), old(Skips(p)))
    {
      hide Push, PushBack, CompletionWork.Keys, CompletionWork.Values, CompletionWork.Later;
      ghost var skips := map p | p in Pools() :: Skips(p);
      var i := |resources|;
      forall p | p in Pools()
        ensures Later(p, i, skips[p]) == PushBack(p.available, Keys(), Values(), skips[p])
      {
        LaterAtEnds(p, skips[p]);
      }
      while i > 0
        invariant 0 <= i <= |resources|
        invariant forall j :: 0 <= j < |resources| ==>
                    resources[j].released == (old(resources[j].released) || resources[j] in resources[i..])
        invariant forall p :: p in Pools() ==> Later(p, i, skips[p]) == old(Later(p, |resources|, skips[p]))
      {
        i := i - 1;
        assert resources[i..] == [resources[i]] + resources[i + 1..];
        ReleaseOne(i, skips);
      }
      forall p | p in Pools()
        ensures p.available == PushBack(old(p.available), Keys(), Values(), old(Skips(p)))
      {
        LaterAtEnds(p, skips[p]);
      }
    }

    /** The callback's result or error is stored; without a callback the given result stays. */
    method RunCallback(callback: Outcome<T>)
      modifies this`result, this`error
      ensures hasCallback && callback.Returned? ==> result == callback.value && error == old(error)
      ensures hasCallback && callback.Raises? ==> result == old(result) && error == Some(callback.error)
      ensures !hasCallback ==> result == old(result) && error == old(error)
    {
      if hasCallback {
        match callback {
          case Returned(value) => result := value;
          case Raises(message) => error := Some(message);
        }
      }
    }

    /** Time out, or finish once and answer from the stored result or error. */
    method Wait(fired: bool, callback: Outcome<T>) returns (r: WaitResult<T>)
      modifies this, resources, Pools()
      ensures !fired ==> r == Timeout
      ensures !fired || old(finished) ==> unchanged(this) && unchanged(resources) && unchanged(Pools())
      ensures fired && !old(finished) ==>
        && (forall i :: 0 <= i < |resources| ==> resources[i].released)
        && (forall p :: p in Pools() ==>
              p.available == PushBack(old(p.available), Keys(), Values(), old(Skips(p))))
        && (hasCallback && callback.Returned? ==> result == callback.value && error == old(error))
        && (hasCallback && callback.Raises? ==> result == old(result) && error == Some(callback.error))
        && (!hasCallback ==> result == old(result) && error == old(error))
      ensures fired ==> finished && r == if error.Some? then Error(error.value) else Value(result)
    {
      hide PushBack, CompletionWork.Keys, CompletionWork.Values, CompletionWork.Skips;
      if !fired {
        return Timeout;
      }
      if !finished {
        RunCallback(callback);
        ReleaseAll();
        finished := true;
      }
      r := if error.Some? then Error(error.value) else Value(result);
    }
  }

  // ---------------------------------------------------------------------------
  // Any sequence of waits on one work, with resources whose release may raise.

  /** One call of `wait`: whether the event fires in time, how the callback would end, whether a release raises. */
  datatype WaitCall<T> = WaitCall(fired: bool, callback: Outcome<T>, releaseRaises: bool)

  /** `runs` counts callback executions. */
  datatype WorkState<T> = WorkState(result: T, error: Option<string>, finished: bool, runs: nat)

  function WaitStep<T>(w: WorkState<T>, c: WaitCall<T>): WorkState<T> {
    if !c.fired || w.finished then w
    else
      var ran := match c.callback
                 case Returned(v) => w.(result := v, runs := w.runs + 1)
                 case Raises(e) => w.(error := Some(e), runs := w.runs + 1);
      ran.(finished := !c.releaseRaises)
  }

  function Waits<T>(w: WorkState<T>, calls: seq<WaitCall<T>>): WorkState<T> {
    if calls == [] then w else WaitStep(Waits(w, calls[..|calls| - 1]), calls[|calls| - 1])
  }

  ghost predicate SomeCleanWait<T>(calls: seq<WaitCall<T>>) {
    exists i :: 0 <= i < |calls| && calls[i].fired && !calls[i].releaseRaises
  }

  function FiredWaits<T>(calls: seq<WaitCall<T>>): nat {
    if calls == [] then 0
    else FiredWaits(calls[..|calls| - 1]) + if calls[|calls| - 1].fired then 1 else 0
  }

  lemma {:induction false} FinishedIff<T>(w: WorkState<T>, calls: seq<WaitCall<T>>)
    requires !w.finished
    ensures Waits(w, calls).finished <==> SomeCleanWait(calls)
    ensures !SomeCleanWait(calls) ==> Waits(w, calls).runs == w.runs + FiredWaits(calls)
  {
    if calls != [] {
      var front, last := calls[..|calls| - 1], calls[|calls| - 1];
      FinishedIff(w, front);
      if SomeCleanWait(front) {
        var i :| 0 <= i < |front| && front[i].fired && !front[i].releaseRaises;
        assert calls[i] == front[i];
      }
      if SomeCleanWait(calls) {
        var i :| 0 <= i < |calls| && calls[i].fired && !calls[i].releaseRaises;
        assert i < |front| ==> front[i] == calls[i];
      }
    }
  }

  /** A wait runs the callback exactly when its event fires and no earlier wait finished; an earlier wait
      finished exactly when some earlier one fired and no release raised in it.  So the callback
      runs at most once as long as releases do not raise, and again after every wait in which one did. */
  lemma {:induction false} CallbackRunsAgainIff<T>(w: WorkState<T>, calls: seq<WaitCall<T>>, next: WaitCall<T>)
    requires !w.finished
    ensures Waits(w, calls + [next]).runs > Waits(w, calls).runs <==> next.fired && !SomeCleanWait(calls)
    ensures SomeCleanWait(calls) ==> Waits(w, calls + [next]) == Waits(w, calls)
  {
    assert (calls + [next])[..|calls|] == calls;
    FinishedIff(w, calls);
  }

  /** Without raising releases the callback runs once in all. */
  lemma {:induction false} CallbackRunsAtMostOnce<T>(w: WorkState<T>, calls: seq<WaitCall<T>>)
    requires !w.finished && forall i :: 0 <= i < |calls| ==> !calls[i].releaseRaises
    ensures Waits(w, calls).runs <= w.runs + 1
    ensures Waits(w, calls).finished <==> FiredWaits(calls) > 0
    ensures !Waits(w, calls).finished ==> Waits(w, calls).runs == w.runs
  {
    if calls != [] {
      var front := calls[..|calls| - 1];
      assert forall i :: 0 <= i < |front| ==> front[i] == calls[i];
      CallbackRunsAtMostOnce(w, front);
    }
  }

  /** What all waits answer from: if wait `f` is the first that fires and no release raises in it, the outcome of its
      callback, whatever comes later. */
  lemma {:induction false} FirstFiredDecides<T>(w: WorkState<T>, calls: seq<WaitCall<T>>, f: nat)
    requires !w.finished && f < |calls| && calls[f].fired && !calls[f].releaseRaises
    requires forall i :: 0 <= i < f ==> !calls[i].fired
    ensures var t := Waits(w, calls);
            && t.finished && t.runs == w.runs + 1
            && (match calls[f].callback
                case Returned(v) => t.result == v && t.error == w.error
                case Raises(e) => t.result == w.result && t.error == Some(e))
    decreases |calls|
  {
    var front := calls[..|calls| - 1];
    if f < |front| {
      FirstFiredDecides(w, front, f);
    } else {
      NothingFired(w, front);
    }
  }

  lemma {:induction false} NothingFired<T>(w: WorkState<T>, calls: seq<WaitCall<T>>)
    requires forall i :: 0 <= i < |calls| ==> !calls[i].fired
    ensures Waits(w, calls) == w
  {
    if calls != [] {
      NothingFired(w, calls[..|calls| - 1]);
    }
  }
}
