/** Workspaces under many threads: every step is one critical section of a pool, a lease or a work. */
module Ownership {
  import opened Workspace

  /** A release first marks the lease under the lease's lock and then returns the buffer under the pool's. */
  datatype Status = Active | InReturn | Released

  datatype Releaser = Nobody | User | Owner(work: nat)

  datatype Lease = Lease(key: Key, buffer: nat, status: Status, releaser: Releaser)

  /** `Releasing(n)`: the first `n` leases are still to be released; the callback has ended.
      `Returning(n)`: lease `n` is marked, and its buffer goes back before anything else happens. */
  datatype Phase = Open | Completing | Releasing(left: nat) | Returning(left: nat) | Finished

  datatype Work = Work(leases: seq<nat>, fired: bool, phase: Phase)

  /** Where a buffer is. */
  datatype Place = InPool | Held(lease: nat)

  /** Buffers are numbered as they are allocated; `keyOf` is the key each was allocated for. */
  datatype State = State(pool: Pool<nat>, keyOf: seq<Key>, place: seq<Place>, leases: seq<Lease>, works: seq<Work>)

  datatype Action =
    | Acquire(key: Key)
    | Mark(lease: nat)
    | Return(lease: nat)
    | Create(held: seq<nat>)
    | Fire(work: nat)
    | Begin(work: nat)
    | Complete(work: nat)
    | ReleaseNext(work: nat)
    | Finish(work: nat)

  predicate Enabled(s: State, a: Action) {
    match a
    case Acquire(_) => true
    case Mark(l) => l < |s.leases| && s.leases[l].status == Active
    case Return(l) =>
      l < |s.leases| && s.leases[l].status == InReturn && s.leases[l].buffer < |s.place|
    case Create(held) => forall i :: 0 <= i < |held| ==> held[i] < |s.leases|
    case Fire(w) => w < |s.works|
    case Begin(w) => w < |s.works| && s.works[w].fired && s.works[w].phase == Open
    case Complete(w) => w < |s.works| && s.works[w].phase == Completing
    case ReleaseNext(w) =>
      w < |s.works| && s.works[w].phase.Releasing? && 0 < s.works[w].phase.left <= |s.works[w].leases|
      && s.works[w].leases[s.works[w].phase.left - 1] < |s.leases|
    case Finish(w) => w < |s.works| && s.works[w].phase == Releasing(0)
  }

  function SetPhase(s: State, w: nat, phase: Phase): State
    requires w < |s.works|
  {
    s.(works := s.works[w := s.works[w].(phase := phase)])
  }

  /** The work that has returned a buffer goes on with its next lease. */
  function AfterReturn(works: seq<Work>, releaser: Releaser): (t: seq<Work>)
    ensures |t| == |works|
  {
    if releaser.Owner? && releaser.work < |works| && works[releaser.work].phase.Returning?
    then works[releaser.work := works[releaser.work].(phase := Releasing(works[releaser.work].phase.left))]
    else works
  }

  function Apply(s: State, a: Action): State
    requires Enabled(s, a)
  {
    match a
    case Acquire(key) =>
      var l := |s.leases|;
      if |Free(s.pool, key)| > 0 then
        var b := Top(s.pool, key);
        State(Pop(s.pool, key), s.keyOf, if b < |s.place| then s.place[b := Held(l)] else s.place,
              s.leases + [Lease(key, b, Active, Nobody)], s.works)
      else
        State(s.pool, s.keyOf + [key], s.place + [Held(l)],
              s.leases + [Lease(key, |s.keyOf|, Active, Nobody)], s.works)
    case Mark(l) => s.(leases := s.leases[l := s.leases[l].(status := InReturn, releaser := User)])
    case Return(l) =>
      var lease := s.leases[l];
      State(Push(s.pool, lease.key, lease.buffer), s.keyOf, s.place[lease.buffer := InPool],
            s.leases[l := lease.(status := Released)], AfterReturn(s.works, lease.releaser))
    case Create(held) => s.(works := s.works + [Work(held, false, Open)])
    case Fire(w) => s.(works := s.works[w := s.works[w].(fired := true)])
    case Begin(w) => SetPhase(s, w, Completing)
    case Complete(w) => SetPhase(s, w, Releasing(|s.works[w].leases|))
    case ReleaseNext(w) =>
      var n := s.works[w].phase.left - 1;
      var l := s.works[w].leases[n];
      if s.leases[l].status == Active
      then SetPhase(s, w, Returning(n)).(
             leases := s.leases[l := s.leases[l].(status := InReturn, releaser := Owner(w))])
      else SetPhase(s, w, Releasing(n))
    case Finish(w) => SetPhase(s, w, Finished)
  }

  const INITIAL: State := State(map[], [], [], [], [])

  ghost predicate IsRun(run: seq<State>, actions: seq<Action>) {
    && |run| == |actions| + 1
    && run[0] == INITIAL
    && forall i :: 0 <= i < |actions| ==> Enabled(run[i], actions[i]) && run[i + 1] == Apply(run[i], actions[i])
  }

  // ---------------------------------------------------------------------------
  // Buffers have one place.

  ghost predicate LeasesInv(s: State) {
    && |s.place| == |s.keyOf|
    && (forall l :: 0 <= l < |s.leases| ==>
          && s.leases[l].buffer < |s.keyOf|
          && s.leases[l].key == s.keyOf[s.leases[l].buffer]
          && (s.leases[l].status != Released ==> s.place[s.leases[l].buffer] == Held(l)))
    && (forall b :: 0 <= b < |s.place| && s.place[b].Held? ==>
          && s.place[b].lease < |s.leases|
          && s.leases[s.place[b].lease].buffer == b
          && s.leases[s.place[b].lease].status != Released)
  }

  /** The free list of a key: available buffers of that key, none twice. */
  ghost predicate FreeInv(s: State, k: Key)
    requires |s.place| == |s.keyOf|
  {
    && (forall i :: 0 <= i < |Free(s.pool, k)| ==>
          var b := Free(s.pool, k)[i];
          b < |s.keyOf| && s.keyOf[b] == k && s.place[b] == InPool)
    && (forall i, j :: 0 <= i < j < |Free(s.pool, k)| ==> Free(s.pool, k)[i] != Free(s.pool, k)[j])
  }

  /** An available buffer is in the free list of its key. */
  ghost predicate Listed(s: State, b: nat)
    requires |s.place| == |s.keyOf|
  {
    b < |s.place| && s.place[b] == InPool ==> b in Free(s.pool, s.keyOf[b])
  }

  ghost predicate PoolInv(s: State)
    requires |s.place| == |s.keyOf|
  {
    && (forall k :: FreeInv(s, k))
    && (forall b :: 0 <= b < |s.place| ==> Listed(s, b))
  }

  ghost predicate PlaceInv(s: State) {
    LeasesInv(s) && PoolInv(s)
  }

  lemma {:induction false} AcquireFree(s: State, key: Key, k: Key)
    ensures Free(Apply(s, Acquire(key)).pool, k)
         == if k == key && |Free(s.pool, key)| > 0 then Free(s.pool, k)[..|Free(s.pool, k)| - 1] else Free(s.pool, k)
  {
  }

  lemma {:induction false} AcquireKeepsLeases(s: State, key: Key)
    requires PlaceInv(s)
    ensures LeasesInv(Apply(s, Acquire(key)))
  {
    assert FreeInv(s, key);
    if |Free(s.pool, key)| > 0 {
      var b := Free(s.pool, key)[|Free(s.pool, key)| - 1];
      assert b == Top(s.pool, key) && b < |s.keyOf| && s.place[b] == InPool;
    }
  }

  /** The state after an acquire that reuses a buffer. */
  lemma {:induction false} Reused(s: State, key: Key)
    requires PlaceInv(s) && |Free(s.pool, key)| > 0
    ensures var t, free := Apply(s, Acquire(key)), Free(s.pool, key);
            var b := free[|free| - 1];
            && b < |s.place| && s.keyOf[b] == key && s.place[b] == InPool
            && t.keyOf == s.keyOf && t.place == s.place[b := Held(|s.leases|)]
  {
    assert FreeInv(s, key);
    assert Top(s.pool, key) == Free(s.pool, key)[|Free(s.pool, key)| - 1];
  }

  lemma {:induction false} ReuseKeepsFree(s: State, key: Key, k: Key)
    requires PlaceInv(s) && |Free(s.pool, key)| > 0
    ensures |Apply(s, Acquire(key)).place| == |s.keyOf| == |Apply(s, Acquire(key)).keyOf|
    ensures FreeInv(Apply(s, Acquire(key)), k)
  {
    Reused(s, key);
    AcquireFree(s, key, k);
    assert FreeInv(s, k) && FreeInv(s, key);
    hide Apply, LeasesInv, PoolInv, Free;
  }

  lemma {:induction false} ReuseKeepsListed(s: State, key: Key, c: nat)
    requires PlaceInv(s) && |Free(s.pool, key)| > 0 && c < |s.place|
    ensures |Apply(s, Acquire(key)).place| == |s.keyOf| == |Apply(s, Acquire(key)).keyOf|
    ensures Listed(Apply(s, Acquire(key)), c)
  {
    Reused(s, key);
    AcquireFree(s, key, s.keyOf[c]);
    assert Listed(s, c);
    hide Apply, LeasesInv, PoolInv, Free, FreeInv;
    var t, free := Apply(s, Acquire(key)), Free(s.pool, s.keyOf[c]);
    if t.place[c] == InPool {
      var i :| 0 <= i < |free| && free[i] == c;
      assert s.keyOf[c] == key ==> i < |free| - 1;
      assert Free(t.pool, s.keyOf[c])[i] == c;
    }
  }

  lemma {:induction false} AcquireKeepsPool(s: State, key: Key)
    requires PlaceInv(s)
    ensures LeasesInv(Apply(s, Acquire(key))) && PoolInv(Apply(s, Acquire(key)))
  {
    AcquireKeepsLeases(s, key);
    var t := Apply(s, Acquire(key));
    forall k
      ensures FreeInv(t, k)
    {
      AcquireFree(s, key, k);
      assert FreeInv(s, k);
      if |Free(s.pool, key)| > 0 {
        ReuseKeepsFree(s, key, k);
      }
    }
    forall c | 0 <= c < |t.place|
      ensures Listed(t, c)
    {
      if |Free(s.pool, key)| > 0 {
        ReuseKeepsListed(s, key, c);
      } else if c < |s.place| {
        AcquireFree(s, key, s.keyOf[c]);
        assert Listed(s, c);
      }
    }
  }

  /** A held buffer is in no free list. */
  lemma {:induction false} HeldIsNotFree(s: State, b: nat, k: Key)
    requires PlaceInv(s) && b < |s.place| && s.place[b].Held?
    ensures b !in Free(s.pool, k)
  {
    assert FreeInv(s, k);
  }

  lemma {:induction false} ReturnFree(s: State, l: nat, k: Key)
    requires Enabled(s, Return(l))
    ensures Free(Apply(s, Return(l)).pool, k)
         == Free(s.pool, k) + if k == s.leases[l].key then [s.leases[l].buffer] else []
  {
  }

  lemma {:induction false} ReturnKeepsLeases(s: State, l: nat)
    requires PlaceInv(s) && Enabled(s, Return(l))
    ensures LeasesInv(Apply(s, Return(l)))
  {
  }

  lemma {:induction false} ReturnKeepsPool(s: State, l: nat)
    requires PlaceInv(s) && Enabled(s, Return(l))
    ensures LeasesInv(Apply(s, Return(l))) && PoolInv(Apply(s, Return(l)))
  {
    ReturnKeepsLeases(s, l);
    var t, b := Apply(s, Return(l)), s.leases[l].buffer;
    var key := s.leases[l].key;
    assert s.place[b] == Held(l) && s.keyOf[b] == key;
    assert t.place == s.place[b := InPool] && t.keyOf == s.keyOf;
    HeldIsNotFree(s, b, key);
    hide LeasesInv, Free;
    forall k
      ensures FreeInv(t, k)
    {
      ReturnFree(s, l, k);
      assert FreeInv(s, k);
    }
    forall c | 0 <= c < |t.place|
      ensures Listed(t, c)
    {
      ReturnFree(s, l, s.keyOf[c]);
      assert c != b ==> Listed(s, c);
    }
  }

  /** Changing works, or marking a lease that is not yet released, moves no buffer. */
  lemma {:induction false} OthersKeepPlaces(s: State, a: Action)
    requires PlaceInv(s) && Enabled(s, a) && !a.Acquire? && !a.Return?
    ensures PlaceInv(Apply(s, a))
  {
    var t := Apply(s, a);
    assert t.pool == s.pool && t.keyOf == s.keyOf && t.place == s.place && |t.leases| == |s.leases|;
    assert forall l :: 0 <= l < |s.leases| ==>
      && t.leases[l].key == s.leases[l].key && t.leases[l].buffer == s.leases[l].buffer
      && (t.leases[l].status == Released <==> s.leases[l].status == Released);
    hide Apply, Enabled;
    forall k
      ensures FreeInv(t, k)
    {
      assert FreeInv(s, k);
    }
    forall b | 0 <= b < |t.place|
      ensures Listed(t, b)
    {
      assert Listed(s, b);
    }
  }

  lemma {:induction false} ActionKeepsPlaces(s: State, a: Action)
    requires PlaceInv(s) && Enabled(s, a)
    ensures PlaceInv(Apply(s, a))
  {
    hide Apply, LeasesInv, PoolInv;
    match a {
      case Acquire(key) => AcquireKeepsPool(s, key);
      case Return(l) => ReturnKeepsPool(s, l);
      case _ => OthersKeepPlaces(s, a);
    }
  }

  // ---------------------------------------------------------------------------
  // Buffers are conserved.

  function Allocated(keyOf: seq<Key>, k: Key): nat {
    if keyOf == [] then 0 else Allocated(keyOf[..|keyOf| - 1], k) + if keyOf[|keyOf| - 1] == k then 1 else 0
  }

  /** Leases of the key in a given status. */
  function Count(leases: seq<Lease>, k: Key, status: Status): nat {
    if leases == [] then 0
    else
      var last := leases[|leases| - 1];
      Count(leases[..|leases| - 1], k, status) + if last.key == k && last.status == status then 1 else 0
  }

  function One(lease: Lease, k: Key, status: Status): nat {
    if lease.key == k && lease.status == status then 1 else 0
  }

  lemma {:induction false} CountUpdate(leases: seq<Lease>, l: nat, lease: Lease, k: Key, status: Status)
    requires l < |leases|
    ensures Count(leases[l := lease], k, status)
         == Count(leases, k, status) - One(leases[l], k, status) + One(lease, k, status)
  {
    var n := |leases| - 1;
    if l == n {
      assert leases[l := lease][..n] == leases[..n];
    } else {
      assert leases[l := lease][..n] == leases[..n][l := lease];
      CountUpdate(leases[..n], l, lease, k, status);
    }
  }

  /** Every allocated buffer of a key is available, actively leased, or on its way back. */
  ghost predicate Conserved(s: State, k: Key) {
    Allocated(s.keyOf, k) == |Free(s.pool, k)| + Count(s.leases, k, Active) + Count(s.leases, k, InReturn)
  }

  lemma {:induction false} AddLease(leases: seq<Lease>, lease: Lease, k: Key, status: Status)
    ensures Count(leases + [lease], k, status) == Count(leases, k, status) + One(lease, k, status)
  {
    assert (leases + [lease])[..|leases|] == leases;
  }

  lemma {:induction false} AddKey(keyOf: seq<Key>, key: Key, k: Key)
    ensures Allocated(keyOf + [key], k) == Allocated(keyOf, k) + if key == k then 1 else 0
  {
    assert (keyOf + [key])[..|keyOf|] == keyOf;
  }

  lemma {:induction false} AcquireConserves(s: State, key: Key, k: Key)
    requires Conserved(s, k)
    ensures Conserved(Apply(s, Acquire(key)), k)
  {
    var t := Apply(s, Acquire(key));
    var lease := t.leases[|s.leases|];
    assert t.leases == s.leases + [lease] && lease.key == key && lease.status == Active;
    assert t.keyOf == if |Free(s.pool, key)| > 0 then s.keyOf else s.keyOf + [key];
    AcquireFree(s, key, k);
    hide Apply, Free, Count, Allocated;
    AddLease(s.leases, lease, k, Active);
    AddLease(s.leases, lease, k, InReturn);
    AddKey(s.keyOf, key, k);
  }

  /** Replacing one lease by a marked or returned one. */
  lemma {:induction false} LeaseConserves(s: State, t: State, l: nat, k: Key)
    requires Conserved(s, k) && l < |s.leases| == |t.leases| && t.keyOf == s.keyOf
    requires t.leases == s.leases[l := t.leases[l]] && t.leases[l].key == s.leases[l].key
    requires |Free(t.pool, k)| == |Free(s.pool, k)| + One(t.leases[l], k, Released) - One(s.leases[l], k, Released)
    ensures Conserved(t, k)
  {
    CountUpdate(s.leases, l, t.leases[l], k, Active);
    CountUpdate(s.leases, l, t.leases[l], k, InReturn);
  }

  lemma {:induction false} ActionConserves(s: State, a: Action, k: Key)
    requires Enabled(s, a) && Conserved(s, k)
    ensures Conserved(Apply(s, a), k)
  {
    match a {
      case Acquire(key) => AcquireConserves(s, key, k);
      case Mark(l) => LeaseConserves(s, Apply(s, a), l, k);
      case Return(l) =>
        ReturnFree(s, l, k);
        LeaseConserves(s, Apply(s, a), l, k);
      case ReleaseNext(w) =>
        LeaseConserves(s, Apply(s, a), s.works[w].leases[s.works[w].phase.left - 1], k);
      case Create(_) =>
      case Fire(_) =>
      case Begin(_) =>
      case Complete(_) =>
      case Finish(_) =>
    }
  }

  // ---------------------------------------------------------------------------
  // Works return their leases only when done.

  ghost predicate ReleaserInv(s: State) {
    && (forall l :: 0 <= l < |s.leases| ==> OwnerInv(s, l))
    && (forall w :: 0 <= w < |s.works| ==> WorkInv(s, w))
  }

  /** A work that releases a lease has fired and ended its callback, and is busy with the lease until the
      buffer is back. */
  ghost predicate OwnerInv(s: State, l: nat)
    requires l < |s.leases|
  {
    && (s.leases[l].status == Active <==> s.leases[l].releaser == Nobody)
    && (s.leases[l].releaser.Owner? ==>
          var w := s.leases[l].releaser.work;
          && w < |s.works| && l in s.works[w].leases && s.works[w].fired
          && s.works[w].phase != Open && s.works[w].phase != Completing
          && (s.leases[l].status == InReturn ==> Busy(s.works[w], l)))
  }

  ghost predicate Busy(w: Work, l: nat) {
    w.phase.Returning? && w.phase.left < |w.leases| && w.leases[w.phase.left] == l
  }

  ghost predicate WorkInv(s: State, w: nat)
    requires w < |s.works|
  {
    var work := s.works[w];
    && (work.phase != Open ==> work.fired)
    && (forall i :: 0 <= i < |work.leases| ==> work.leases[i] < |s.leases|)
    && (work.phase.Releasing? ==> work.phase.left <= |work.leases| && DoneFrom(s, work, work.phase.left))
    && (work.phase.Returning? ==>
          && work.phase.left < |work.leases|
          && s.leases[work.leases[work.phase.left]].status == InReturn
          && s.leases[work.leases[work.phase.left]].releaser == Owner(w)
          && DoneFrom(s, work, work.phase.left))
    && (work.phase.Finished? ==> DoneFrom(s, work, 0))
  }

  /** The work's leases from the `n`-th on are not active. */
  ghost predicate DoneFrom(s: State, work: Work, n: nat)
    requires forall i :: 0 <= i < |work.leases| ==> work.leases[i] < |s.leases|
  {
    forall i :: n <= i < |work.leases| ==> s.leases[work.leases[i]].status != Active
  }

  lemma {:induction false} ReturnKeepsReleasers(s: State, l: nat)
    requires ReleaserInv(s) && Enabled(s, Return(l))
    ensures ReleaserInv(Apply(s, Return(l)))
  {
    var t := Apply(s, Return(l));
    assert OwnerInv(s, l);
    forall m | 0 <= m < |t.leases|
      ensures OwnerInv(t, m)
    {
      assert OwnerInv(s, m);
    }
    forall w | 0 <= w < |t.works|
      ensures WorkInv(t, w)
    {
      assert WorkInv(s, w);
    }
  }

  lemma {:induction false} ReleaseKeepsOwners(s: State, w: nat, m: nat)
    requires ReleaserInv(s) && Enabled(s, ReleaseNext(w)) && m < |s.leases|
    ensures OwnerInv(Apply(s, ReleaseNext(w)), m)
  {
    assert WorkInv(s, w) && OwnerInv(s, m);
  }

  lemma {:induction false} ReleaseKeepsOwnWork(s: State, w: nat)
    requires ReleaserInv(s) && Enabled(s, ReleaseNext(w))
    ensures WorkInv(Apply(s, ReleaseNext(w)), w)
  {
    assert WorkInv(s, w);
  }

  lemma {:induction false} ReleaseKeepsOtherWork(s: State, w: nat, v: nat)
    requires ReleaserInv(s) && Enabled(s, ReleaseNext(w)) && v < |s.works| && v != w
    ensures WorkInv(Apply(s, ReleaseNext(w)), v)
  {
    assert WorkInv(s, v);
    assert Apply(s, ReleaseNext(w)).works[v] == s.works[v];
  }

  lemma {:induction false} ReleaseKeepsReleasers(s: State, w: nat)
    requires ReleaserInv(s) && Enabled(s, ReleaseNext(w))
    ensures ReleaserInv(Apply(s, ReleaseNext(w)))
  {
    forall m | 0 <= m < |s.leases|
      ensures OwnerInv(Apply(s, ReleaseNext(w)), m)
    {
      ReleaseKeepsOwners(s, w, m);
    }
    forall v | 0 <= v < |s.works|
      ensures WorkInv(Apply(s, ReleaseNext(w)), v)
    {
      if v == w {
        ReleaseKeepsOwnWork(s, w);
      } else {
        ReleaseKeepsOtherWork(s, w, v);
      }
    }
  }

  lemma {:induction false} OthersKeepReleasers(s: State, a: Action)
    requires ReleaserInv(s) && Enabled(s, a) && !a.Return? && !a.ReleaseNext?
    ensures ReleaserInv(Apply(s, a))
  {
    forall m | 0 <= m < |Apply(s, a).leases|
      ensures OwnerInv(Apply(s, a), m)
    {
      OthersKeepOwner(s, a, m);
    }
    forall v | 0 <= v < |Apply(s, a).works|
      ensures WorkInv(Apply(s, a), v)
    {
      OthersKeepWork(s, a, v);
    }
    hide Apply, OwnerInv, WorkInv;
  }

  lemma {:induction false} OthersKeepOwner(s: State, a: Action, m: nat)
    requires ReleaserInv(s) && Enabled(s, a) && !a.Return? && !a.ReleaseNext? && m < |Apply(s, a).leases|
    ensures OwnerInv(Apply(s, a), m)
  {
    assert m < |s.leases| ==> OwnerInv(s, m);
    hide WorkInv;
  }

  /** A work keeps its facts while leases only move on, and no lease that is not active changes. */
  lemma {:induction false} WorkOutlives(s: State, t: State, v: nat)
    requires v < |s.works| && v < |t.works| && WorkInv(s, v) && t.works[v] == s.works[v] && |s.leases| <= |t.leases|
    requires forall l :: 0 <= l < |s.leases| && s.leases[l].status != Active ==> t.leases[l] == s.leases[l]
    ensures WorkInv(t, v)
  {
  }

  lemma {:induction false} OthersKeepWork(s: State, a: Action, v: nat)
    requires ReleaserInv(s) && Enabled(s, a) && !a.Return? && !a.ReleaseNext? && v < |Apply(s, a).works|
    ensures WorkInv(Apply(s, a), v)
  {
    hide OwnerInv;
    if v < |s.works| {
      assert WorkInv(s, v);
      if a.Acquire? || a.Mark? {
        assert |s.leases| <= |Apply(s, a).leases| && Apply(s, a).works == s.works;
        assert forall l :: 0 <= l < |s.leases| && s.leases[l].status != Active ==>
          Apply(s, a).leases[l] == s.leases[l];
        hide Apply;
        WorkOutlives(s, Apply(s, a), v);
      } else {
        assert Apply(s, a).leases == s.leases;
      }
    }
  }

  lemma {:induction false} ActionKeepsReleasers(s: State, a: Action)
    requires ReleaserInv(s) && Enabled(s, a)
    ensures ReleaserInv(Apply(s, a))
  {
    hide Apply, ReleaserInv;
    match a {
      case Return(l) => ReturnKeepsReleasers(s, l);
      case ReleaseNext(w) => ReleaseKeepsReleasers(s, w);
      case _ => OthersKeepReleasers(s, a);
    }
  }

  // ---------------------------------------------------------------------------
  // Main results.

  lemma {:induction false} RunKeepsInv(run: seq<State>, actions: seq<Action>, i: nat, k: Key)
    requires IsRun(run, actions) && i < |run|
    ensures PlaceInv(run[i]) && Conserved(run[i], k) && ReleaserInv(run[i])
  {
    if i > 0 {
      RunKeepsInv(run, actions, i - 1, k);
      ActionKeepsPlaces(run[i - 1], actions[i - 1]);
      ActionConserves(run[i - 1], actions[i - 1], k);
      ActionKeepsReleasers(run[i - 1], actions[i - 1]);
    }
  }

  /** Under every interleaving no buffer is in two unreturned leases, none is both leased and available,
      and none is available twice. */
  lemma {:induction false} ExclusiveOwnership(run: seq<State>, actions: seq<Action>, i: nat, l: nat, m: nat)
    requires IsRun(run, actions) && i < |run| && l < |run[i].leases| && m < |run[i].leases|
    requires run[i].leases[l].status != Released
    ensures l != m && run[i].leases[m].status != Released ==> run[i].leases[l].buffer != run[i].leases[m].buffer
    ensures forall k :: run[i].leases[l].buffer !in Free(run[i].pool, k)
    ensures forall k, x, y :: 0 <= x < y < |Free(run[i].pool, k)| ==> Free(run[i].pool, k)[x] != Free(run[i].pool, k)[y]
  {
    RunKeepsInv(run, actions, i, 0);
    var s := run[i];
    forall k
      ensures s.leases[l].buffer !in Free(s.pool, k)
    {
      HeldIsNotFree(s, s.leases[l].buffer, k);
    }
    forall k, x, y | 0 <= x < y < |Free(s.pool, k)|
      ensures Free(s.pool, k)[x] != Free(s.pool, k)[y]
    {
      assert FreeInv(s, k);
    }
  }

  /** Buffers allocated for a key are the available, the actively leased and the returning ones. */
  lemma {:induction false} BuffersAreConserved(run: seq<State>, actions: seq<Action>, i: nat, k: Key)
    requires IsRun(run, actions) && i < |run|
    ensures Allocated(run[i].keyOf, k)
         == |Free(run[i].pool, k)| + Count(run[i].leases, k, Active) + Count(run[i].leases, k, InReturn)
  {
    RunKeepsInv(run, actions, i, k);
  }

  /** A lease that a work has released was released after that work's event fired and its callback
      ended; a finished work holds no active lease, and every buffer it released itself is back in the pool;
      a lease nobody released is active. */
  lemma {:induction false} WorkReleasesAfterCompletion(run: seq<State>, actions: seq<Action>, i: nat, l: nat, w: nat)
    requires IsRun(run, actions) && i < |run| && l < |run[i].leases| && w < |run[i].works|
    ensures run[i].leases[l].releaser == Owner(w) ==>
      && l in run[i].works[w].leases && run[i].works[w].fired
      && run[i].works[w].phase != Open && run[i].works[w].phase != Completing
    ensures run[i].works[w].phase.Finished? && l in run[i].works[w].leases ==> run[i].leases[l].status != Active
    ensures run[i].works[w].phase.Finished? && run[i].leases[l].releaser == Owner(w) ==>
              run[i].leases[l].status == Released
    ensures run[i].leases[l].releaser == Nobody <==> run[i].leases[l].status == Active
  {
    RunKeepsInv(run, actions, i, 0);
    assert WorkInv(run[i], w) && OwnerInv(run[i], l);
  }

  /** Only its event fires a work. */
  lemma {:induction false} OnlyEventsFire(run: seq<State>, actions: seq<Action>, i: nat, w: nat)
    requires IsRun(run, actions) && i < |run| && w < |run[i].works|
    ensures run[i].works[w].fired <==> exists j :: 0 <= j < i && actions[j] == Fire(w)
  {
    if i > 0 {
      var s, a := run[i - 1], actions[i - 1];
      assert Enabled(s, a) && run[i - 1 + 1] == Apply(s, a);
      if w < |s.works| {
        OnlyEventsFire(run, actions, i - 1, w);
        FiredBy(s, a, w);
      } else {
        NotYetFired(run, actions, i - 1, w);
        FiredBy(s, a, w);
      }
    }
  }

  lemma FiredBy(s: State, a: Action, w: nat)
    requires Enabled(s, a) && w < |Apply(s, a).works|
    ensures Apply(s, a).works[w].fired <==> a == Fire(w) || (w < |s.works| && s.works[w].fired)
  {
  }

  lemma {:induction false} NotYetFired(run: seq<State>, actions: seq<Action>, i: nat, w: nat)
    requires IsRun(run, actions) && i < |run| && w >= |run[i].works|
    ensures forall j :: 0 <= j < i ==> actions[j] != Fire(w)
  {
    if i > 0 {
      assert Enabled(run[i - 1], actions[i - 1]) && run[i - 1 + 1] == Apply(run[i - 1], actions[i - 1]);
      assert |run[i - 1].works| <= |run[i - 1 + 1].works|;
      NotYetFired(run, actions, i - 1, w);
    }
  }

  /** The next action of a work whose event has fired. */
  function NextOf(s: State, w: nat): Action
    requires w < |s.works|
  {
    match s.works[w].phase
    case Open => Begin(w)
    case Completing => Complete(w)
    case Releasing(n) => if n == 0 then Finish(w) else ReleaseNext(w)
    case Returning(n) => if n < |s.works[w].leases| then Return(s.works[w].leases[n]) else Finish(w)
    case Finished => Fire(w)
  }

  /** What a fired work still has to do. */
  function Remaining(work: Work): nat {
    match work.phase
    case Open => 2 * |work.leases| + 3
    case Completing => 2 * |work.leases| + 2
    case Releasing(n) => 2 * n + 1
    case Returning(n) => 2 * n + 2
    case Finished => 0
  }

  /** No action of any thread gives a work more to do. */
  lemma {:induction false} RemainingShrinks(s: State, a: Action, w: nat)
    requires Enabled(s, a) && w < |s.works|
    ensures Remaining(Apply(s, a).works[w]) <= Remaining(s.works[w])
  {
  }

  lemma {:induction false} FiredCanGoOn(s: State, w: nat)
    requires LeasesInv(s) && w < |s.works| && WorkInv(s, w)
    requires s.works[w].fired && s.works[w].phase != Finished
    ensures Enabled(s, NextOf(s, w))
    ensures Remaining(Apply(s, NextOf(s, w)).works[w]) < Remaining(s.works[w]) <= 2 * |s.works[w].leases| + 3
  {
    match s.works[w].phase {
      case Returning(n) => assert s.leases[s.works[w].leases[n]].releaser == Owner(w);
      case _ =>
    }
  }

  /** A fired work that is not finished can always go on, whatever other threads do, and every action of its
      own leaves less to do; with `n` leases it is finished after at most 2n + 3 of them. */
  lemma {:induction false} FiredWorkGoesOn(run: seq<State>, actions: seq<Action>, i: nat, w: nat)
    requires IsRun(run, actions) && i < |run| && w < |run[i].works|
    requires run[i].works[w].fired && run[i].works[w].phase != Finished
    ensures Enabled(run[i], NextOf(run[i], w))
    ensures Remaining(Apply(run[i], NextOf(run[i], w)).works[w]) < Remaining(run[i].works[w])
         <= 2 * |run[i].works[w].leases| + 3
    ensures forall a :: Enabled(run[i], a) ==>
              Remaining(Apply(run[i], a).works[w]) <= Remaining(run[i].works[w])
  {
    RunKeepsInv(run, actions, i, 0);
    hide Apply, Enabled, Remaining, NextOf;
    FiredCanGoOn(run[i], w);
    forall a | Enabled(run[i], a)
      ensures Remaining(Apply(run[i], a).works[w]) <= Remaining(run[i].works[w])
    {
      RemainingShrinks(run[i], a, w);
    }
  }
}
