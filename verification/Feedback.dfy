/** Transactional gradient error feedback. */
module Feedback {
  import opened Wrappers

  /** One element of a tensor; arithmetic on a non-finite element stays non-finite. */
  datatype Lane = Finite(v: real) | NonFinite

  datatype Tensor = Tensor(shape: seq<nat>, dtype: string, lanes: seq<Lane>)

  predicate IsFinite(t: Tensor) {
    forall i :: 0 <= i < |t.lanes| ==> t.lanes[i].Finite?
  }

  function AddLane(a: Lane, b: Lane): Lane {
    if a.Finite? && b.Finite? then Finite(a.v + b.v) else NonFinite
  }

  function SubLane(a: Lane, b: Lane): Lane {
    if a.Finite? && b.Finite? then Finite(a.v - b.v) else NonFinite
  }

  function Add(a: Tensor, b: Tensor): (c: Tensor)
    requires |a.lanes| == |b.lanes|
    ensures |c.lanes| == |a.lanes|
  {
    a.(lanes := seq(|a.lanes|, i requires 0 <= i < |a.lanes| => AddLane(a.lanes[i], b.lanes[i])))
  }

  function Sub(a: Tensor, b: Tensor): (c: Tensor)
    requires |a.lanes| == |b.lanes|
    ensures |c.lanes| == |a.lanes|
  {
    a.(lanes := seq(|a.lanes|, i requires 0 <= i < |a.lanes| => SubLane(a.lanes[i], b.lanes[i])))
  }

  /** The element at `i` as a number; absent and non-finite elements read as zero. */
  function At(t: Tensor, i: nat): real {
    if i < |t.lanes| && t.lanes[i].Finite? then t.lanes[i].v else 0.0
  }

  datatype Key = Key(bucket: nat, layoutGeneration: nat, shape: seq<nat>, dtype: string)

  // ---------------------------------------------------------------------------
  // State and transactions as values.

  datatype Store = Store(layoutGeneration: nat, residuals: map<Key, Tensor>)

  datatype Txn = Txn(key: Key, prepared: Tensor, finite: bool, closed: bool)

  datatype CommitOutcome =
    | Committed | CallbackRaised | AlreadyClosed | RejectedNonFinite | ShapeMismatch | ObsoleteLayout

  /** The outcomes that have written a residual. */
  predicate Stores(o: CommitOutcome) {
    o.Committed? || o.CallbackRaised?
  }

  function KeyOf(s: Store, bucket: nat, value: Tensor): Key {
    Key(bucket, s.layoutGeneration, value.shape, value.dtype)
  }

  /** The residual a gradient is compensated with; a stored tensor of another size cannot be added. */
  function Basis(s: Store, key: Key, value: Tensor): Option<Tensor> {
    if key in s.residuals && |s.residuals[key].lanes| == |value.lanes| then Some(s.residuals[key]) else None
  }

  /** The transaction of a key that was computed before the residual is read. */
  function TxnFor(s: Store, key: Key, value: Tensor): Txn {
    var prepared := match Basis(s, key, value) case None => value case Some(r) => Add(value, r);
    Txn(key, prepared, IsFinite(value), false)
  }

  function PrepareTxn(s: Store, bucket: nat, value: Tensor): Txn {
    TxnFor(s, KeyOf(s, bucket, value), value)
  }

  datatype CommitResult = CommitResult(store: Store, txn: Txn, outcome: CommitOutcome)

  /** The checks and effects of a commit, in order.  A rejected or raising commit of an open transaction
      leaves it open, except that a non-finite one closes it. */
  function CommitTxn(s: Store, t: Txn, restored: Tensor, callbackRaises: bool): CommitResult {
    if t.closed then CommitResult(s, t, AlreadyClosed)
    else if !t.finite || !IsFinite(restored) then CommitResult(s, t.(closed := true), RejectedNonFinite)
    else if |restored.lanes| != |t.prepared.lanes| then CommitResult(s, t, ShapeMismatch)
    else if t.key.layoutGeneration != s.layoutGeneration then CommitResult(s, t, ObsoleteLayout)
    else
      var stored := s.(residuals := s.residuals[t.key := Sub(t.prepared, restored)]);
      if callbackRaises then CommitResult(stored, t, CallbackRaised)
      else CommitResult(stored, t.(closed := true), Committed)
  }

  /** A transaction carries the key of its bucket, layout, shape and element type, the gradient plus the residual stored
      under that key, lane by lane, and whether the gradient was finite. */
  lemma {:induction false} PreparedIs(s: Store, bucket: nat, value: Tensor)
    ensures var t := PrepareTxn(s, bucket, value);
            && t.key.bucket == bucket && t.key.layoutGeneration == s.layoutGeneration
            && t.key.shape == value.shape && t.key.dtype == value.dtype
            && !t.closed && (t.finite <==> forall i :: 0 <= i < |value.lanes| ==> value.lanes[i] != NonFinite)
            && t.prepared.shape == value.shape && t.prepared.dtype == value.dtype
            && |t.prepared.lanes| == |value.lanes|
            && forall i :: 0 <= i < |value.lanes| ==>
                 if t.key in s.residuals && |s.residuals[t.key].lanes| == |value.lanes| then
                   var r := s.residuals[t.key].lanes[i];
                   if value.lanes[i] == NonFinite || r == NonFinite then t.prepared.lanes[i] == NonFinite
                   else t.prepared.lanes[i] == Finite(value.lanes[i].v + r.v)
                 else t.prepared.lanes[i] == value.lanes[i]
  {
  }

  /** How a commit ends: the first check that fails decides.  Only a commit that passes all of them stores, under its
      own key and lane by lane; it closes the transaction unless the callback raises, as a non-finite one does. */
  lemma {:induction false} CommitIs(s: Store, t: Txn, restored: Tensor, callbackRaises: bool)
    ensures var r := CommitTxn(s, t, restored, callbackRaises);
            var finite := t.finite && forall i :: 0 <= i < |restored.lanes| ==> restored.lanes[i] != NonFinite;
            var fits := |restored.lanes| == |t.prepared.lanes|;
            var current := t.key.layoutGeneration == s.layoutGeneration;
            var stores := !t.closed && finite && fits && current;
            && (r.outcome == AlreadyClosed <==> t.closed)
            && (r.outcome == RejectedNonFinite <==> !t.closed && !finite)
            && (r.outcome == ShapeMismatch <==> !t.closed && finite && !fits)
            && (r.outcome == ObsoleteLayout <==> !t.closed && finite && fits && !current)
            && (r.outcome == CallbackRaised <==> stores && callbackRaises)
            && (r.outcome == Committed <==> stores && !callbackRaises)
            && r.txn == t.(closed := t.closed || !finite || (stores && !callbackRaises))
            && (!stores ==> r.store == s)
            && (stores ==>
                  && r.store.layoutGeneration == s.layoutGeneration
                  && r.store.residuals.Keys == s.residuals.Keys + {t.key}
                  && (forall k :: k in s.residuals && k != t.key ==> r.store.residuals[k] == s.residuals[k])
                  && |r.store.residuals[t.key].lanes| == |restored.lanes|
                  && forall i :: 0 <= i < |restored.lanes| ==>
                       if t.prepared.lanes[i] == NonFinite then r.store.residuals[t.key].lanes[i] == NonFinite
                       else r.store.residuals[t.key].lanes[i]
                            == Finite(t.prepared.lanes[i].v - restored.lanes[i].v))
  {
  }

  function RebuildStore(s: Store, generation: nat): Store {
    Store(generation, map[])
  }

  // ---------------------------------------------------------------------------
  // The classes.

  lemma SingleElement<T>(s: set<T>, a: T, b: T)
    requires |s| == 1 && a in s && b in s
    ensures a == b
  {
    assert |s - {a}| == 0;
    assert b !in s - {a};
  }

  class GradientFeedbackState {
    var layoutGeneration: nat
    var residuals: map<Key, Tensor>

    constructor (generation: nat)
      ensures Contents() == Store(generation, map[])
    {
      layoutGeneration := generation;
      residuals := map[];
    }

    function Contents(): Store
      reads this
    {
      Store(layoutGeneration, residuals)
    }

    method Prepare(bucket: nat, value: Tensor) returns (t: FeedbackTransaction)
      ensures fresh(t) && t.state == this
      ensures t.Snapshot() == PrepareTxn(Contents(), bucket, value)
    {
      var key := Key(bucket, layoutGeneration, value.shape, value.dtype);
      var prepared := value;
      if key in residuals && |residuals[key].lanes| == |value.lanes| {
        prepared := Add(value, residuals[key]);
      }
      t := new FeedbackTransaction(this, key, prepared, IsFinite(value));
    }

    /** The residual of a bucket in the current layout, if it is the only one. */
    method Residual(bucket: nat) returns (r: Option<Tensor>)
      ensures r.Some? <==> exists key :: key in residuals && IsOnly(key, bucket)
      ensures forall key :: key in residuals && IsOnly(key, bucket) ==> r == Some(residuals[key])
    {
      var matches := Matching(residuals.Keys, bucket);
      if |matches| == 1 {
        var key :| key in matches;
        forall other | other in matches
          ensures other == key
        {
          SingleElement(matches, key, other);
        }
        assert matches == {key};
        OnlyMatches(bucket, key);
        r := Some(residuals[key]);
      } else {
        forall key | key in residuals
          ensures IsOnly(key, bucket) ==> |matches| == 1
        {
          OnlyMatches(bucket, key);
        }
        r := None;
      }
    }

    lemma OnlyMatches(bucket: nat, key: Key)
      requires key in residuals
      ensures IsOnly(key, bucket) <==> Matching(residuals.Keys, bucket) == {key}
    {
      if Matching(residuals.Keys, bucket) == {key} {
        forall other | other in residuals && other.bucket == bucket && other.layoutGeneration == layoutGeneration
          ensures other == key
        {
          assert other in Matching(residuals.Keys, bucket);
        }
        assert key in Matching(residuals.Keys, bucket);
      }
    }

    /** The key is of the bucket and the current layout, and no other stored one is. */
    ghost predicate IsOnly(key: Key, bucket: nat)
      reads this
    {
      && key.bucket == bucket && key.layoutGeneration == layoutGeneration
      && forall other :: other in residuals && other.bucket == bucket && other.layoutGeneration == layoutGeneration ==>
           other == key
    }

    function Matching(keys: set<Key>, bucket: nat): set<Key>
      reads this
    {
      set key | key in keys && key.bucket == bucket && key.layoutGeneration == layoutGeneration
    }

    method Rebuild(generation: int) returns (ok: bool)
      modifies this
      ensures ok <==> generation > old(layoutGeneration)
      ensures Contents() == if ok then RebuildStore(old(Contents()), generation) else old(Contents())
    {
      if generation <= layoutGeneration {
        return false;
      }
      layoutGeneration := generation;
      residuals := map[];
      ok := true;
    }

    method StoreResidual(key: Key, residual: Tensor) returns (ok: bool)
      modifies this
      ensures ok <==> key.layoutGeneration == old(layoutGeneration)
      ensures Contents() == if ok then old(Contents()).(residuals := old(residuals)[key := residual])
                            else old(Contents())
    {
      if key.layoutGeneration != layoutGeneration {
        return false;
      }
      residuals := residuals[key := residual];
      ok := true;
    }
  }

  class FeedbackTransaction {
    const state: GradientFeedbackState
    const key: Key
    const prepared: Tensor
    const finite: bool
    var closed: bool

    constructor (state: GradientFeedbackState, key: Key, prepared: Tensor, finite: bool)
      ensures this.state == state && Snapshot() == Txn(key, prepared, finite, false)
    {
      this.state := state;
      this.key := key;
      this.prepared := prepared;
      this.finite := finite;
      this.closed := false;
    }

    function Snapshot(): Txn
      reads this
    {
      Txn(key, prepared, finite, closed)
    }

    /** `callbackRaises` says whether the `on_commit` callback raises. */
    method Commit(restored: Tensor, callbackRaises: bool) returns (outcome: CommitOutcome)
      modifies this, state
      ensures var r := CommitTxn(old(state.Contents()), old(Snapshot()), restored, callbackRaises);
              outcome == r.outcome && state.Contents() == r.store && Snapshot() == r.txn && closed == r.txn.closed
    {
      if closed {
        return AlreadyClosed;
      }
      if !finite || !IsFinite(restored) {
        closed := true;
        return RejectedNonFinite;
      }
      if |restored.lanes| != |prepared.lanes| {
        return ShapeMismatch;
      }
      var ok := state.StoreResidual(key, Sub(prepared, restored));
      if !ok {
        return ObsoleteLayout;
      }
      if callbackRaises {
        return CallbackRaised;
      }
      closed := true;
      outcome := Committed;
    }

    method Abort()
      modifies this
      ensures closed && Snapshot() == old(Snapshot()).(closed := true)
    {
      closed := true;
    }
  }

  // ---------------------------------------------------------------------------
  // Runs over any number of transactions.

  datatype Event =
    | Prepare(bucket: nat, value: Tensor)
    | Commit(txn: nat, restored: Tensor, callbackRaises: bool)
    | Abort(txn: nat)
    | Rebuild(generation: nat)

  datatype Entry = Entry(txn: Txn, gradient: Tensor, basis: Option<Tensor>)

  /** `entries` are all transactions ever prepared, with what they were prepared from. */
  datatype Machine = Machine(store: Store, entries: seq<Entry>)

  function Step(m: Machine, e: Event): Machine {
    match e
    case Prepare(bucket, value) =>
      Machine(m.store, m.entries + [Entry(PrepareTxn(m.store, bucket, value), value,
                                          Basis(m.store, KeyOf(m.store, bucket, value), value))])
    case Commit(t, restored, callbackRaises) =>
      if t >= |m.entries| then m
      else
        var r := CommitTxn(m.store, m.entries[t].txn, restored, callbackRaises);
        Machine(r.store, m.entries[t := m.entries[t].(txn := r.txn)])
    case Abort(t) =>
      if t >= |m.entries| then m
      else m.(entries := m.entries[t := m.entries[t].(txn := m.entries[t].txn.(closed := true))])
    case Rebuild(g) =>
      if g <= m.store.layoutGeneration then m else m.(store := RebuildStore(m.store, g))
  }

  function Run(m: Machine, events: seq<Event>): Machine {
    if events == [] then m else Step(Run(m, events[..|events| - 1]), events[|events| - 1])
  }

  /** Stored residuals are finite and current; a transaction's input is its gradient plus the residual
      it read. */
  ghost predicate Inv(m: Machine) {
    && (forall k :: k in m.store.residuals ==>
          IsFinite(m.store.residuals[k]) && k.layoutGeneration == m.store.layoutGeneration)
    && (forall t :: 0 <= t < |m.entries| ==> EntryInv(m.entries[t]))
  }

  ghost predicate EntryInv(e: Entry) {
    && e.txn.finite == IsFinite(e.gradient)
    && (e.basis.Some? ==> IsFinite(e.basis.value) && |e.basis.value.lanes| == |e.gradient.lanes|)
    && e.txn.prepared == match e.basis case None => e.gradient case Some(r) => Add(e.gradient, r)
  }

  lemma {:induction false} StepKeepsInv(m: Machine, e: Event)
    requires Inv(m)
    ensures Inv(Step(m, e))
  {
    match e {
      case Prepare(bucket, value) =>
      case Commit(t, restored, callbackRaises) =>
        if t < |m.entries| {
          var r := CommitTxn(m.store, m.entries[t].txn, restored, callbackRaises);
          assert EntryInv(m.entries[t]);
          if Stores(r.outcome) {
            assert IsFinite(r.store.residuals[m.entries[t].txn.key]);
          }
          assert EntryInv(m.entries[t].(txn := r.txn));
        }
      case Abort(t) =>
        if t < |m.entries| {
          assert EntryInv(m.entries[t]);
        }
      case Rebuild(_) =>
    }
  }

  lemma {:induction false} RunKeepsInv(m: Machine, events: seq<Event>)
    requires Inv(m)
    ensures Inv(Run(m, events))
  {
    if events != [] {
      RunKeepsInv(m, events[..|events| - 1]);
      StepKeepsInv(Run(m, events[..|events| - 1]), events[|events| - 1]);
    }
  }

  /** The stored residual of a key at element `i`; nothing stored is zero. */
  function Residual(s: Store, key: Key, i: nat): real {
    if key in s.residuals then At(s.residuals[key], i) else 0.0
  }

  function BasisAt(e: Entry, i: nat): real {
    match e.basis case None => 0.0 case Some(r) => At(r, i)
  }

  /** Sums over the stored commits on one key, at one element: gradients, restored values, residual that
      rebuilds discarded, and how far the residual had moved between a commit and its prepare. */
  datatype Ledger = Ledger(gradients: real, restored: real, discarded: real, stale: real)

  ghost predicate StoresOn(m: Machine, e: Event, key: Key) {
    && e.Commit? && e.txn < |m.entries| && m.entries[e.txn].txn.key == key
    && Stores(CommitTxn(m.store, m.entries[e.txn].txn, e.restored, e.callbackRaises).outcome)
  }

  ghost function Post(l: Ledger, m: Machine, e: Event, key: Key, i: nat): Ledger {
    if StoresOn(m, e, key) then
      var entry := m.entries[e.txn];
      Ledger(l.gradients + At(entry.gradient, i), l.restored + At(e.restored, i), l.discarded,
             l.stale + (Residual(m.store, key, i) - BasisAt(entry, i)))
    else if e.Rebuild? then
      l.(discarded := l.discarded + Residual(m.store, key, i) - Residual(Step(m, e).store, key, i))
    else l
  }

  ghost function Books(m: Machine, events: seq<Event>, key: Key, i: nat): Ledger {
    if events == [] then Ledger(0.0, 0.0, 0.0, 0.0)
    else
      var front := events[..|events| - 1];
      Post(Books(m, front, key, i), Run(m, front), events[|events| - 1], key, i)
  }

  /** A stored commit: what is left over is gradient plus residual read minus what was sent. */
  lemma {:induction false} StoredResidual(m: Machine, e: Event, key: Key, i: nat)
    requires Inv(m) && StoresOn(m, e, key)
    ensures Residual(Step(m, e).store, key, i)
         == At(m.entries[e.txn].gradient, i) + BasisAt(m.entries[e.txn], i) - At(e.restored, i)
  {
    assert EntryInv(m.entries[e.txn]);
  }

  /** Anything but a stored commit or a rebuild leaves every residual alone; a commit on another key
      leaves this one alone. */
  lemma {:induction false} OtherEventsKeepResidual(m: Machine, e: Event, key: Key)
    requires !StoresOn(m, e, key) && !e.Rebuild?
    ensures key in Step(m, e).store.residuals <==> key in m.store.residuals
    ensures key in m.store.residuals ==> Step(m, e).store.residuals[key] == m.store.residuals[key]
  {
  }

  /** The balance of any run, with any overlap of transactions, failures, aborts and rebuilds: what was sent
      is the gradients plus the initial residual, less the final residual, less what rebuilds
      discarded, less the staleness of the residuals that overlapping transactions had read. */
  lemma {:induction false} Balance(m: Machine, events: seq<Event>, key: Key, i: nat)
    requires Inv(m)
    ensures var b := Books(m, events, key, i);
            b.restored == b.gradients + Residual(m.store, key, i) - Residual(Run(m, events).store, key, i)
                          - b.discarded - b.stale
  {
    if events != [] {
      var front, e := events[..|events| - 1], events[|events| - 1];
      Balance(m, front, key, i);
      RunKeepsInv(m, front);
      var n := Run(m, front);
      if StoresOn(n, e, key) {
        StoredResidual(n, e, key, i);
      } else if !e.Rebuild? {
        OtherEventsKeepResidual(n, e, key);
      }
    }
  }

  /** One stored commit conserves exactly when the residual is still what its prepare read. */
  lemma {:induction false} CommitConservesIff(m: Machine, e: Event, key: Key, i: nat)
    requires Inv(m) && StoresOn(m, e, key)
    ensures At(e.restored, i)
         == At(m.entries[e.txn].gradient, i) + Residual(m.store, key, i) - Residual(Step(m, e).store, key, i)
       <==> Residual(m.store, key, i) == BasisAt(m.entries[e.txn], i)
  {
    StoredResidual(m, e, key, i);
  }

  // ---------------------------------------------------------------------------
  // One open transaction per key.

  /** The caller prepares the key only when no earlier transaction of that key is still open, and the callback
      does not raise in its commits; other keys are free. */
  ghost predicate Serial(m: Machine, events: seq<Event>, key: Key) {
    forall n :: 0 <= n < |events| ==> SerialEvent(Run(m, events[..n]), events[n], key)
  }

  ghost predicate SerialEvent(m: Machine, e: Event, key: Key) {
    && (e.Prepare? && KeyOf(m.store, e.bucket, e.value) == key ==>
          forall t :: 0 <= t < |m.entries| && m.entries[t].txn.key == key ==> m.entries[t].txn.closed)
    && (e.Commit? && e.txn < |m.entries| && m.entries[e.txn].txn.key == key ==> !e.callbackRaises)
  }

  /** Tensors of one key have one size. */
  ghost predicate OneSize(m: Machine, events: seq<Event>, key: Key, size: nat) {
    && (key in m.store.residuals ==> |m.store.residuals[key].lanes| == size)
    && (forall t :: 0 <= t < |m.entries| ==> m.entries[t].txn.key == key ==> |m.entries[t].gradient.lanes| == size)
    && (forall n :: 0 <= n < |events| ==>
          events[n].Prepare? && events[n].value.shape == key.shape ==> |events[n].value.lanes| == size)
  }

  ghost predicate Fresh(m: Machine, key: Key, size: nat) {
    && (key in m.store.residuals ==> |m.store.residuals[key].lanes| == size)
    && forall t :: 0 <= t < |m.entries| && m.entries[t].txn.key == key ==>
         && |m.entries[t].gradient.lanes| == size
         && (!m.entries[t].txn.closed && key.layoutGeneration == m.store.layoutGeneration ==>
               m.entries[t].basis == if key in m.store.residuals then Some(m.store.residuals[key]) else None)
  }

  /** At most one open transaction of the key, and the layout never returns to an older generation. */
  ghost predicate OneOpen(m: Machine, key: Key) {
    && (forall s, t :: 0 <= s < t < |m.entries| && m.entries[s].txn.key == key && m.entries[t].txn.key == key ==>
          m.entries[s].txn.closed || m.entries[t].txn.closed)
    && (forall t :: 0 <= t < |m.entries| && m.entries[t].txn.key == key ==>
          key.layoutGeneration <= m.store.layoutGeneration)
  }

  lemma {:induction false} SerialPrepare(m: Machine, e: Event, key: Key, size: nat)
    requires e.Prepare? && Inv(m) && Fresh(m, key, size) && OneOpen(m, key) && SerialEvent(m, e, key)
    requires e.value.shape == key.shape ==> |e.value.lanes| == size
    ensures Fresh(Step(m, e), key, size) && OneOpen(Step(m, e), key)
  {
    var u := Step(m, e);
    var last := |m.entries|;
    assert u.entries[..last] == m.entries;
    forall t | 0 <= t < last
      ensures u.entries[t] == m.entries[t]
    {
    }
    assert u.store == m.store && u.entries[last].txn.key == KeyOf(m.store, e.bucket, e.value);
    hide Step, PrepareTxn, IsFinite;
  }

  lemma {:induction false} SerialCommit(m: Machine, e: Event, key: Key, size: nat)
    requires e.Commit? && Inv(m) && Fresh(m, key, size) && OneOpen(m, key) && SerialEvent(m, e, key)
    requires e.txn < |m.entries|
    ensures Fresh(Step(m, e), key, size) && OneOpen(Step(m, e), key)
    ensures StoresOn(m, e, key) ==>
      m.entries[e.txn].basis == if key in m.store.residuals then Some(m.store.residuals[key]) else None
  {
    assert EntryInv(m.entries[e.txn]);
    var r := CommitTxn(m.store, m.entries[e.txn].txn, e.restored, e.callbackRaises);
    assert r.txn.key == m.entries[e.txn].txn.key;
    assert Stores(r.outcome) && r.txn.key == key ==> r.txn.closed;
    assert r.store.layoutGeneration == m.store.layoutGeneration;
    hide IsFinite;
  }

  lemma {:induction false} SerialStep(m: Machine, e: Event, key: Key, size: nat)
    requires Inv(m) && Fresh(m, key, size) && OneOpen(m, key) && SerialEvent(m, e, key)
    requires e.Prepare? && e.value.shape == key.shape ==> |e.value.lanes| == size
    ensures Fresh(Step(m, e), key, size) && OneOpen(Step(m, e), key)
    ensures StoresOn(m, e, key) ==>
      m.entries[e.txn].basis == if key in m.store.residuals then Some(m.store.residuals[key]) else None
  {
    if e.Prepare? {
      SerialPrepare(m, e, key, size);
    } else if e.Commit? && e.txn < |m.entries| {
      SerialCommit(m, e, key, size);
    }
  }

  lemma {:induction false} SerialRun(m: Machine, events: seq<Event>, key: Key, size: nat, n: nat)
    requires Inv(m) && Serial(m, events, key) && OneSize(m, events, key, size) && n <= |events|
    requires Fresh(m, key, size) && OneOpen(m, key)
    ensures Inv(Run(m, events[..n]))
    ensures Fresh(Run(m, events[..n]), key, size) && OneOpen(Run(m, events[..n]), key)
  {
    RunKeepsInv(m, events[..n]);
    if n > 0 {
      SerialRun(m, events, key, size, n - 1);
      assert events[..n][..n - 1] == events[..n - 1];
      assert SerialEvent(Run(m, events[..n - 1]), events[n - 1], key);
      SerialStep(Run(m, events[..n - 1]), events[n - 1], key, size);
    }
  }

  lemma {:induction false} SerialIsNotStale(m: Machine, events: seq<Event>, key: Key, size: nat, i: nat, n: nat)
    requires Inv(m) && Serial(m, events, key) && OneSize(m, events, key, size) && n <= |events|
    requires Fresh(m, key, size) && OneOpen(m, key)
    ensures Books(m, events[..n], key, i).stale == 0.0
  {
    if n > 0 {
      SerialIsNotStale(m, events, key, size, i, n - 1);
      SerialRun(m, events, key, size, n - 1);
      assert events[..n][..n - 1] == events[..n - 1];
      assert SerialEvent(Run(m, events[..n - 1]), events[n - 1], key);
      SerialStep(Run(m, events[..n - 1]), events[n - 1], key, size);
    }
  }

  /** Conservation: with at most one open transaction of the key, whatever happens on others, the restored values
      of the commits on the key sum to their gradients plus the initial residual minus the final one, minus what
      rebuilds discarded. */
  lemma {:induction false} SerialConservation(m: Machine, events: seq<Event>, key: Key, size: nat, i: nat)
    requires Inv(m) && Serial(m, events, key) && OneSize(m, events, key, size)
    requires m.entries == [] && (key in m.store.residuals ==> |m.store.residuals[key].lanes| == size)
    ensures var b := Books(m, events, key, i);
            b.restored == b.gradients + Residual(m.store, key, i) - Residual(Run(m, events).store, key, i) - b.discarded
  {
    Balance(m, events, key, i);
    SerialIsNotStale(m, events, key, size, i, |events|);
    assert events[..|events|] == events;
  }

  /** Two overlapping transactions on one key: the first commit's residual is lost. */
  lemma OverlapLosesResidual()
    ensures var g := Tensor([1], "fp32", [Finite(1.0)]);
            var half := Tensor([1], "fp32", [Finite(0.5)]);
            var key := Key(0, 0, [1], "fp32");
            var m := Machine(Store(0, map[]), []);
            var events := [Prepare(0, g), Prepare(0, g), Commit(0, half, false), Commit(1, half, false)];
            && Books(m, events, key, 0).stale == 0.5
            && Books(m, events, key, 0).restored == 1.0 && Books(m, events, key, 0).gradients == 2.0
            && Residual(Run(m, events).store, key, 0) == 0.5
  {
    var g := Tensor([1], "fp32", [Finite(1.0)]);
    var half := Tensor([1], "fp32", [Finite(0.5)]);
    var key := Key(0, 0, [1], "fp32");
    var m := Machine(Store(0, map[]), []);
    var a, b, c, d := Prepare(0, g), Prepare(0, g), Commit(0, half, false), Commit(1, half, false);
    assert [a, b, c, d][..3] == [a, b, c] && [a, b, c][..2] == [a, b] && [a, b][..1] == [a] && [a][..0] == [];
    var m1 := Step(m, a);
    var m2 := Step(m1, b);
    var m3 := Step(m2, c);
    assert Run(m, [a]) == m1 && Run(m, [a, b]) == m2 && Run(m, [a, b, c]) == m3;
    assert m2.entries[0].txn == Txn(key, g, true, false) && m2.entries[1].txn == Txn(key, g, true, false);
    assert Sub(g, half).lanes == [Finite(0.5)];
    assert Books(m, [a], key, 0) == Ledger(0.0, 0.0, 0.0, 0.0);
    assert Books(m, [a, b], key, 0) == Ledger(0.0, 0.0, 0.0, 0.0);
    assert Books(m, [a, b, c], key, 0) == Ledger(1.0, 0.5, 0.0, 0.0);
  }
}
