/** The rotated binary-tree schedule and the reduce/broadcast it describes. */
module Tree {
  import opened Sequences
  import opened Wrappers

  datatype TreeSchedule =
    TreeSchedule(rank: nat, worldSize: nat, root: nat, parent: Option<nat>, children: seq<nat>)

  function CompileTreeSchedule(worldSize: int, rank: int, root: int): (r: Result<TreeSchedule>)
    ensures r.Ok? <==> 0 <= rank < worldSize && 0 <= root < worldSize
    ensures r.Ok? ==> r.value == TreeSchedule(rank, worldSize, root, Parent(worldSize, root, rank),
                                              Children(worldSize, root, rank))
  {
    if worldSize <= 0 then Err("world_size must be positive")
    else if rank < 0 || rank >= worldSize then Err("rank must be within world_size")
    else if root < 0 || root >= worldSize then Err("root must be within world_size")
    else
      ScheduleIsHeap(worldSize, root, rank);
      Ok(Schedule(worldSize, rank, root))
  }

  function Schedule(w: nat, rank: nat, root: nat): TreeSchedule
    requires rank < w && root < w
  {
    var logical := (rank - root) % w;
    var parent := if logical == 0 then None else Some(((logical - 1) / 2 + root) % w);
    var left := if 2 * logical + 1 < w then [(2 * logical + 1 + root) % w] else [];
    var right := if 2 * logical + 2 < w then [(2 * logical + 2 + root) % w] else [];
    TreeSchedule(rank, w, root, parent, left + right)
  }

  // ---------------------------------------------------------------------------
  // Root-relative positions: rank `Physical(l)` sits at position `l` of a heap.

  function Logical(w: nat, root: nat, r: nat): nat
    requires r < w && root < w
  {
    if r >= root then r - root else r - root + w
  }

  function Physical(w: nat, root: nat, l: nat): nat
    requires l < w && root < w
  {
    if l + root < w then l + root else l + root - w
  }

  function Parent(w: nat, root: nat, r: nat): Option<nat>
    requires r < w && root < w
  {
    var l := Logical(w, root, r);
    if l == 0 then None else Some(Physical(w, root, (l - 1) / 2))
  }

  function Children(w: nat, root: nat, r: nat): seq<nat>
    requires r < w && root < w
  {
    var l := Logical(w, root, r);
    (if 2 * l + 1 < w then [Physical(w, root, 2 * l + 1)] else [])
    + (if 2 * l + 2 < w then [Physical(w, root, 2 * l + 2)] else [])
  }

  /** The compiled schedule is the heap rotated to the root. */
  lemma {:induction false} ScheduleIsHeap(w: nat, root: nat, r: nat)
    requires r < w && root < w
    ensures Schedule(w, r, root) == TreeSchedule(r, w, root, Parent(w, root, r), Children(w, root, r))
  {
    var l := Logical(w, root, r);
    WrapOnce(r - root, w);
    if l > 0 {
      WrapOnce((l - 1) / 2 + root, w);
    }
    if 2 * l + 1 < w {
      WrapOnce(2 * l + 1 + root, w);
    }
    if 2 * l + 2 < w {
      WrapOnce(2 * l + 2 + root, w);
    }
  }

  /** How far a rank is from the root, modulo the world size. */
  function FromRoot(w: nat, root: nat, r: int): int
    requires w > 0
  {
    (r - root) % w
  }

  function ToRank(w: nat, root: nat, l: int): int
    requires w > 0
  {
    (l + root) % w
  }

  /** In ranks counted from the root, modulo the world size: the parent of `l` is `(l - 1) / 2`, and its children are
      `2 * l + 1` and `2 * l + 2`, in this order, as far as they exist. */
  lemma {:induction false} HeapPositions(w: nat, root: nat, r: nat)
    requires r < w && root < w
    ensures var s, l := Schedule(w, r, root), FromRoot(w, root, r);
            && s.rank == r && s.worldSize == w && s.root == root
            && (s.parent.None? <==> l == 0)
            && (s.parent.Some? ==> s.parent.value < w && FromRoot(w, root, s.parent.value) == (l - 1) / 2)
            && |s.children| == (if 2 * l + 2 < w then 2 else if 2 * l + 1 < w then 1 else 0)
            && forall i :: 0 <= i < |s.children| ==>
                 s.children[i] < w && FromRoot(w, root, s.children[i]) == 2 * l + 1 + i
  {
    var l := FromRoot(w, root, r);
    ScheduleFrom(w, r, root);
    hide Schedule, FromRoot, ToRank;
    var parent, left, right := (l - 1) / 2, 2 * l + 1, 2 * l + 2;
    if l > 0 {
      BackToPosition(w, root, parent);
    }
    if left < w {
      BackToPosition(w, root, left);
    }
    if right < w {
      BackToPosition(w, root, right);
    }
  }

  lemma ScheduleFrom(w: nat, r: nat, root: nat)
    requires r < w && root < w
    ensures 0 <= FromRoot(w, root, r) < w
    ensures var l := FromRoot(w, root, r);
            && (l > 0 ==> ToRank(w, root, (l - 1) / 2) >= 0)
            && (2 * l + 1 < w ==> ToRank(w, root, 2 * l + 1) >= 0)
            && (2 * l + 2 < w ==> ToRank(w, root, 2 * l + 2) >= 0)
            && Schedule(w, r, root)
               == TreeSchedule(r, w, root, if l == 0 then None else Some(ToRank(w, root, (l - 1) / 2)),
                               (if 2 * l + 1 < w then [ToRank(w, root, 2 * l + 1)] else [])
                               + (if 2 * l + 2 < w then [ToRank(w, root, 2 * l + 2)] else []))
  {
    PositionsAre(w, root, r, 0);
    var l := FromRoot(w, root, r);
    PositionsAre(w, root, r, (l - 1) / 2);
    PositionsAre(w, root, r, 2 * l + 1);
    PositionsAre(w, root, r, 2 * l + 2);
    hide FromRoot, ToRank;
  }

  lemma PositionsAre(w: nat, root: nat, r: int, l: int)
    requires w > 0
    ensures FromRoot(w, root, r) == (r - root) % w && 0 <= FromRoot(w, root, r) < w
    ensures ToRank(w, root, l) == (l + root) % w && 0 <= ToRank(w, root, l) < w
  {
  }

  lemma BackToPosition(w: nat, root: nat, l: nat)
    requires l < w && root < w
    ensures 0 <= ToRank(w, root, l) < w && FromRoot(w, root, ToRank(w, root, l)) == l
  {
    WrapOnce(l + root, w);
    WrapOnce((l + root) % w - root, w);
  }

  lemma PhysicalFacts(w: nat, root: nat, l: nat)
    requires l < w && root < w
    ensures Physical(w, root, l) < w && Logical(w, root, Physical(w, root, l)) == l
  {
  }

  lemma LogicalFacts(w: nat, root: nat, r: nat)
    requires r < w && root < w
    ensures Logical(w, root, r) < w && Physical(w, root, Logical(w, root, r)) == r
  {
  }

  // ---------------------------------------------------------------------------
  // The parent and child maps of all ranks.

  /** A rank is listed as a child exactly by the rank it names as its parent, and once. */
  lemma {:induction false} ParentChildInverse(w: nat, root: nat, p: nat, c: nat)
    requires p < w && c < w && root < w
    ensures c in Schedule(w, p, root).children <==> Schedule(w, c, root).parent == Some(p)
    ensures multiset(Schedule(w, p, root).children)[c] <= 1
  {
    ScheduleIsHeap(w, root, p);
    ScheduleIsHeap(w, root, c);
    HeapInverse(w, root, p, c);
  }

  lemma {:induction false} HeapInverse(w: nat, root: nat, p: nat, c: nat)
    requires p < w && c < w && root < w
    ensures c in Children(w, root, p) <==> Parent(w, root, c) == Some(p)
    ensures multiset(Children(w, root, p))[c] <= 1
  {
    LogicalFacts(w, root, p);
    LogicalFacts(w, root, c);
    var l, m := Logical(w, root, p), Logical(w, root, c);
    if m > 0 {
      PhysicalFacts(w, root, (m - 1) / 2);
    }
    if 2 * l + 1 < w {
      PhysicalFacts(w, root, 2 * l + 1);
    }
    if 2 * l + 2 < w {
      PhysicalFacts(w, root, 2 * l + 2);
    }
  }

  /** Only the root has no parent. */
  lemma {:induction false} OnlyRootIsOrphan(w: nat, root: nat, r: nat)
    requires r < w && root < w
    ensures Schedule(w, r, root).parent == None <==> r == root
    ensures Parent(w, root, r) == None <==> r == root
  {
    ScheduleIsHeap(w, root, r);
  }

  /** Follow `n` parent links, staying at the root once it is reached. */
  function Climb(w: nat, root: nat, r: nat, n: nat): nat
    requires r < w && root < w
    decreases n
  {
    if n == 0 then r
    else
      match Parent(w, root, r)
      case None => r
      case Some(p) => LogicalFacts(w, root, r); Climb(w, root, p, n - 1)
  }

  function FloorLog2(n: nat): nat {
    if n <= 1 then 0 else 1 + FloorLog2(n / 2)
  }

  function Pow2(n: nat): nat {
    if n == 0 then 1 else 2 * Pow2(n - 1)
  }

  lemma {:induction false} FloorLog2IsFloor(n: nat)
    requires n > 0
    ensures Pow2(FloorLog2(n)) <= n < Pow2(FloorLog2(n) + 1)
  {
    if n > 1 {
      FloorLog2IsFloor(n / 2);
    }
  }

  lemma {:induction false} FloorLog2Monotone(a: nat, b: nat)
    requires a <= b
    ensures FloorLog2(a) <= FloorLog2(b)
  {
    if a > 1 {
      FloorLog2Monotone(a / 2, b / 2);
    }
  }

  lemma {:induction false} ClimbFrom(w: nat, root: nat, r: nat, n: nat)
    requires r < w && root < w
    requires FloorLog2(Logical(w, root, r) + 1) <= n
    ensures Climb(w, root, r, n) == root
    decreases n
  {
    LogicalFacts(w, root, r);
    var l := Logical(w, root, r);
    if l > 0 {
      var p := (l - 1) / 2;
      PhysicalFacts(w, root, p);
      assert (l + 1) / 2 == p + 1;
      ClimbFrom(w, root, Physical(w, root, p), n - 1);
    }
  }

  /** From any rank, floor(log2 W) parent links reach the root. */
  lemma {:induction false} ReachesRoot(w: nat, root: nat, r: nat)
    requires r < w && root < w
    ensures Climb(w, root, r, FloorLog2(w)) == root
    ensures Pow2(FloorLog2(w)) <= w < Pow2(FloorLog2(w) + 1)
  {
    FloorLog2IsFloor(w);
    LogicalFacts(w, root, r);
    FloorLog2Monotone(Logical(w, root, r) + 1, w);
    ClimbFrom(w, root, r, FloorLog2(w));
  }

  // ---------------------------------------------------------------------------
  // One tree over all ranks.

  lemma ChildrenAreBelow(w: nat, root: nat, r: nat)
    requires r < w && root < w
    ensures |Children(w, root, r)| <= 2
    ensures forall i :: 0 <= i < |Children(w, root, r)| ==>
      var c := Children(w, root, r)[i]; c < w && Logical(w, root, r) < Logical(w, root, c) < w
  {
    LogicalFacts(w, root, r);
  }

  /** The ranks met when the child links are followed from heap position `l`. */
  function Preorder(w: nat, root: nat, l: nat): seq<nat>
    requires root < w
    decreases if l < w then w - l else 0
  {
    if l < w then [Physical(w, root, l)] + Preorder(w, root, 2 * l + 1) + Preorder(w, root, 2 * l + 2) else []
  }

  function PreorderAll(w: nat, root: nat, ranks: seq<nat>): seq<nat>
    requires root < w && forall i :: 0 <= i < |ranks| ==> ranks[i] < w
  {
    if ranks == [] then []
    else Preorder(w, root, Logical(w, root, ranks[0])) + PreorderAll(w, root, ranks[1..])
  }

  lemma {:induction false} PreorderOfTwo(w: nat, root: nat, left: seq<nat>, right: seq<nat>)
    requires root < w && |left| <= 1 && |right| <= 1
    requires forall i :: 0 <= i < |left| ==> left[i] < w
    requires forall i :: 0 <= i < |right| ==> right[i] < w
    ensures PreorderAll(w, root, left + right)
         == (if left == [] then [] else Preorder(w, root, Logical(w, root, left[0])))
            + (if right == [] then [] else Preorder(w, root, Logical(w, root, right[0])))
  {
    hide Logical, Preorder;
    assert PreorderAll(w, root, []) == [];
    if right != [] {
      assert right[1..] == [];
      assert PreorderAll(w, root, right) == Preorder(w, root, Logical(w, root, right[0]));
    }
    if left == [] {
      assert left + right == right;
    } else {
      assert (left + right)[1..] == right && (left + right)[0] == left[0];
    }
  }

  /** The list of the rank at heap position `l`, or nothing past the end. */
  function AtPosition(w: nat, root: nat, l: nat): (ranks: seq<nat>)
    requires root < w
    ensures |ranks| <= 1 && forall i :: 0 <= i < |ranks| ==> ranks[i] < w
  {
    if l < w then [Physical(w, root, l)] else []
  }

  lemma {:induction false} PreorderAtPosition(w: nat, root: nat, l: nat)
    requires root < w
    ensures Preorder(w, root, l)
         == if AtPosition(w, root, l) == [] then [] else Preorder(w, root, Logical(w, root, AtPosition(w, root, l)[0]))
  {
    if l < w {
      PhysicalFacts(w, root, l);
    }
  }

  /** `Preorder` visits a rank and then the subtrees of the children its schedule lists. */
  lemma {:induction false} PreorderFollowsChildren(w: nat, root: nat, r: nat)
    requires r < w && root < w
    ensures forall i :: 0 <= i < |Schedule(w, r, root).children| ==> Schedule(w, r, root).children[i] < w
    ensures Preorder(w, root, Logical(w, root, r)) == [r] + PreorderAll(w, root, Schedule(w, r, root).children)
  {
    hide Logical, Physical, Schedule, Children, AtPosition, PreorderAll;
    ScheduleIsHeap(w, root, r);
    LogicalFacts(w, root, r);
    ChildrenAtPositions(w, root, r);
    var l := Logical(w, root, r);
    PreorderOfTwo(w, root, AtPosition(w, root, 2 * l + 1), AtPosition(w, root, 2 * l + 2));
    PreorderAtPosition(w, root, 2 * l + 1);
    PreorderAtPosition(w, root, 2 * l + 2);
    PreorderUnfolds(w, root, l);
    hide Preorder;
  }

  lemma ChildrenAtPositions(w: nat, root: nat, r: nat)
    requires r < w && root < w
    ensures var l := Logical(w, root, r);
            Children(w, root, r) == AtPosition(w, root, 2 * l + 1) + AtPosition(w, root, 2 * l + 2)
  {
  }

  lemma PreorderUnfolds(w: nat, root: nat, l: nat)
    requires l < w && root < w
    ensures Preorder(w, root, l)
         == [Physical(w, root, l)] + (Preorder(w, root, 2 * l + 1) + Preorder(w, root, 2 * l + 2))
  {
    assert Preorder(w, root, l) == [Physical(w, root, l)] + Preorder(w, root, 2 * l + 1) + Preorder(w, root, 2 * l + 2);
  }

  /** `l` is on the path from `m` to position 0. */
  predicate Above(l: nat, m: nat) {
    l == m || (l < m && Above(l, (m - 1) / 2))
  }

  lemma {:induction false} AboveSplits(l: nat, m: nat)
    ensures Above(l, m) <==> l == m || Above(2 * l + 1, m) || Above(2 * l + 2, m)
    ensures !(Above(2 * l + 1, m) && Above(2 * l + 2, m))
    ensures Above(2 * l + 1, m) || Above(2 * l + 2, m) ==> l != m
  {
    if l < m {
      var p := (m - 1) / 2;
      if p != l {
        AboveSplits(l, p);
      }
    }
  }

  lemma {:induction false} ZeroIsAboveAll(m: nat)
    ensures Above(0, m)
  {
    if m > 0 {
      ZeroIsAboveAll((m - 1) / 2);
    }
  }

  function Occurs(l: nat, m: nat): nat {
    if Above(l, m) then 1 else 0
  }

  lemma {:induction false} OccursSplits(l: nat, m: nat)
    ensures Occurs(l, m) == (if l == m then 1 else 0) + Occurs(2 * l + 1, m) + Occurs(2 * l + 2, m)
  {
    AboveSplits(l, m);
  }

  lemma CountStep(own: seq<nat>, left: seq<nat>, right: seq<nat>, q: nat, l: nat, m: nat)
    requires multiset(own)[q] == if l == m then 1 else 0
    requires multiset(left)[q] == Occurs(2 * l + 1, m)
    requires multiset(right)[q] == Occurs(2 * l + 2, m)
    ensures multiset(own + left + right)[q] == Occurs(l, m)
  {
    assert multiset(own + left + right) == multiset(own) + multiset(left) + multiset(right);
    OccursSplits(l, m);
  }

  ghost predicate CountsBelow(w: nat, root: nat, l: nat, q: nat)
    requires q < w && root < w
  {
    multiset(Preorder(w, root, l))[q] == Occurs(l, Logical(w, root, q))
  }

  lemma {:induction false} OwnCount(w: nat, root: nat, l: nat, q: nat)
    requires l < w && q < w && root < w
    ensures multiset([Physical(w, root, l)])[q] == if l == Logical(w, root, q) then 1 else 0
  {
    PhysicalFacts(w, root, l);
    LogicalFacts(w, root, q);
    hide Physical, Logical;
  }

  lemma {:induction false} CountsStep(w: nat, root: nat, l: nat, q: nat)
    requires l < w && q < w && root < w
    requires CountsBelow(w, root, 2 * l + 1, q) && CountsBelow(w, root, 2 * l + 2, q)
    ensures CountsBelow(w, root, l, q)
  {
    OwnCount(w, root, l, q);
    hide Physical, Logical, Occurs;
    CountStep([Physical(w, root, l)], Preorder(w, root, 2 * l + 1), Preorder(w, root, 2 * l + 2), q, l,
              Logical(w, root, q));
  }

  lemma {:induction false} CountsOutside(w: nat, root: nat, l: nat, q: nat)
    requires w <= l && q < w && root < w
    ensures CountsBelow(w, root, l, q)
  {
    LogicalFacts(w, root, q);
  }

  lemma {:induction false} PreorderCounts(w: nat, root: nat, l: nat, q: nat)
    requires q < w && root < w
    ensures CountsBelow(w, root, l, q)
    decreases w - l
  {
    hide CountsBelow;
    if w <= l {
      CountsOutside(w, root, l, q);
      return;
    }
    PreorderCounts(w, root, 2 * l + 1, q);
    PreorderCounts(w, root, 2 * l + 2, q);
    CountsStep(w, root, l, q);
  }

  /** Following the children from the root meets every rank exactly once. */
  lemma {:induction false} OneTree(w: nat, root: nat, q: nat)
    requires q < w && root < w
    ensures multiset(Preorder(w, root, Logical(w, root, root)))[q] == 1
  {
    LogicalFacts(w, root, q);
    LogicalFacts(w, root, root);
    PreorderCounts(w, root, 0, q);
    ZeroIsAboveAll(Logical(w, root, q));
  }

  // ---------------------------------------------------------------------------
  // Reduction.

  /** The value a rank passes upward: its own plus its children's. */
  function Fold(w: nat, root: nat, x: seq<real>, r: nat): real
    requires |x| == w && r < w && root < w
    decreases w - Logical(w, root, r)
  {
    ChildrenAreBelow(w, root, r);
    var cs := Children(w, root, r);
    x[r] + (if |cs| > 0 then Fold(w, root, x, cs[0]) else 0.0)
         + (if |cs| > 1 then Fold(w, root, x, cs[1]) else 0.0)
  }

  /** The contributions of the ranks below position `l`, in heap order. */
  function Below(w: nat, root: nat, x: seq<real>, l: nat): seq<real>
    requires |x| == w && root < w
  {
    seq(w, m requires 0 <= m < w => if Above(l, m) then x[Physical(w, root, m)] else 0.0)
  }

  lemma {:induction false} BelowOutside(w: nat, root: nat, x: seq<real>, l: nat)
    requires |x| == w && root < w && w <= l
    ensures Sum(Below(w, root, x, l)) == 0.0
  {
    SumZero(Below(w, root, x, l));
  }

  lemma {:induction false} BelowSplits(w: nat, root: nat, x: seq<real>, l: nat)
    requires |x| == w && l < w && root < w
    ensures Sum(Below(w, root, x, l))
         == x[Physical(w, root, l)] + Sum(Below(w, root, x, 2 * l + 1)) + Sum(Below(w, root, x, 2 * l + 2))
  {
    var zeros := seq(w, m => 0.0);
    var own := zeros[l := x[Physical(w, root, l)]];
    SumZero(zeros);
    SumUpdate(zeros, l, x[Physical(w, root, l)]);
    var left, right := Below(w, root, x, 2 * l + 1), Below(w, root, x, 2 * l + 2);
    var both := seq(w, m requires 0 <= m < w => own[m] + left[m]);
    forall m | 0 <= m < w
      ensures Below(w, root, x, l)[m] == both[m] + right[m]
    {
      AboveSplits(l, m);
    }
    SumAdd(own, left, both);
    SumAdd(both, right, Below(w, root, x, l));
  }

  /** The value passed up from heap position `l`; positions past the end pass nothing. */
  function FoldAt(w: nat, root: nat, x: seq<real>, l: nat): real
    requires |x| == w && root < w
  {
    if l < w then Fold(w, root, x, Physical(w, root, l)) else 0.0
  }

  lemma {:induction false} FoldUnfolds(w: nat, root: nat, x: seq<real>, l: nat)
    requires |x| == w && l < w && root < w
    ensures FoldAt(w, root, x, l)
         == x[Physical(w, root, l)] + FoldAt(w, root, x, 2 * l + 1) + FoldAt(w, root, x, 2 * l + 2)
  {
    PhysicalFacts(w, root, l);
  }

  lemma {:induction false} FoldIsBelow(w: nat, root: nat, x: seq<real>, l: nat)
    requires |x| == w && root < w
    ensures FoldAt(w, root, x, l) == Sum(Below(w, root, x, l))
    decreases if l < w then w - l else 0
  {
    hide Fold, Below, Sum, Physical;
    if l < w {
      FoldIsBelow(w, root, x, 2 * l + 1);
      FoldIsBelow(w, root, x, 2 * l + 2);
      BelowSplits(w, root, x, l);
      FoldUnfolds(w, root, x, l);
    } else {
      BelowOutside(w, root, x, l);
    }
  }

  lemma RingSumStep(w: nat, root: nat, x: seq<real>, n: nat)
    requires |x| == w && root < w && n < w
    ensures RingSum(x, root, n + 1) == RingSum(x, root, n) + x[Physical(w, root, n)]
  {
    WrapOnce(root + n, w);
  }

  lemma {:induction false} HeapOrderSum(w: nat, root: nat, x: seq<real>, n: nat, b: seq<real>)
    requires |x| == w == |b| && root < w && n <= w
    requires forall m :: 0 <= m < w ==> b[m] == x[Physical(w, root, m)]
    ensures Sum(b[..n]) == RingSum(x, root, n)
    decreases n
  {
    if n > 0 {
      HeapOrderSum(w, root, x, n - 1, b);
      assert b[..n] == b[..n - 1] + [b[n - 1]];
      SumAppend(b[..n - 1], b[n - 1]);
      RingSumStep(w, root, x, n - 1);
    }
  }

  /** Folding child values upward gives the root the sum of all ranks. */
  lemma {:induction false} RootFoldsEverything(w: nat, root: nat, x: seq<real>)
    requires |x| == w && root < w
    ensures Fold(w, root, x, root) == Sum(x)
  {
    LogicalFacts(w, root, root);
    FoldIsBelow(w, root, x, 0);
    var b := Below(w, root, x, 0);
    forall m | 0 <= m < w
      ensures b[m] == x[Physical(w, root, m)]
    {
      ZeroIsAboveAll(m);
    }
    HeapOrderSum(w, root, x, w, b);
    assert b[..w] == b;
    RingSumTotal(x, root);
  }

  // ---------------------------------------------------------------------------
  // The distributed reduce-then-broadcast: children report in any order.

  /** `merged[r]` are the children whose value `r` has added, `up[r]` the message `r` sent to its parent. */
  datatype State = State(acc: seq<real>, merged: seq<set<nat>>, up: seq<Option<real>>, done: seq<bool>)

  datatype Action = Merge(rank: nat, child: nat) | SendUp(rank: nat) | TurnAround | Down(rank: nat)

  ghost predicate WellShaped(w: nat, s: State) {
    |s.acc| == |s.merged| == |s.up| == |s.done| == w
  }

  function Initial(x: seq<real>): State {
    State(x, seq(|x|, r => {}), seq(|x|, r => None), seq(|x|, r => false))
  }

  function ChildSet(w: nat, root: nat, r: nat): set<nat>
    requires r < w && root < w
  {
    set c | c in Children(w, root, r)
  }

  ghost predicate Enabled(w: nat, root: nat, s: State, a: Action)
    requires root < w && WellShaped(w, s)
  {
    match a
    case Merge(r, c) => r < w && c < w && c in Children(w, root, r) && c !in s.merged[r] && s.up[c].Some?
    case SendUp(r) => r < w && r != root && s.merged[r] == ChildSet(w, root, r) && s.up[r].None?
    case TurnAround => s.merged[root] == ChildSet(w, root, root) && !s.done[root]
    case Down(r) =>
      r < w && !s.done[r] && s.up[r].Some? && Parent(w, root, r).Some?
      && Parent(w, root, r).value < w && s.done[Parent(w, root, r).value]
  }

  ghost function Apply(w: nat, root: nat, s: State, a: Action): State
    requires root < w && WellShaped(w, s) && Enabled(w, root, s, a)
  {
    match a
    case Merge(r, c) => s.(acc := s.acc[r := s.acc[r] + s.up[c].value],
                           merged := s.merged[r := s.merged[r] + {c}])
    case SendUp(r) => s.(up := s.up[r := Some(s.acc[r])])
    case TurnAround => s.(done := s.done[root := true])
    case Down(r) => s.(acc := s.acc[r := s.acc[Parent(w, root, r).value]], done := s.done[r := true])
  }

  ghost predicate IsRun(root: nat, x: seq<real>, run: seq<State>) {
    && root < |x|
    && |run| > 0 && run[0] == Initial(x)
    && forall i :: 0 <= i < |run| - 1 ==>
         WellShaped(|x|, run[i])
         && exists a :: Enabled(|x|, root, run[i], a) && run[i + 1] == Apply(|x|, root, run[i], a)
  }

  /** The value of `r` once it has added the children in `m`. */
  function Gathered(w: nat, root: nat, x: seq<real>, r: nat, m: set<nat>): real
    requires |x| == w && r < w && root < w
  {
    ChildrenAreBelow(w, root, r);
    var cs := Children(w, root, r);
    x[r] + (if |cs| > 0 && cs[0] in m then Fold(w, root, x, cs[0]) else 0.0)
         + (if |cs| > 1 && cs[1] in m then Fold(w, root, x, cs[1]) else 0.0)
  }

  ghost predicate RankInv(root: nat, x: seq<real>, s: State, r: nat)
    requires root < |x| && WellShaped(|x|, s) && r < |x|
  {
    var w := |x|;
    && s.merged[r] <= ChildSet(w, root, r)
    && (s.up[r].Some? ==> s.merged[r] == ChildSet(w, root, r) && s.up[r].value == Fold(w, root, x, r))
    && (s.done[r] ==> s.acc[r] == Sum(x) && s.merged[r] == ChildSet(w, root, r) && (r != root ==> s.up[r].Some?))
    && (!s.done[r] ==> s.acc[r] == Gathered(w, root, x, r, s.merged[r]))
  }

  ghost predicate Inv(root: nat, x: seq<real>, s: State)
    requires root < |x|
  {
    WellShaped(|x|, s) && forall r :: 0 <= r < |x| ==> RankInv(root, x, s, r)
  }

  lemma {:induction false} GatheredAll(w: nat, root: nat, x: seq<real>, r: nat)
    requires |x| == w && r < w && root < w
    ensures Gathered(w, root, x, r, ChildSet(w, root, r)) == Fold(w, root, x, r)
  {
    ChildrenAreBelow(w, root, r);
  }

  lemma {:induction false} GatheredOne(w: nat, root: nat, x: seq<real>, r: nat, m: set<nat>, c: nat)
    requires |x| == w && r < w && c < w && root < w
    requires c in Children(w, root, r) && c !in m
    ensures Gathered(w, root, x, r, m + {c}) == Gathered(w, root, x, r, m) + Fold(w, root, x, c)
  {
    LogicalFacts(w, root, r);
    ChildrenAreBelow(w, root, r);
    var cs := Children(w, root, r);
    if |cs| > 1 {
      var l := Logical(w, root, r);
      PhysicalFacts(w, root, 2 * l + 1);
      PhysicalFacts(w, root, 2 * l + 2);
      assert cs[0] != cs[1];
    }
  }

  /** The invariant of the ranks that an action does not write. */
  lemma {:induction false} OthersKeepInv(root: nat, x: seq<real>, s: State, t: State, r: nat)
    requires root < |x| && Inv(root, x, s) && WellShaped(|x|, t) && r < |x|
    requires forall q :: 0 <= q < |x| && q != r ==>
      t.acc[q] == s.acc[q] && t.merged[q] == s.merged[q] && t.up[q] == s.up[q] && t.done[q] == s.done[q]
    requires RankInv(root, x, t, r)
    ensures Inv(root, x, t)
  {
    hide Fold, Gathered, ChildSet, Sum;
    forall q | 0 <= q < |x|
      ensures RankInv(root, x, t, q)
    {
      assert RankInv(root, x, s, q);
    }
  }

  lemma {:induction false} ActionKeepsInv(root: nat, x: seq<real>, s: State, a: Action)
    requires root < |x| && Inv(root, x, s) && Enabled(|x|, root, s, a)
    ensures Inv(root, x, Apply(|x|, root, s, a))
  {
    hide Fold, Gathered, Sum, Children;
    var w := |x|;
    var t := Apply(w, root, s, a);
    match a {
      case Merge(r, c) =>
        assert RankInv(root, x, s, r) && RankInv(root, x, s, c);
        GatheredOne(w, root, x, r, s.merged[r], c);
        assert c in ChildSet(w, root, r);
        OthersKeepInv(root, x, s, t, r);
      case SendUp(r) =>
        assert RankInv(root, x, s, r);
        GatheredAll(w, root, x, r);
        OnlyRootIsOrphan(w, root, r);
        OthersKeepInv(root, x, s, t, r);
      case TurnAround =>
        assert RankInv(root, x, s, root);
        GatheredAll(w, root, x, root);
        RootFoldsEverything(w, root, x);
        OthersKeepInv(root, x, s, t, root);
      case Down(r) =>
        assert RankInv(root, x, s, r) && RankInv(root, x, s, Parent(w, root, r).value);
        OnlyRootIsOrphan(w, root, r);
        OthersKeepInv(root, x, s, t, r);
    }
  }

  lemma {:induction false} RunKeepsInv(root: nat, x: seq<real>, run: seq<State>, i: nat)
    requires IsRun(root, x, run) && i < |run|
    ensures Inv(root, x, run[i])
  {
    if i == 0 {
      forall r | 0 <= r < |x|
        ensures RankInv(root, x, run[0], r)
      {
        ChildrenAreBelow(|x|, root, r);
      }
    } else {
      RunKeepsInv(root, x, run, i - 1);
      var s := run[i - 1];
      assert exists a :: Enabled(|x|, root, s, a) && run[i - 1 + 1] == Apply(|x|, root, s, a);
      var a :| Enabled(|x|, root, s, a) && run[i - 1 + 1] == Apply(|x|, root, s, a);
      ActionKeepsInv(root, x, s, a);
    }
  }

  /** Whatever the order of reports, a rank that has finished holds the sum over all ranks. */
  lemma {:induction false} FinishedRankHoldsSum(root: nat, x: seq<real>, run: seq<State>, i: nat, r: nat)
    requires IsRun(root, x, run) && i < |run| && r < |x|
    requires WellShaped(|x|, run[i]) && run[i].done[r]
    ensures run[i].acc[r] == Sum(x)
  {
    RunKeepsInv(root, x, run, i);
    assert RankInv(root, x, run[i], r);
  }

  /** A rank is past its reduction once it has reported (or, for the root, turned around). */
  ghost predicate Reported(root: nat, s: State, r: nat)
    requires |s.up| == |s.done| && r < |s.up|
  {
    if r == root then s.done[r] else s.up[r].Some?
  }

  lemma {:induction false} ReductionAdvances(root: nat, x: seq<real>, s: State, l: nat) returns (a: Action)
    requires root < |x| && Inv(root, x, s) && l < |x|
    requires !Reported(root, s, Physical(|x|, root, l))
    ensures Enabled(|x|, root, s, a)
    decreases |x| - l
  {
    var w := |x|;
    var r := Physical(w, root, l);
    PhysicalFacts(w, root, l);
    LogicalFacts(w, root, r);
    ChildrenAreBelow(w, root, r);
    OnlyRootIsOrphan(w, root, r);
    assert RankInv(root, x, s, r);
    if s.merged[r] == ChildSet(w, root, r) {
      a := if r == root then TurnAround else SendUp(r);
    } else {
      var c :| c in ChildSet(w, root, r) && c !in s.merged[r];
      if s.up[c].Some? {
        a := Merge(r, c);
      } else {
        HeapInverse(w, root, r, c);
        OnlyRootIsOrphan(w, root, c);
        LogicalFacts(w, root, c);
        a := ReductionAdvances(root, x, s, Logical(w, root, c));
      }
    }
  }

  lemma {:induction false} BroadcastAdvances(root: nat, x: seq<real>, s: State, l: nat) returns (a: Action)
    requires root < |x| && Inv(root, x, s) && l < |x|
    requires forall r :: 0 <= r < |x| ==> Reported(root, s, r)
    requires !s.done[Physical(|x|, root, l)]
    ensures Enabled(|x|, root, s, a)
    decreases l
  {
    var w := |x|;
    var r := Physical(w, root, l);
    PhysicalFacts(w, root, l);
    LogicalFacts(w, root, r);
    OnlyRootIsOrphan(w, root, r);
    UnfinishedIsNotRoot(root, x, s, r);
    var p := Parent(w, root, r).value;
    PhysicalFacts(w, root, (l - 1) / 2);
    if s.done[p] {
      ParentPasses(root, x, s, r, p);
      a := Down(r);
    } else {
      a := BroadcastAdvances(root, x, s, (l - 1) / 2);
    }
  }

  /** A finished parent lets its child finish. */
  lemma {:induction false} ParentPasses(root: nat, x: seq<real>, s: State, r: nat, p: nat)
    requires root < |x| && Inv(root, x, s) && r < |x| && p < |x| && Parent(|x|, root, r) == Some(p)
    requires Reported(root, s, r) && !s.done[r] && s.done[p] && r != root
    ensures Enabled(|x|, root, s, Down(r))
  {
  }

  /** When all have reported, the root has finished. */
  lemma {:induction false} UnfinishedIsNotRoot(root: nat, x: seq<real>, s: State, r: nat)
    requires root < |x| && Inv(root, x, s) && r < |x| && !s.done[r]
    requires forall q :: 0 <= q < |x| ==> Reported(root, s, q)
    ensures r != root
  {
    assert Reported(root, s, r) && Reported(root, s, root);
  }

  /** A reachable state in which some rank has not finished always has an enabled action. */
  lemma {:induction false} NeverStuck(root: nat, x: seq<real>, run: seq<State>, i: nat, r: nat)
    requires IsRun(root, x, run) && i < |run| && r < |x|
    requires WellShaped(|x|, run[i]) && !run[i].done[r]
    ensures exists a :: Enabled(|x|, root, run[i], a)
  {
    RunKeepsInv(root, x, run, i);
    var s := run[i];
    if q :| 0 <= q < |x| && !Reported(root, s, q) {
      LogicalFacts(|x|, root, q);
      var _ := ReductionAdvances(root, x, s, Logical(|x|, root, q));
    } else {
      LogicalFacts(|x|, root, r);
      var _ := BroadcastAdvances(root, x, s, Logical(|x|, root, r));
    }
  }

  /** The parent of a rank; the root stands for its own. */
  function ParentOf(w: nat, root: nat, r: nat): (p: nat)
    requires r < w && root < w
    ensures p < w && (r != root ==> Parent(w, root, r) == Some(p))
  {
    OnlyRootIsOrphan(w, root, r);
    var l := Logical(w, root, r);
    if r == root then root
    else
      assert l > 0 && (l - 1) / 2 < w by {
        LogicalFacts(w, root, r);
      }
      PhysicalFacts(w, root, (l - 1) / 2);
      Physical(w, root, (l - 1) / 2)
  }

  /** What rank `c` has got done: merged into its parent, reported, finished.  The root has the first two for free. */
  ghost function Work(w: nat, root: nat, s: State, c: nat): (n: nat)
    requires root < w && WellShaped(w, s) && c < w
    ensures n <= 3
  {
    (if c == root then 2
     else (if c in s.merged[ParentOf(w, root, c)] then 1 else 0) + if s.up[c].Some? then 1 else 0)
    + if s.done[c] then 1 else 0
  }

  ghost function Works(w: nat, root: nat, s: State): (works: seq<nat>)
    requires root < w && WellShaped(w, s)
    ensures |works| == w && forall c :: 0 <= c < w ==> works[c] == Work(w, root, s, c)
  {
    seq(w, c requires 0 <= c < w => Work(w, root, s, c))
  }

  /** Whose work an action is. */
  function Worker(root: nat, a: Action): nat {
    match a
    case Merge(_, c) => c
    case SendUp(r) => r
    case TurnAround => root
    case Down(r) => r
  }

  /** Only the entry of a merged child among the children of its parent changes. */
  lemma {:induction false} MergeWork(w: nat, root: nat, s: State, r: nat, c: nat, q: nat)
    requires root < w && WellShaped(w, s) && Enabled(w, root, s, Merge(r, c)) && q < w
    ensures Work(w, root, Apply(w, root, s, Merge(r, c)), q) == Work(w, root, s, q) + if q == c then 1 else 0
  {
    var p := ParentOf(w, root, q);
    HeapInverse(w, root, r, c);
    OnlyRootIsOrphan(w, root, c);
    assert ParentOf(w, root, c) == r && c != root;
    hide Parent, Children, ParentOf, ChildSet;
    var t := Apply(w, root, s, Merge(r, c));
    assert t.merged[p] == if p == r then s.merged[p] + {c} else s.merged[p];
    assert t.up == s.up && t.done == s.done;
    hide Enabled, Apply;
  }

  lemma {:induction false} WorkChange(w: nat, root: nat, s: State, a: Action, q: nat)
    requires root < w && WellShaped(w, s) && Enabled(w, root, s, a) && q < w
    ensures WellShaped(w, Apply(w, root, s, a)) && Worker(root, a) < w
    ensures Work(w, root, Apply(w, root, s, a), q) == Work(w, root, s, q) + if q == Worker(root, a) then 1 else 0
  {
    OnlyRootIsOrphan(w, root, Worker(root, a));
    hide Children, ChildSet, ParentOf, Parent;
    match a {
      case Merge(r, c) => MergeWork(w, root, s, r, c, q);
      case SendUp(r) => assert Apply(w, root, s, a).merged == s.merged;
      case TurnAround => assert Apply(w, root, s, a).merged == s.merged;
      case Down(r) => assert Apply(w, root, s, a).merged == s.merged;
    }
  }

  /** Every action gets one thing done for one rank, which was not done before. */
  lemma {:induction false} ActionWork(root: nat, x: seq<real>, s: State, a: Action)
    requires root < |x| && WellShaped(|x|, s) && Enabled(|x|, root, s, a)
    ensures WellShaped(|x|, Apply(|x|, root, s, a)) && Worker(root, a) < |x|
    ensures Works(|x|, root, Apply(|x|, root, s, a))
         == Works(|x|, root, s)[Worker(root, a) := Works(|x|, root, s)[Worker(root, a)] + 1]
  {
    WorkChange(|x|, root, s, a, 0);
    hide Work, Enabled, Apply;
    forall q | 0 <= q < |x|
      ensures Work(|x|, root, Apply(|x|, root, s, a), q)
           == Work(|x|, root, s, q) + if q == Worker(root, a) then 1 else 0
    {
      WorkChange(|x|, root, s, a, q);
    }
  }

  lemma {:induction false} InitialWork(root: nat, x: seq<real>)
    requires root < |x|
    ensures Total(Works(|x|, root, Initial(x))) == 2
  {
    var zeros: seq<nat> := seq(|x|, _ => 0);
    TotalBound(zeros, 0);
    TotalStep(zeros, root, 2);
    assert Works(|x|, root, Initial(x)) == zeros[root := 2];
  }

  lemma {:induction false} RunWork(root: nat, x: seq<real>, run: seq<State>, i: nat)
    requires IsRun(root, x, run) && i < |run|
    ensures WellShaped(|x|, run[i]) && Total(Works(|x|, root, run[i])) == i + 2
  {
    hide Works, Enabled, Apply;
    if i == 0 {
      InitialWork(root, x);
    } else {
      RunWork(root, x, run, i - 1);
      var s := run[i - 1];
      assert exists a :: Enabled(|x|, root, s, a) && run[i - 1 + 1] == Apply(|x|, root, s, a);
      var a :| Enabled(|x|, root, s, a) && run[i - 1 + 1] == Apply(|x|, root, s, a);
      ActionWork(root, x, s, a);
      TotalStep(Works(|x|, root, s), Worker(root, a), Works(|x|, root, s)[Worker(root, a)] + 1);
    }
  }

  ghost predicate AllDone(s: State) {
    forall r :: 0 <= r < |s.done| ==> s.done[r]
  }

  lemma {:induction false} AllDoneIff(root: nat, x: seq<real>, s: State)
    requires root < |x| && Inv(root, x, s)
    ensures AllDone(s) <==> forall r :: 0 <= r < |x| ==> Works(|x|, root, s)[r] == 3
  {
    hide Fold, Gathered, Sum;
    var w := |x|;
    if AllDone(s) {
      forall r | 0 <= r < w
        ensures Works(w, root, s)[r] == 3
      {
        var p := ParentOf(w, root, r);
        assert RankInv(root, x, s, r) && RankInv(root, x, s, p);
        if r != root {
          HeapInverse(w, root, p, r);
          assert r in ChildSet(w, root, p);
        }
      }
    } else {
      var r :| 0 <= r < w && !s.done[r];
      assert Works(w, root, s)[r] == Work(w, root, s, r) < 3;
    }
  }

  /** No run takes more than one merge and one report per tree edge and one finish per rank, and exactly the finished
      runs take that many: every maximal run has the same length. */
  lemma {:induction false} RunLength(root: nat, x: seq<real>, run: seq<State>)
    requires IsRun(root, x, run)
    ensures WellShaped(|x|, run[|run| - 1]) && |run| - 1 <= 3 * |x| - 2
    ensures AllDone(run[|run| - 1]) <==> |run| - 1 == 3 * |x| - 2
  {
    var i := |run| - 1;
    RunWork(root, x, run, i);
    RunKeepsInv(root, x, run, i);
    AllDoneIff(root, x, run[i]);
    TotalBound(Works(|x|, root, run[i]), 3);
    hide IsRun, Inv, Work;
  }
}
