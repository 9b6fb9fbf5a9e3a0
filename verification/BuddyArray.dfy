/**
 The buddy tree in its flat array, and the tree seen from one of its nodes.
 */
module BuddyArray {
  import opened Powers
  import opened BuddyTree

  predicate InTree(top: nat, k: nat, p: nat) {
    k <= top && p < Pow2(top - k)
  }

  /** The array index of node (k, p) under a root of order `top`. */
  function Idx(top: nat, k: nat, p: nat): (i: nat)
    requires InTree(top, k, p)
  {
    Pow2(top - k) - 1 + p
  }

  function Lsub(x: nat): nat { (x + 1) * 2 - 1 }
  function Rsub(x: nat): nat { (x + 1) * 2 }
  function Prnt(x: nat): int { (x + 1) / 2 - 1 }

  /** The index arithmetic moves between a node, its halves and its parent. */
  lemma Moves(top: nat, k: nat, p: nat)
    requires InTree(top, k, p)
    ensures Idx(top, k, p) < 2 * Pow2(top) - 1
    ensures k > 0 ==>
              && InTree(top, k - 1, 2 * p) && InTree(top, k - 1, 2 * p + 1)
              && Lsub(Idx(top, k, p)) == Idx(top, k - 1, 2 * p) && Rsub(Idx(top, k, p)) == Idx(top, k - 1, 2 * p + 1)
    ensures k < top ==> InTree(top, k + 1, p / 2) && Prnt(Idx(top, k, p)) == Idx(top, k + 1, p / 2)
    ensures Idx(top, k, p) == 0 <==> k == top
  {
    Pow2Mono(top - k, top);
    if k < top {
      Pow2Mono(0, top - k - 1);
    }
  }

  lemma IdxInjective(top: nat, k: nat, p: nat, j: nat, q: nat)
    requires InTree(top, k, p) && InTree(top, j, q) && (k, p) != (j, q)
    ensures Idx(top, k, p) != Idx(top, j, q)
  {
    if k < j {
      Pow2Mono(top - j + 1, top - k);
    } else if j < k {
      Pow2Mono(top - k + 1, top - j);
    }
  }

  // ----- the array holds a tree

  ghost predicate Rep(a: seq<nat>, top: nat, k: nat, p: nat, b: Buddy)
    decreases b
  {
    && |a| == 2 * Pow2(top) - 1 && InTree(top, k, p) && Norm(b, k)
    && Idx(top, k, p) < |a| && a[Idx(top, k, p)] == Val(b, k)
    && (b.Split? ==> Rep(a, top, k - 1, 2 * p, b.l) && Rep(a, top, k - 1, 2 * p + 1, b.r))
  }

  lemma {:induction false} RepFrame(a: seq<nat>, top: nat, k: nat, p: nat, b: Buddy, j: nat, q: nat, v: nat)
    requires Rep(a, top, k, p, b) && InTree(top, j, q) && !Below(j, q, k, p)
    ensures Idx(top, j, q) < |a| && Rep(a[Idx(top, j, q) := v], top, k, p, b)
    decreases b
  {
    Moves(top, j, q);
    IdxInjective(top, k, p, j, q);
    if b.Split? {
      assert !Below(j, q, k - 1, 2 * p) && !Below(j, q, k - 1, 2 * p + 1) by {
        if j < k {
          BelowHalves(j, q, k, p);
        }
      }
      RepFrame(a, top, k - 1, 2 * p, b.l, j, q, v);
      RepFrame(a, top, k - 1, 2 * p + 1, b.r, j, q, v);
    }
  }

  /** The taken nodes of a tree. */
  ghost function Useds(b: Buddy, k: nat, p: nat): set<(nat, nat)>
    requires Norm(b, k)
    decreases b
  {
    match b
    case Full => {}
    case Used => {(k, p)}
    case Split(l, r) => Useds(l, k - 1, 2 * p) + Useds(r, k - 1, 2 * p + 1)
  }

  // ----- the tree seen from a node

  /** What hangs off the path from a node to the root: a sibling on the right (we are left) or on the left. */
  datatype Path = Top | OnLeft(up: Path, sib: Buddy) | OnRight(up: Path, sib: Buddy)

  /** The siblings along a path are held by the array; nothing is said about the nodes on the path. */
  ghost predicate RepPath(a: seq<nat>, top: nat, k: nat, p: nat, c: Path)
    decreases c
  {
    && |a| == 2 * Pow2(top) - 1 && InTree(top, k, p)
    && match c
       case Top => k == top
       case OnLeft(up, sib) => k < top && p % 2 == 0 && Rep(a, top, k, p + 1, sib) && RepPath(a, top, k + 1, p / 2, up)
       case OnRight(up, sib) => k < top && p % 2 == 1 && Rep(a, top, k, p - 1, sib) && RepPath(a, top, k + 1, p / 2, up)
  }

  ghost predicate NormPath(c: Path, k: nat)
    decreases c
  {
    c.Top? || (Norm(c.sib, k) && NormPath(c.up, k + 1))
  }

  ghost function Other(c: Path, p: nat): nat
    requires !c.Top? && (c.OnRight? ==> p > 0)
  {
    if c.OnLeft? then p + 1 else p - 1
  }

  /** Writing at a node, above it or below it leaves the path alone. */
  lemma {:induction false} PathFrame(a: seq<nat>, top: nat, k: nat, p: nat, c: Path, j: nat, q: nat, v: nat)
    requires RepPath(a, top, k, p, c) && InTree(top, j, q) && (Below(j, q, k, p) || Below(k, p, j, q))
    ensures Idx(top, j, q) < |a| && RepPath(a[Idx(top, j, q) := v], top, k, p, c)
    decreases c
  {
    Moves(top, j, q);
    if !c.Top? {
      var o := Other(c, p);
      RepFrame(a, top, k, o, c.sib, j, q, v);
      ParentBelow(j, q, k, p);
      PathFrame(a, top, k + 1, p / 2, c.up, j, q, v);
      hide Rep, Pow2, Up;
    }
  }

  lemma ParentBelow(j: nat, q: nat, k: nat, p: nat)
    requires Below(j, q, k, p) || Below(k, p, j, q)
    ensures Below(j, q, k + 1, p / 2) || Below(k + 1, p / 2, j, q)
  {
    if Below(j, q, k, p) {
      UpStep(q, k - j);
    } else {
      assert j > k && Up(p / 2, j - k - 1) == q;
    }
  }

  /** What a path that is not at the root consists of. */
  lemma PathParts(a: seq<nat>, top: nat, k: nat, p: nat, c: Path)
    requires RepPath(a, top, k, p, c)
    ensures |a| == 2 * Pow2(top) - 1 && InTree(top, k, p)
    ensures !c.Top? ==>
              && k < top && p % 2 == (if c.OnLeft? then 0 else 1)
              && Rep(a, top, k, Other(c, p), c.sib) && RepPath(a, top, k + 1, p / 2, c.up)
  {
  }

  lemma Halves(p: nat)
    ensures 2 * p / 2 == p && 2 * p % 2 == 0
  {
  }

  lemma PathDown(a: seq<nat>, top: nat, k: nat, p: nat, c: Path, sib: Buddy)
    requires k > 0 && RepPath(a, top, k, p, c) && InTree(top, k - 1, 2 * p) && Rep(a, top, k - 1, 2 * p + 1, sib)
    ensures RepPath(a, top, k - 1, 2 * p, OnLeft(c, sib))
  {
    hide Rep, Pow2;
    Halves(p);
  }

  ghost predicate PathFree(c: Path, k: nat, p: nat, x: nat)
    requires NormPath(c, k)
    decreases c
  {
    !c.Top? && (c.OnRight? ==> p > 0) &&
    if Below(0, x, k, Other(c, p)) then FreeIn(c.sib, k, Other(c, p), x) else PathFree(c.up, k + 1, p / 2, x)
  }

  ghost function PathUseds(c: Path, k: nat, p: nat): set<(nat, nat)>
    requires NormPath(c, k)
    decreases c
  {
    if c.Top? || (c.OnRight? && p == 0) then {}
    else Useds(c.sib, k, Other(c, p)) + PathUseds(c.up, k + 1, p / 2)
  }

  ghost predicate FreeSeen(c: Path, b: Buddy, k: nat, p: nat, x: nat)
    requires NormPath(c, k) && Norm(b, k)
  {
    if Below(0, x, k, p) then FreeIn(b, k, p, x) else PathFree(c, k, p, x)
  }

  ghost function UsedsSeen(c: Path, b: Buddy, k: nat, p: nat): set<(nat, nat)>
    requires NormPath(c, k) && Norm(b, k)
  {
    Useds(b, k, p) + PathUseds(c, k, p)
  }

  lemma {:induction false} RepPathNorm(a: seq<nat>, top: nat, k: nat, p: nat, c: Path)
    requires RepPath(a, top, k, p, c)
    ensures NormPath(c, k)
    decreases c
  {
    if !c.Top? {
      RepPathNorm(a, top, k + 1, p / 2, c.up);
    }
  }

  /** The array holds, seen from node (k, p), the tree whose free pages are F. */
  ghost predicate Seen(a: seq<nat>, top: nat, k: nat, p: nat, c: Path, b: Buddy, F: set<nat>) {
    && Rep(a, top, k, p, b) && RepPath(a, top, k, p, c) && NormPath(c, k)
    && forall x: nat :: x < Pow2(top) ==> (FreeSeen(c, b, k, p, x) <==> x in F)
  }

  /** Two halves put together. */
  function Join(l: Buddy, r: Buddy): (b: Buddy) {
    if l.Full? && r.Full? then Full else Split(l, r)
  }

  function Joined(c: Path, b: Buddy): Buddy
    requires !c.Top?
  {
    if c.OnLeft? then Join(b, c.sib) else Join(c.sib, b)
  }

  /** Moving up to the parent loses nothing. */
  lemma SeenUp(c: Path, b: Buddy, k: nat, p: nat, x: nat)
    requires NormPath(c, k) && Norm(b, k) && !c.Top? && p % 2 == (if c.OnLeft? then 0 else 1)
    ensures Norm(Joined(c, b), k + 1)
    ensures FreeSeen(c.up, Joined(c, b), k + 1, p / 2, x) <==> FreeSeen(c, b, k, p, x)
    ensures UsedsSeen(c.up, Joined(c, b), k + 1, p / 2) == UsedsSeen(c, b, k, p)
  {
    BelowHalves(0, x, k + 1, p / 2);
  }

  ghost function Interval(lo: nat, hi: nat): (r: set<nat>)
    ensures forall x :: x in r <==> lo <= x < hi
    decreases hi - lo
  {
    if lo >= hi then {} else {lo} + Interval(lo + 1, hi)
  }

  /** The pages of node (k, p). */
  ghost function NodePages(k: nat, p: nat): set<nat> {
    Interval(p * Pow2(k), (p + 1) * Pow2(k))
  }

  lemma InNodePages(k: nat, p: nat, x: nat)
    ensures x in NodePages(k, p) <==> Below(0, x, k, p)
  {
    UpIsDivision(x, k);
    if x in NodePages(k, p) {
      UpUnique(x, k, p);
    }
  }

  /** Stepping down into a divided node. */
  lemma StepDown(a: seq<nat>, top: nat, k: nat, p: nat, c: Path, b: Buddy, F: set<nat>)
    requires Seen(a, top, k, p, c, b, F) && b.Split?
    ensures Seen(a, top, k - 1, 2 * p, OnLeft(c, b.r), b.l, F)
    ensures Seen(a, top, k - 1, 2 * p + 1, OnRight(c, b.l), b.r, F)
    ensures UsedsSeen(OnLeft(c, b.r), b.l, k - 1, 2 * p) == UsedsSeen(c, b, k, p)
    ensures UsedsSeen(OnRight(c, b.l), b.r, k - 1, 2 * p + 1) == UsedsSeen(c, b, k, p)
  {
    Moves(top, k, p);
    forall x: nat | x < Pow2(top)
      ensures FreeSeen(OnLeft(c, b.r), b.l, k - 1, 2 * p, x) <==> x in F
      ensures FreeSeen(OnRight(c, b.l), b.r, k - 1, 2 * p + 1, x) <==> x in F
    {
      assert FreeSeen(c, b, k, p, x) <==> x in F;
      BelowHalves(0, x, k, p);
    }
  }

  /** Dividing a free node: both halves become free nodes. */
  lemma DivideFull(a: seq<nat>, top: nat, k: nat, p: nat, c: Path, F: set<nat>)
    requires Seen(a, top, k, p, c, Full, F) && k > 0
    ensures InTree(top, k - 1, 2 * p) && InTree(top, k - 1, 2 * p + 1)
    ensures Idx(top, k - 1, 2 * p) < |a| && Idx(top, k - 1, 2 * p + 1) < |a|
    ensures var a' := a[Idx(top, k - 1, 2 * p) := k][Idx(top, k - 1, 2 * p + 1) := k];
            Seen(a', top, k - 1, 2 * p, OnLeft(c, Full), Full, F)
    ensures UsedsSeen(OnLeft(c, Full), Full, k - 1, 2 * p) == UsedsSeen(c, Full, k, p)
  {
    DivideRep(a, top, k, p, c);
    forall x: nat | x < Pow2(top)
      ensures FreeSeen(OnLeft(c, Full), Full, k - 1, 2 * p, x) <==> x in F
    {
      assert FreeSeen(c, Full, k, p, x) <==> x in F;
      BelowHalves(0, x, k, p);
    }
  }

  lemma DividePlaces(a: seq<nat>, top: nat, k: nat, p: nat, c: Path)
    requires k > 0 && RepPath(a, top, k, p, c)
    ensures |a| == 2 * Pow2(top) - 1 && InTree(top, k - 1, 2 * p) && InTree(top, k - 1, 2 * p + 1)
    ensures Idx(top, k - 1, 2 * p) < |a| && Idx(top, k - 1, 2 * p + 1) < |a|
    ensures Idx(top, k - 1, 2 * p) != Idx(top, k - 1, 2 * p + 1)
    ensures Below(k - 1, 2 * p, k, p) && Below(k - 1, 2 * p + 1, k, p)
  {
    hide Rep, RepPath, Pow2, Up, Idx;
    PathParts(a, top, k, p, c);
    Moves(top, k, p);
    Moves(top, k - 1, 2 * p);
    Moves(top, k - 1, 2 * p + 1);
    BelowSelf(k - 1, 2 * p);
    BelowSelf(k - 1, 2 * p + 1);
    BelowHalves(k - 1, 2 * p, k, p);
    BelowHalves(k - 1, 2 * p + 1, k, p);
    IdxInjective(top, k - 1, 2 * p, k - 1, 2 * p + 1);
  }

  lemma DivideRep(a: seq<nat>, top: nat, k: nat, p: nat, c: Path)
    requires k > 0 && RepPath(a, top, k, p, c)
    ensures InTree(top, k - 1, 2 * p) && InTree(top, k - 1, 2 * p + 1)
    ensures Idx(top, k - 1, 2 * p) < |a| && Idx(top, k - 1, 2 * p + 1) < |a|
    ensures var a' := a[Idx(top, k - 1, 2 * p) := k][Idx(top, k - 1, 2 * p + 1) := k];
            Rep(a', top, k - 1, 2 * p, Full) && RepPath(a', top, k - 1, 2 * p, OnLeft(c, Full))
  {
    hide Rep, RepPath, Pow2, Up, Idx, InTree, Below;
    DividePlaces(a, top, k, p, c);
    var i, j := Idx(top, k - 1, 2 * p), Idx(top, k - 1, 2 * p + 1);
    PathFrame(a, top, k, p, c, k - 1, 2 * p, k);
    PathFrame(a[i := k], top, k, p, c, k - 1, 2 * p + 1, k);
    var a' := a[i := k][j := k];
    LeafNorm(Full, k - 1);
    LeafRep(a', top, k - 1, 2 * p, Full);
    LeafRep(a', top, k - 1, 2 * p + 1, Full);
    PathDown(a', top, k, p, c, Full);
  }

  lemma NotBelowHalves(k: nat, h: nat)
    ensures !Below(k + 1, h, k, 2 * h) && !Below(k + 1, h, k, 2 * h + 1)
  {
  }

  lemma BelowSelf(k: nat, p: nat)
    ensures Below(k, p, k, p)
  {
  }

  /** Overwriting a node, from free to taken or from taken to free. */
  lemma Overwrite(a: seq<nat>, top: nat, k: nat, p: nat, c: Path, b: Buddy, b': Buddy, F: set<nat>)
    requires Seen(a, top, k, p, c, b, F) && !b'.Split?
    ensures Idx(top, k, p) < |a|
    ensures Seen(a[Idx(top, k, p) := Val(b', k)], top, k, p, c, b',
                 if b'.Full? then F + (NodePages(k, p) * Interval(0, Pow2(top))) else F - NodePages(k, p))
    ensures UsedsSeen(c, b', k, p) == Useds(b', k, p) + PathUseds(c, k, p)
  {
    OverwriteRep(a, top, k, p, c, b');
    hide Rep, RepPath, Idx, Pow2, NodePages, Up, Useds, PathUseds;
    forall x: nat | x < Pow2(top)
      ensures FreeSeen(c, b', k, p, x) <==>
              x in (if b'.Full? then F + (NodePages(k, p) * Interval(0, Pow2(top))) else F - NodePages(k, p))
    {
      assert FreeSeen(c, b, k, p, x) <==> x in F;
      InNodePages(k, p, x);
    }
  }

  lemma OverwriteRep(a: seq<nat>, top: nat, k: nat, p: nat, c: Path, b': Buddy)
    requires RepPath(a, top, k, p, c) && !b'.Split?
    ensures Norm(b', k) && InTree(top, k, p) && Idx(top, k, p) < |a|
    ensures var a' := a[Idx(top, k, p) := Val(b', k)]; Rep(a', top, k, p, b') && RepPath(a', top, k, p, c)
  {
    hide *;
    RepPathIn(a, top, k, p, c);
    LeafNorm(b', k);
    PathFrame(a, top, k, p, c, k, p, Val(b', k));
    LeafRep(a[Idx(top, k, p) := Val(b', k)], top, k, p, b');
  }

  lemma LeafNorm(b: Buddy, k: nat)
    requires !b.Split?
    ensures Norm(b, k) && (b.Full? ==> Val(b, k) == k + 1) && (b.Used? ==> Val(b, k) == 0)
  {
  }

  lemma LeafRep(a: seq<nat>, top: nat, k: nat, p: nat, b: Buddy)
    requires |a| == 2 * Pow2(top) - 1 && InTree(top, k, p) && Idx(top, k, p) < |a| && !b.Split?
    requires Norm(b, k) && a[Idx(top, k, p)] == Val(b, k)
    ensures Rep(a, top, k, p, b)
  {
  }

  /** Recomputing the parent of a node. */
  lemma StepUp(a: seq<nat>, top: nat, k: nat, p: nat, c: Path, b: Buddy, F: set<nat>)
    requires Seen(a, top, k, p, c, b, F) && !c.Top?
    ensures k < top && InTree(top, k + 1, p / 2) && Idx(top, k + 1, p / 2) < |a|
    ensures Norm(Joined(c, b), k + 1)
    ensures Seen(a[Idx(top, k + 1, p / 2) := Val(Joined(c, b), k + 1)], top, k + 1, p / 2, c.up, Joined(c, b), F)
    ensures UsedsSeen(c.up, Joined(c, b), k + 1, p / 2) == UsedsSeen(c, b, k, p)
  {
    SeenUp(c, b, k, p, 0);
    StepUpRep(a, top, k, p, c, b);
    hide Rep, RepPath, Idx, Pow2, Useds, PathUseds, FreeIn, PathFree, Up;
    forall x: nat | x < Pow2(top)
      ensures FreeSeen(c.up, Joined(c, b), k + 1, p / 2, x) <==> x in F
    {
      assert FreeSeen(c, b, k, p, x) <==> x in F;
      SeenUp(c, b, k, p, x);
    }
  }

  lemma StepUpRep(a: seq<nat>, top: nat, k: nat, p: nat, c: Path, b: Buddy)
    requires Rep(a, top, k, p, b) && RepPath(a, top, k, p, c) && !c.Top? && Norm(Joined(c, b), k + 1)
    ensures k < top && InTree(top, k + 1, p / 2) && Idx(top, k + 1, p / 2) < |a|
    ensures var a' := a[Idx(top, k + 1, p / 2) := Val(Joined(c, b), k + 1)];
            Rep(a', top, k + 1, p / 2, Joined(c, b)) && RepPath(a', top, k + 1, p / 2, c.up)
  {
    hide *;
    PathParts(a, top, k, p, c);
    JoinedIs(c, b, p);
    if c.OnLeft? {
      StepUpAt(a, top, k, p / 2, b, c.sib, c.up);
    } else {
      StepUpAt(a, top, k, p / 2, c.sib, b, c.up);
    }
  }

  lemma JoinedIs(c: Path, b: Buddy, p: nat)
    requires !c.Top? && p % 2 == (if c.OnLeft? then 0 else 1)
    ensures c.OnLeft? ==> Joined(c, b) == Join(b, c.sib) && p == 2 * (p / 2) && Other(c, p) == 2 * (p / 2) + 1
    ensures c.OnRight? ==> Joined(c, b) == Join(c.sib, b) && p == 2 * (p / 2) + 1 && Other(c, p) == 2 * (p / 2)
  {
  }

  lemma StepUpAt(a: seq<nat>, top: nat, k: nat, h: nat, l: Buddy, r: Buddy, up: Path)
    requires k < top && Rep(a, top, k, 2 * h, l) && Rep(a, top, k, 2 * h + 1, r) && RepPath(a, top, k + 1, h, up)
    requires Norm(Join(l, r), k + 1)
    ensures InTree(top, k + 1, h) && Idx(top, k + 1, h) < |a|
    ensures var a' := a[Idx(top, k + 1, h) := Val(Join(l, r), k + 1)];
            Rep(a', top, k + 1, h, Join(l, r)) && RepPath(a', top, k + 1, h, up)
  {
    hide *;
    RepPathIn(a, top, k + 1, h, up);
    NotBelowHalves(k, h);
    var v := Val(Join(l, r), k + 1);
    PathFrame(a, top, k + 1, h, up, k + 1, h, v);
    RepFrame(a, top, k, 2 * h, l, k + 1, h, v);
    RepFrame(a, top, k, 2 * h + 1, r, k + 1, h, v);
    RepParent(a[Idx(top, k + 1, h) := v], top, k, h, l, r);
  }

  lemma RepPathIn(a: seq<nat>, top: nat, k: nat, p: nat, c: Path)
    requires RepPath(a, top, k, p, c)
    ensures |a| == 2 * Pow2(top) - 1 && InTree(top, k, p) && Idx(top, k, p) < |a| && Below(k, p, k, p)
  {
    Moves(top, k, p);
  }

  lemma RepParent(a: seq<nat>, top: nat, k: nat, h: nat, l: Buddy, r: Buddy)
    requires Rep(a, top, k, 2 * h, l) && Rep(a, top, k, 2 * h + 1, r) && k < top
    requires InTree(top, k + 1, h) && Idx(top, k + 1, h) < |a|
    requires Norm(Join(l, r), k + 1) && a[Idx(top, k + 1, h)] == Val(Join(l, r), k + 1)
    ensures Rep(a, top, k + 1, h, Join(l, r))
  {
  }

  /** The bytes of a node and its sibling, as the climb reads them. */
  lemma ReadHalves(a: seq<nat>, top: nat, k: nat, p: nat, c: Path, b: Buddy, F: set<nat>)
    requires Seen(a, top, k, p, c, b, F) && !c.Top?
    ensures k < top && InTree(top, k + 1, p / 2) && Rsub(Idx(top, k + 1, p / 2)) < |a|
    ensures Norm(Joined(c, b), k + 1)
    ensures var i := Idx(top, k + 1, p / 2);
            && (a[Lsub(i)] == a[Rsub(i)] == k + 1 <==> Joined(c, b).Full?)
            && (Joined(c, b).Full? ==> Val(Joined(c, b), k + 1) == a[Lsub(i)] + 1)
            && (!Joined(c, b).Full? ==> Val(Joined(c, b), k + 1) == Max(a[Lsub(i)], a[Rsub(i)]))
  {
    hide Pow2, FreeSeen, Idx, Lsub, Rsub;
    Moves(top, k, p);
    Moves(top, k + 1, p / 2);
    SeenUp(c, b, k, p, 0);
  }

  // ----- finding a node's path

  /** Node (j, q) is reached from (k, p) through divided nodes. */
  ghost predicate Reaches(b: Buddy, k: nat, p: nat, j: nat, q: nat)
    requires Norm(b, k)
    decreases b
  {
    if j == k then p == q
    else b.Split? && if Below(j, q, k - 1, 2 * p) then Reaches(b.l, k - 1, 2 * p, j, q)
      else Reaches(b.r, k - 1, 2 * p + 1, j, q)
  }

  lemma {:induction false} FindPath(a: seq<nat>, top: nat, k: nat, p: nat, c: Path, b: Buddy, F: set<nat>, j: nat,
                                    q: nat)
    returns (c': Path, b': Buddy)
    requires Seen(a, top, k, p, c, b, F) && Reaches(b, k, p, j, q)
    ensures Seen(a, top, j, q, c', b', F) && UsedsSeen(c', b', j, q) == UsedsSeen(c, b, k, p)
    ensures Subtree(b, k, p, j, q) == b'
    decreases b
  {
    if j == k {
      c', b' := c, b;
    } else {
      StepDown(a, top, k, p, c, b, F);
      if Below(j, q, k - 1, 2 * p) {
        c', b' := FindPath(a, top, k - 1, 2 * p, OnLeft(c, b.r), b.l, F, j, q);
      } else {
        c', b' := FindPath(a, top, k - 1, 2 * p + 1, OnRight(c, b.l), b.r, F, j, q);
      }
    }
  }

  ghost function Subtree(b: Buddy, k: nat, p: nat, j: nat, q: nat): Buddy
    requires Norm(b, k) && Reaches(b, k, p, j, q)
    decreases b
  {
    if j == k then b
    else if Below(j, q, k - 1, 2 * p) then Subtree(b.l, k - 1, 2 * p, j, q) else Subtree(b.r, k - 1, 2 * p + 1, j, q)
  }

  /** Taken nodes are reached. */
  lemma {:induction false} UsedReached(b: Buddy, k: nat, p: nat, j: nat, q: nat)
    requires Norm(b, k) && (j, q) in Useds(b, k, p)
    ensures Below(j, q, k, p) && Reaches(b, k, p, j, q) && Subtree(b, k, p, j, q) == Used
    decreases b
  {
    match b
    case Used =>
    case Split(l, r) =>
      if (j, q) in Useds(l, k - 1, 2 * p) {
        UsedReached(l, k - 1, 2 * p, j, q);
      } else {
        UsedReached(r, k - 1, 2 * p + 1, j, q);
      }
      BelowHalves(j, q, k, p);
  }

  /** Where only single pages are taken, a node below holding a page that is not free is reached. */
  lemma {:induction false} TakenReached(b: Buddy, k: nat, p: nat, j: nat, q: nat, x: nat)
    requires Norm(b, k) && Below(j, q, k, p) && Below(0, x, j, q) && !FreeIn(b, k, p, x)
    requires forall u :: u in Useds(b, k, p) ==> u.0 == 0
    ensures Reaches(b, k, p, j, q)
    decreases b
  {
    if j < k {
      if b.Used? {
        assert (k, p) in Useds(b, k, p);
      }
      BelowTrans(0, x, j, q, k, p);
      BelowHalves(j, q, k, p);
      BelowHalves(0, x, k, p);
      if Below(j, q, k - 1, 2 * p) {
        BelowTrans(0, x, j, q, k - 1, 2 * p);
        TakenReached(b.l, k - 1, 2 * p, j, q, x);
      } else {
        BelowTrans(0, x, j, q, k - 1, 2 * p + 1);
        TakenReached(b.r, k - 1, 2 * p + 1, j, q, x);
      }
    }
  }
}
