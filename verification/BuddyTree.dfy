/**
 The value of the buddy allocator's tree, and what it says about free pages.

 A node is named by its order k and its position p among the nodes of that order: it stands for the pages
 [p * 2^k, (p + 1) * 2^k).  Pages are the nodes of order 0.
 */
module BuddyTree {
  import opened Powers

  function Max(a: nat, b: nat): nat { if a > b then a else b }

  /** Entirely free, entirely taken (entries below are stale), or divided. */
  datatype Buddy = Full | Used | Split(l: Buddy, r: Buddy)

  /** Well-formed at order k, and no divided node with both halves free. */
  predicate Norm(b: Buddy, k: nat)
    decreases b
  {
    b.Split? ==> k > 0 && Norm(b.l, k - 1) && Norm(b.r, k - 1) && !(b.l.Full? && b.r.Full?)
  }

  /** The byte stored for a node: one plus the order of the largest free block below, 0 if there is none. */
  function Val(b: Buddy, k: nat): (v: nat)
    requires Norm(b, k)
    ensures v <= k + 1 && (v == k + 1 <==> b.Full?)
    decreases b
  {
    match b
    case Full => k + 1
    case Used => 0
    case Split(l, r) => Max(Val(l, k - 1), Val(r, k - 1))
  }

  /** The node d orders above node q. */
  function Up(q: nat, d: nat): nat
    decreases d
  {
    if d == 0 then q else Up(q / 2, d - 1)
  }

  lemma {:induction false} UpStep(q: nat, d: nat)
    ensures Up(q, d + 1) == Up(q, d) / 2
    decreases d
  {
    if d > 0 {
      UpStep(q / 2, d - 1);
    }
  }

  lemma {:induction false} UpUp(q: nat, c: nat, d: nat)
    ensures Up(Up(q, c), d) == Up(q, c + d)
    decreases c
  {
    if c > 0 {
      UpUp(q / 2, c - 1, d);
    }
  }

  /** Climbing is division, so a node's pages are an aligned range. */
  lemma {:induction false} UpIsDivision(q: nat, d: nat)
    ensures Up(q, d) * Pow2(d) <= q < (Up(q, d) + 1) * Pow2(d)
    decreases d
  {
    if d > 0 {
      UpIsDivision(q / 2, d - 1);
      Doubled(Up(q, d), Pow2(d - 1), q);
    }
  }

  lemma Doubled(u: nat, s: nat, q: nat)
    requires u * s <= q / 2 < (u + 1) * s
    ensures u * (2 * s) <= q < (u + 1) * (2 * s)
  {
    assert u * (2 * s) == 2 * (u * s);
    assert (u + 1) * (2 * s) == 2 * ((u + 1) * s);
  }

  lemma UpUnique(q: nat, d: nat, p: nat)
    requires p * Pow2(d) <= q < (p + 1) * Pow2(d)
    ensures Up(q, d) == p
  {
    UpIsDivision(q, d);
    Apart(Up(q, d), p, Pow2(d));
    Apart(p, Up(q, d), Pow2(d));
  }

  lemma Apart(u: nat, p: nat, s: nat)
    ensures u < p ==> (u + 1) * s <= p * s
  {
    if u < p {
      assert (p - u - 1) * s >= 0;
    }
  }

  /** Node (j, q) lies below node (k, p), or is it. */
  predicate Below(j: nat, q: nat, k: nat, p: nat) {
    j <= k && Up(q, k - j) == p
  }

  /** Below a node is below its left half or below its right half. */
  lemma BelowHalves(j: nat, q: nat, k: nat, p: nat)
    requires j < k
    ensures Below(j, q, k, p) <==> Below(j, q, k - 1, 2 * p) || Below(j, q, k - 1, 2 * p + 1)
    ensures !(Below(j, q, k - 1, 2 * p) && Below(j, q, k - 1, 2 * p + 1))
  {
    UpStep(q, k - 1 - j);
  }

  lemma BelowTrans(i: nat, o: nat, j: nat, q: nat, k: nat, p: nat)
    requires Below(i, o, j, q) && Below(j, q, k, p)
    ensures Below(i, o, k, p)
  {
    UpUp(o, j - i, k - j);
  }

  // ----- free pages

  /** Page x, one of the pages of node (k, p), is free. */
  predicate FreeIn(b: Buddy, k: nat, p: nat, x: nat)
    requires Norm(b, k)
    decreases b
  {
    match b
    case Full => true
    case Used => false
    case Split(l, r) => if Below(0, x, k - 1, 2 * p) then FreeIn(l, k - 1, 2 * p, x) else FreeIn(r, k - 1, 2 * p + 1, x)
  }

  /** All pages of node (j, q) are free, where (j, q) lies below (k, p). */
  ghost predicate RunFree(b: Buddy, k: nat, p: nat, j: nat, q: nat)
    requires Norm(b, k)
  {
    forall x: nat :: Below(0, x, j, q) ==> FreeIn(b, k, p, x)
  }

  /** The first page of a node. */
  lemma {:induction false} FirstPage(j: nat, q: nat) returns (x: nat)
    ensures Below(0, x, j, q) && x == q * Pow2(j)
    decreases j
  {
    if j == 0 {
      x := q;
    } else {
      x := FirstPage(j - 1, 2 * q);
      BelowHalves(0, x, j, q);
      assert (2 * q) * Pow2(j - 1) == q * Pow2(j);
    }
  }

  /** A node is marked free exactly when all its pages are. */
  lemma {:induction false} WholeRun(b: Buddy, k: nat, p: nat)
    requires Norm(b, k)
    ensures RunFree(b, k, p, k, p) <==> b.Full?
    decreases b
  {
    match b
    case Full =>
    case Used =>
      var x := FirstPage(k, p);
      assert !FreeIn(b, k, p, x);
    case Split(l, r) =>
      WholeRun(l, k - 1, 2 * p);
      WholeRun(r, k - 1, 2 * p + 1);
      RunHalves(b, k, p);
      RunInHalf(b, k, p, k - 1, 2 * p);
      RunInHalf(b, k, p, k - 1, 2 * p + 1);
  }

  /** A node's pages include those of its halves. */
  lemma RunHalves(b: Buddy, k: nat, p: nat)
    requires Norm(b, k) && k > 0
    ensures RunFree(b, k, p, k, p) ==> RunFree(b, k, p, k - 1, 2 * p) && RunFree(b, k, p, k - 1, 2 * p + 1)
  {
    var h, l, r := k - 1, 2 * p, 2 * p + 1;
    forall x: nat
      ensures Below(0, x, h, l) || Below(0, x, h, r) ==> Below(0, x, k, p)
    {
      BelowHalves(0, x, k, p);
    }
  }

  /** A run below one half is free in the node exactly when it is free in the half. */
  lemma RunInHalf(b: Buddy, k: nat, p: nat, j: nat, q: nat)
    requires Norm(b, k) && b.Split? && j < k
    ensures Below(j, q, k - 1, 2 * p) ==> (RunFree(b, k, p, j, q) <==> RunFree(b.l, k - 1, 2 * p, j, q))
    ensures Below(j, q, k - 1, 2 * p + 1) ==> (RunFree(b, k, p, j, q) <==> RunFree(b.r, k - 1, 2 * p + 1, j, q))
  {
    forall x: nat | Below(0, x, j, q)
      ensures Below(j, q, k - 1, 2 * p) ==> FreeIn(b, k, p, x) == FreeIn(b.l, k - 1, 2 * p, x)
      ensures Below(j, q, k - 1, 2 * p + 1) ==> FreeIn(b, k, p, x) == FreeIn(b.r, k - 1, 2 * p + 1, x)
    {
      if Below(j, q, k - 1, 2 * p) {
        BelowTrans(0, x, j, q, k - 1, 2 * p);
      }
      if Below(j, q, k - 1, 2 * p + 1) {
        BelowTrans(0, x, j, q, k - 1, 2 * p + 1);
        BelowHalves(0, x, k, p);
      }
    }
  }

  /** The byte is no smaller than any free run below the node ... */
  lemma {:induction false} ValBoundsRuns(b: Buddy, k: nat, p: nat, j: nat, q: nat)
    requires Norm(b, k) && Below(j, q, k, p) && RunFree(b, k, p, j, q)
    ensures Val(b, k) >= j + 1
    decreases b
  {
    if j == k {
      WholeRun(b, k, p);
    } else {
      match b
      case Full =>
      case Used =>
        var x := FirstPage(j, q);
      case Split(l, r) =>
        BelowHalves(j, q, k, p);
        RunInHalf(b, k, p, j, q);
        if Below(j, q, k - 1, 2 * p) {
          ValBoundsRuns(l, k - 1, 2 * p, j, q);
        } else {
          ValBoundsRuns(r, k - 1, 2 * p + 1, j, q);
        }
    }
  }

  /** ... and every smaller order has a free run. */
  lemma {:induction false} ValHasRun(b: Buddy, k: nat, p: nat, j: nat) returns (q: nat)
    requires Norm(b, k) && Val(b, k) >= j + 1
    ensures Below(j, q, k, p) && RunFree(b, k, p, j, q)
    decreases b, k
  {
    match b
    case Full =>
      q := LeftMost(k, p, j);
    case Split(l, r) =>
      if Val(l, k - 1) >= j + 1 {
        q := ValHasRun(l, k - 1, 2 * p, j);
      } else {
        q := ValHasRun(r, k - 1, 2 * p + 1, j);
      }
      BelowHalves(j, q, k, p);
      RunInHalf(b, k, p, j, q);
  }

  lemma {:induction false} LeftMost(k: nat, p: nat, j: nat) returns (q: nat)
    requires j <= k
    ensures Below(j, q, k, p)
    decreases k
  {
    if j == k {
      q := p;
    } else {
      q := LeftMost(k - 1, 2 * p, j);
      BelowHalves(j, q, k, p);
    }
  }
}
