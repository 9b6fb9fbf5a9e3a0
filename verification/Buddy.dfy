/**
 The page-frame allocator: a buddy tree kept in an array of bytes.
 */
module Buddy {
  import opened Basics
  import opened Powers
  import opened BuddyTree
  import opened BuddyArray

  /** The rounded-up binary logarithm, as the kernel's loop computes it. */
  method Log2Up(n: nat) returns (r: nat)
    ensures n <= Pow2(r) && (r > 0 ==> Pow2(r - 1) < n)
  {
    var a, i, odd := n, 0, false;
    while a > 1
      invariant a * Pow2(i) <= n < a * Pow2(i) + Pow2(i)
      invariant odd <==> n != a * Pow2(i)
      invariant i > 0 ==> a > 0
    {
      Halve(a, i);
      odd := odd || a % 2 == 1;
      a, i := a / 2, i + 1;
    }
    r := if odd then i + 1 else i;
    if a == 1 {
      assert 1 * Pow2(i) == Pow2(i);
    }
  }

  lemma Halve(a: nat, i: nat)
    ensures a * Pow2(i) == (a / 2) * Pow2(i + 1) + (a % 2) * Pow2(i)
  {
    var h := a / 2;
    assert h * Pow2(i + 1) == (2 * h) * Pow2(i);
    assert (2 * h + a % 2) * Pow2(i) == (2 * h) * Pow2(i) + (a % 2) * Pow2(i);
  }

  /** A block of 2^order pages, the index-th of that size. */
  datatype Block = Block(order: nat, index: nat) {
    ghost function Pages(): set<nat> { NodePages(order, index) }
  }

  ghost function LivePages(live: set<Block>): set<nat> {
    set b, x | b in live && x in b.Pages() :: x
  }

  /** The free pages hold an aligned run of 2^j pages. */
  ghost predicate HasRun(F: set<nat>, j: nat) {
    exists q: nat :: NodePages(j, q) <= F
  }

  /** The order a request of n pages is rounded up to. */
  ghost predicate IsOrder(n: nat, r: nat) {
    n <= Pow2(r) && (r > 0 ==> Pow2(r - 1) < n)
  }

  // ----- which free block is taken

  /** Of two halves x has room for a block of order j, and no more to spare than the other if that has room as well. */
  ghost predicate Closer(x: Buddy, y: Buddy, k: nat, j: nat)
    requires Norm(x, k) && Norm(y, k)
  {
    Val(x, k) > j && (Val(y, k) <= j || Val(x, k) <= Val(y, k))
  }

  /** On the way from a node down to block q of order j a free node is divided, and otherwise the closer half taken. */
  ghost predicate Snug(b: Buddy, k: nat, p: nat, j: nat, q: nat)
    requires Norm(b, k) && j <= k
    decreases k
  {
    if k == j then b.Full? && q == p
    else match b
      case Full => Snug(Full, k - 1, 2 * p, j, q)
      case Used => false
      case Split(l, r) =>
        || (Closer(l, r, k - 1, j) && Snug(l, k - 1, 2 * p, j, q))
        || (Closer(r, l, k - 1, j) && Snug(r, k - 1, 2 * p + 1, j, q))
  }

  ghost predicate Left(b: Buddy, k: nat, j: nat)
    requires b.Split? && Norm(b, k)
  {
    var l, r := Val(b.l, k - 1), Val(b.r, k - 1);
    if l > j && r > j then l < r else l > r
  }

  ghost function Choice(b: Buddy, k: nat, p: nat, j: nat): nat
    requires Norm(b, k) && j <= k
    decreases k
  {
    if k == j || b.Used? then p
    else if b.Full? then Choice(Full, k - 1, 2 * p, j)
    else if Left(b, k, j) then Choice(b.l, k - 1, 2 * p, j)
    else Choice(b.r, k - 1, 2 * p + 1, j)
  }

  lemma ChoiceStep(b: Buddy, k: nat, p: nat, j: nat)
    requires Norm(b, k) && j <= k
    ensures k == j ==> Choice(b, k, p, j) == p
    ensures k > j && b.Full? ==> Norm(Full, k - 1) && Choice(b, k, p, j) == Choice(Full, k - 1, 2 * p, j)
    ensures k > j && b.Split? ==>
              && Norm(b.l, k - 1) && Norm(b.r, k - 1)
              && var l, r := Val(b.l, k - 1), Val(b.r, k - 1);
                 Choice(b, k, p, j) ==
                 if if (if l < r then l else r) > j then l < r else l > r then Choice(b.l, k - 1, 2 * p, j)
                 else Choice(b.r, k - 1, 2 * p + 1, j)
  {
  }

  lemma {:induction false} ChoiceSnug(b: Buddy, k: nat, p: nat, j: nat)
    requires Norm(b, k) && j <= k && Val(b, k) > j
    ensures Snug(b, k, p, j, Choice(b, k, p, j))
    decreases k
  {
    if k > j {
      match b
      case Full => ChoiceSnug(Full, k - 1, 2 * p, j);
      case Split(l, r) =>
        if Left(b, k, j) {
          ChoiceSnug(l, k - 1, 2 * p, j);
        } else {
          ChoiceSnug(r, k - 1, 2 * p + 1, j);
        }
    }
  }

  lemma NodeInside(top: nat, j: nat, q: nat, x: nat)
    requires Below(0, x, j, q) && x < Pow2(top) && j <= top
    ensures Below(j, q, top, 0) && InTree(top, j, q)
  {
    UpUnique(x, top, 0);
    UpUp(x, j, top - j);
    UpIsDivision(q, top - j);
  }

  /** A run is free in the tree exactly when its pages are among the free ones. */
  lemma RunIsPages(a: seq<nat>, top: nat, t: Buddy, F: set<nat>, j: nat, q: nat)
    requires Seen(a, top, top, 0, Top, t, F) && Below(j, q, top, 0)
    ensures RunFree(t, top, 0, j, q) ==> NodePages(j, q) <= F
    ensures NodePages(j, q) <= F ==> RunFree(t, top, 0, j, q)
  {
    forall x: nat | Below(0, x, j, q)
      ensures x in NodePages(j, q) && x < Pow2(top) && (FreeIn(t, top, 0, x) <==> x in F)
    {
      InNodePages(j, q, x);
      BelowTrans(0, x, j, q, top, 0);
      UpIsDivision(x, top);
      assert FreeSeen(Top, t, top, 0, x) <==> x in F;
    }
    forall x | x in NodePages(j, q)
      ensures Below(0, x, j, q)
    {
      InNodePages(j, q, x);
    }
  }

  /** The root byte exceeds j exactly when an aligned run of 2^j pages is free. */
  lemma RootByte(a: seq<nat>, top: nat, t: Buddy, F: set<nat>, avail: nat, j: nat)
    requires Seen(a, top, top, 0, Top, t, F) && t.Split? && F <= Interval(0, avail) && avail < Pow2(top)
    ensures Idx(top, top, 0) == 0 && |a| > 0 && a[0] <= top
    ensures a[0] >= j + 1 <==> HasRun(F, j)
  {
    if a[0] >= j + 1 {
      var q := ValHasRun(t, top, 0, j);
      RunIsPages(a, top, t, F, j, q);
    }
    if HasRun(F, j) {
      var q: nat :| NodePages(j, q) <= F;
      var x := FirstPage(j, q);
      InNodePages(j, q, x);
      assert x in F;
      if j <= top {
        NodeInside(top, j, q, x);
        RunIsPages(a, top, t, F, j, q);
        ValBoundsRuns(t, top, 0, j, q);
      } else {
        TooLarge(top, j, q, F, avail);
      }
    }
  }

  /** No run of the root's size or more is ever free. */
  lemma TooLarge(top: nat, j: nat, q: nat, F: set<nat>, avail: nat)
    requires top <= j && F <= Interval(0, avail) && avail < Pow2(top)
    ensures !(NodePages(j, q) <= F)
  {
    Pow2Mono(top, j);
    assert q * Pow2(j) + Pow2(j) == (q + 1) * Pow2(j);
    var y := (q + 1) * Pow2(j) - 1;
    assert y >= Pow2(j) - 1;
    assert y in NodePages(j, q) && y !in F;
  }

  // ----- the tree nothing has been freed into yet

  function Zero(k: nat): Buddy {
    if k == 0 then Used else Split(Zero(k - 1), Zero(k - 1))
  }

  lemma {:induction false} ZeroTree(k: nat, p: nat)
    ensures Norm(Zero(k), k) && Val(Zero(k), k) == 0
    ensures forall u :: u in Useds(Zero(k), k, p) ==> u.0 == 0
    ensures forall x: nat :: !FreeIn(Zero(k), k, p, x)
    decreases k
  {
    if k > 0 {
      ZeroTree(k - 1, 2 * p);
      ZeroTree(k - 1, 2 * p + 1);
    }
  }

  lemma {:induction false} ZeroRep(a: seq<nat>, top: nat, k: nat, p: nat)
    requires |a| == 2 * Pow2(top) - 1 && InTree(top, k, p) && forall i :: 0 <= i < |a| ==> a[i] == 0
    ensures Rep(a, top, k, p, Zero(k))
    decreases k
  {
    Moves(top, k, p);
    ZeroTree(k, p);
    if k > 0 {
      ZeroRep(a, top, k - 1, 2 * p);
      ZeroRep(a, top, k - 1, 2 * p + 1);
    }
  }

  /** The pages still accounted for: the free ones and the live blocks share out the managed pages. */
  ghost predicate Accounted(free: set<nat>, live: set<Block>, avail: nat) {
    && free !! LivePages(live) && free + LivePages(live) == Interval(0, avail)
    && forall b, b' :: b in live && b' in live && b != b' ==> b.Pages() !! b'.Pages()
  }

  class PageMgr {
    const start: nat
    const end: nat
    const rootOrder: nat
    const nodes: array<nat>
    /** Every assertion met so far has held. */
    var sound: bool
    ghost var tree: Buddy
    ghost var free: set<nat>
    ghost var live: set<Block>

    /** Pages under management: a power of two of them would all be lost, as the root is never marked free. */
    ghost function Avail(): nat {
      if end - start == Pow2(rootOrder) then 0 else if start < end then end - start else 0
    }

    ghost predicate Sized() {
      && 0 < start && start + 2 <= end && rootOrder > 0 && IsOrder(end - start, rootOrder)
      && nodes.Length == 2 * Pow2(rootOrder) - 1
    }

    ghost predicate Valid()
      reads this, nodes
    {
      && Sized()
      && tree.Split? && Seen(nodes[..], rootOrder, rootOrder, 0, Top, tree, free)
      && (forall b :: b in live ==> (b.order, b.index) in Useds(tree, rootOrder, 0))
      && Accounted(free, live, Avail())
    }

    /** Manage the pages [start, end).  The array is not cleared at the root, where it holds what was there before. */
    constructor (start: nat, end: nat, junk: nat)
      requires 0 < start && start + 2 <= end
      ensures Valid() && fresh(nodes) && this.start == start && this.end == end && live == {}
      ensures free == Interval(0, Avail())
      ensures free == Interval(0, end - start) <==> end - start != Pow2(rootOrder)
      ensures sound <==> end - start != Pow2(rootOrder) || junk == 0
    {
      var order := Log2Up(end - start);
      this.start, this.end, rootOrder := start, end, order;
      nodes := new nat[2 * Pow2(order) - 1];
      tree, free, live, sound := Zero(order), {}, {}, true;
      new;
      OrderPositive(end - start, rootOrder);
      Fill(junk);
      SomePages(end - start);
    }

    /** Mark the managed pages free, in an array that holds anything. */
    method Fill(junk: nat)
      requires Sized() && live == {}
      modifies this`tree, this`free, this`sound, nodes
      ensures Valid() && free == Interval(0, Avail()) && (sound <==> end - start != Pow2(rootOrder) || junk == 0)
    {
      hide Rep, RepPath, Seen, FreeSeen, Interval, Accounted, Useds, Pow2, Zero, Norm, Val, NormPath, IsOrder,
           LivePages;
      AvailIs();
      nodes[0] := junk;
      ClearNodes();
      ghost var t;
      sound, t := FreeUnaligned(start, end - start);
      tree, free := t, Interval(0, Avail());
      NothingLive(Avail());
    }

    method ClearNodes()
      requires Sized()
      modifies nodes
      ensures Seen(nodes[..][0 := 0], rootOrder, rootOrder, 0, Top, Zero(rootOrder), {}) && nodes[0] == old(nodes[0])
    {
      var i := 1;
      while i < nodes.Length
        invariant 1 <= i <= nodes.Length && nodes[0] == old(nodes[0]) && forall j :: 1 <= j < i ==> nodes[j] == 0
      {
        nodes[i] := 0;
        i := i + 1;
      }
      ZeroSeen(nodes[..], rootOrder);
    }

    /** Free `pages` pages from `ppn` on, in blocks as large as their number's binary digits. */
    method FreeUnaligned(ppn: nat, pages: nat) returns (ok: bool, ghost t: Buddy)
      requires Sized() && ppn == start && pages == end - start
      requires Seen(nodes[..][0 := 0], rootOrder, rootOrder, 0, Top, Zero(rootOrder), {})
      modifies nodes
      ensures t.Split? && Seen(nodes[..], rootOrder, rootOrder, 0, Top, t, Interval(0, Avail()))
      ensures ok <==> pages != Pow2(rootOrder) || old(nodes[0]) == 0
    {
      hide *;
      AvailIs();
      ok := true;
      t := Zero(rootOrder);
      var next, i: int := ppn, rootOrder;
      DigitStart(nodes[..], rootOrder, pages);
      if Bit(pages, rootOrder) == 1 {
        // one block of the root's own size: its byte is set and at once recomputed from its halves
        ok := nodes[0] == 0;
        nodes[0] := rootOrder + 1;
        ghost var a := nodes[..];
        assert a[0 := 0] == old(nodes[..])[0 := 0];
        ReadRoot(a, rootOrder, t, {});
        nodes[0] := Max(nodes[Lsub(0)], nodes[Rsub(0)]);
        assert nodes[..] == a[0 := Max(a[Lsub(0)], a[Rsub(0)])];
        next := next + Pow2(rootOrder);
      }
      i := i - 1;
      ghost var avail := Avail();
      while i >= 0
        invariant -1 <= i < rootOrder && next == start + Up(pages, i + 1) * Pow2(i + 1)
        invariant Digits(nodes[..], rootOrder, t, avail, pages, i + 1)
      {
        NextDigit(pages, i, rootOrder);
        if Bit(pages, i) == 1 {
          ghost var pos, q := next - start, 2 * Up(pages, i + 1);
          OddDigits(pages, rootOrder, i);
          ghost var c, b := OpenNode(nodes[..], rootOrder, t, avail, i, q, pos, pages);
          ghost var t0 := t;
          t := Put(next - start, i, c, b, Interval(0, pos));
          DigitFreed(nodes[..], rootOrder, t0, t, avail, pages, i, q, pos, c, b);
          next := next + Pow2(i);
        } else {
          DigitSkipped(nodes[..], rootOrder, t, avail, pages, i);
        }
        i := i - 1;
      }
      DigitsDone(nodes[..], rootOrder, t, avail, pages);
    }

    lemma AvailIs()
      requires Sized()
      ensures Avail() == if end - start == Pow2(rootOrder) then 0 else end - start
      ensures Avail() < Pow2(rootOrder) && IsOrder(end - start, rootOrder) && rootOrder > 0
      ensures nodes.Length > 0 && end - start >= 2
    {
    }

    method Pos2Node(pos: nat, order: nat) returns (nd: nat)
      requires Sized() && order <= rootOrder && pos < Pow2(rootOrder)
      ensures InTree(rootOrder, order, Up(pos, order)) && nd == Idx(rootOrder, order, Up(pos, order))
    {
      nd := 0;
      var size: int := rootOrder - 1;
      UpUnique(pos, rootOrder, 0);
      while size >= order
        invariant order - 1 <= size < rootOrder
        invariant InTree(rootOrder, size + 1, Up(pos, size + 1)) && nd == Idx(rootOrder, size + 1, Up(pos, size + 1))
      {
        ghost var p := Up(pos, size + 1);
        UpStep(pos, size);
        Moves(rootOrder, size + 1, p);
        var bit := Bit(pos, size);
        nd := if bit == 1 then Rsub(nd) else Lsub(nd);
        size := size - 1;
      }
    }

    /** Walk down to a free node of the wanted size, dividing larger free nodes on the way. */
    method FindFree(rounded: nat) returns (node: nat, ghost q: nat, ghost c: Path)
      requires Sized() && tree.Split? && Seen(nodes[..], rootOrder, rootOrder, 0, Top, tree, free)
      requires 0 < rounded <= rootOrder && nodes[0] >= rounded
      modifies nodes
      ensures Seen(nodes[..], rootOrder, rounded - 1, q, c, Full, free) && node == Idx(rootOrder, rounded - 1, q)
      ensures UsedsSeen(c, Full, rounded - 1, q) == Useds(tree, rootOrder, 0)
      ensures Norm(tree, rootOrder) && Snug(tree, rootOrder, 0, rounded - 1, q)
    {
      hide *;
      RootByteIs(nodes[..], rootOrder, tree, free);
      SeenRoot(nodes[..], rootOrder, 0, Top, tree, free);
      SeenAt(nodes[..], rootOrder, rootOrder, 0, Top, tree, free);
      var nd, size := 0, rootOrder + 1;
      ghost var k: nat := rootOrder;
      ghost var b := tree;
      q, c, node := 0, Top, 0;
      RootIdx(rootOrder);
      while rounded <= size
        invariant rounded - 1 <= size <= rootOrder + 1 && InTree(rootOrder, k, q) && NormPath(c, k) && Norm(b, k)
        invariant Seen(nodes[..], rootOrder, k, q, c, b, free) && nd == Idx(rootOrder, k, q)
        invariant UsedsSeen(c, b, k, q) == Useds(tree, rootOrder, 0)
        invariant rounded - 1 <= k && Choice(b, k, q, rounded - 1) == Choice(tree, rootOrder, 0, rounded - 1)
        invariant if rounded <= size then k == size - 1 && Val(b, k) >= rounded
                  else k == rounded - 1 && b.Full? && node == nd
      {
        Visit(nodes[..], rootOrder, k, q, c, b, free, rounded);
        ChoiceStep(b, k, q, rounded - 1);
        if nodes[nd] == size && nodes[nd] == rounded {
          node := nd;
        } else if nodes[nd] == size {
          VisitFull(nodes[..], rootOrder, k, q, c, free);
          ghost var a: seq<nat> := nodes[..];
          nodes[Lsub(nd)], nodes[Rsub(nd)] := size - 1, size - 1;
          assert nodes[..] == a[Lsub(nd) := k][Rsub(nd) := k];
          nd := Lsub(nd);
          k, q, c := k - 1, 2 * q, OnLeft(c, Full);
        } else {
          VisitSplit(nodes[..], rootOrder, k, q, c, b, free);
          var left, right := nodes[Lsub(nd)], nodes[Rsub(nd)];
          var goLeft := if (if left < right then left else right) >= rounded then left < right else left > right;
          nd := if goLeft then Lsub(nd) else Rsub(nd);
          k, q, c, b := k - 1, if goLeft then 2 * q else 2 * q + 1,
            if goLeft then OnLeft(c, b.r) else OnRight(c, b.l), if goLeft then b.l else b.r;
        }
        size := size - 1;
      }
      ChoiceStep(b, k, q, rounded - 1);
      ChoiceSnug(tree, rootOrder, 0, rounded - 1);
    }

    /** Recompute the nodes above one that has just been taken. */
    method Refresh(node: nat, ghost k0: nat, ghost q: nat, ghost c0: Path, ghost F: set<nat>) returns (ghost t: Buddy)
      requires Sized() && k0 < rootOrder && Seen(nodes[..], rootOrder, k0, q, c0, Used, F) &&
               node == Idx(rootOrder, k0, q)
      modifies nodes
      ensures t.Split? && Seen(nodes[..], rootOrder, rootOrder, 0, Top, t, F)
      ensures Useds(t, rootOrder, 0) == {(k0, q)} + PathUseds(c0, k0, q)
    {
      hide *;
      ghost var k: nat := k0;
      ghost var p: nat := q;
      ghost var c, b := c0, Used;
      SeenAt(nodes[..], rootOrder, k, p, c, b, F);
      NodeUseds(c, k, p);
      var n: int := Prnt(node);
      while n > 0
        invariant k < rootOrder && InTree(rootOrder, k + 1, p / 2) && n == Idx(rootOrder, k + 1, p / 2) && !b.Full?
        invariant Seen(nodes[..], rootOrder, k, p, c, b, F)
        invariant NormPath(c, k) && Norm(b, k) && UsedsSeen(c, b, k, p) == {(k0, q)} + PathUseds(c0, k0, q)
        decreases rootOrder - k
      {
        ClimbTaken(nodes[..], rootOrder, k, p, c, b, F);
        ghost var a := nodes[..];
        nodes[n] := Max(nodes[Lsub(n)], nodes[Rsub(n)]);
        assert nodes[..] == a[n := Max(a[Lsub(n)], a[Rsub(n)])];
        b, c, k, p := Joined(c, b), c.up, k + 1, p / 2;
        n := Prnt(n);
      }
      ClimbTaken(nodes[..], rootOrder, k, p, c, b, F);
      ghost var a := nodes[..];
      nodes[0] := Max(nodes[Lsub(0)], nodes[Rsub(0)]);
      assert nodes[..] == a[0 := Max(a[Lsub(0)], a[Rsub(0)])];
      t := Joined(c, b);
      SeenRoot(nodes[..], rootOrder, p / 2, c.up, t, F);
    }

    /** Take a block of at least `pages` pages; None is the kernel's panic. */
    method Alloc(pages: nat) returns (r: Option<nat>, ghost order: nat, ghost q: nat)
      requires Valid()
      modifies this`tree, this`free, this`live, nodes
      ensures Valid() && IsOrder(pages, order)
      ensures r.Some? <==> HasRun(old(free), order)
      ensures r.None? ==> free == old(free) && live == old(live)
      ensures r.Some? ==>
                && Block(order, q).Pages() <= old(free) && Block(order, q) !in old(live)
                && free == old(free) - Block(order, q).Pages() && live == old(live) + {Block(order, q)}
                && r.value == start + q * Pow2(order) && r.value + Pow2(order) <= end
      ensures r.Some? ==> Norm(old(tree), rootOrder) && order <= rootOrder && Snug(old(tree), rootOrder, 0, order, q)
    {
      var l := Log2Up(pages);
      order, q := l, 0;
      var rounded := l + 1;
      RootByte(nodes[..], rootOrder, tree, free, Avail(), order);
      if nodes[0] < rounded {
        return None, order, q;
      }
      ghost var c := Top;
      var node;
      node, q, c := FindFree(rounded);
      r := TakeNode(node, rounded, q, c);
    }

    /** Mark a free node taken. */
    method TakeNode(node: nat, rounded: nat, ghost q: nat, ghost c: Path) returns (r: Option<nat>)
      requires Sized() && 0 < rounded <= rootOrder && Accounted(free, live, Avail())
      requires Seen(nodes[..], rootOrder, rounded - 1, q, c, Full, free) && node == Idx(rootOrder, rounded - 1, q)
      requires forall b :: b in live ==> (b.order, b.index) in UsedsSeen(c, Full, rounded - 1, q)
      modifies this`tree, this`free, this`live, nodes
      ensures Valid()
      ensures Block(rounded - 1, q).Pages() <= old(free) && Block(rounded - 1, q) !in old(live)
      ensures free == old(free) - Block(rounded - 1, q).Pages() && live == old(live) + {Block(rounded - 1, q)}
      ensures r == Some(start + q * Pow2(rounded - 1)) && r.value + Pow2(rounded - 1) <= end
    {
      hide Rep, RepPath, Seen, FreeSeen, Pow2, Idx, NodePages, Accounted, Useds, PathUseds, IsOrder, LivePages;
      ghost var order := rounded - 1;
      SeenAt(nodes[..], rootOrder, order, q, c, Full, free);
      Overwrite(nodes[..], rootOrder, order, q, c, Full, Used, free);
      Taken(nodes[..], rootOrder, order, q, c, free, live, Avail());
      NodeToPpn(rootOrder, order, q);
      ghost var a := nodes[..];
      nodes[node] := 0;
      assert nodes[..] == a[node := 0];
      free := free - NodePages(order, q);
      tree := Refresh(node, order, q, c, free);
      live := live + {Block(order, q)};
      NodeUseds(c, order, q);
      r := Some(start + (node + 1 - Pow2(rootOrder + 1 - rounded)) * Pow2(rounded - 1));
    }

    /** Mark a taken node free and join free halves on the way up. */
    method Put(pos: nat, order: nat, ghost c0: Path, ghost b0: Buddy, ghost F: set<nat>) returns (ghost t: Buddy)
      requires Sized() && order < rootOrder && pos < Pow2(rootOrder)
      requires Seen(nodes[..], rootOrder, order, Up(pos, order), c0, b0, F) && Norm(b0, order) && Val(b0, order) == 0
      requires Pow2(rootOrder) - 1 !in F + NodePages(order, Up(pos, order))
      modifies nodes
      ensures t.Split? && Seen(nodes[..], rootOrder, rootOrder, 0, Top, t, F + NodePages(order, Up(pos, order)))
      ensures NormPath(c0, order) && Useds(t, rootOrder, 0) == PathUseds(c0, order, Up(pos, order))
    {
      hide *;
      ghost var q := Up(pos, order);
      ghost var F' := F + NodePages(order, q);
      var node := Pos2Node(pos, order);
      SeenAt(nodes[..], rootOrder, order, q, c0, b0, F);
      ByteIs(nodes[..], rootOrder, order, q, c0, b0, F);
      assert nodes[node] == 0;
      Freed(nodes[..], rootOrder, order, q, c0, b0, F);
      var size := order + 1;
      ghost var a := nodes[..];
      nodes[node] := size;
      assert nodes[..] == a[node := size];
      ghost var k: nat := order;
      ghost var p: nat := q;
      ghost var c, b := c0, Full;
      NodeUseds(c, k, p);
      var idx: int := Prnt(node);
      while idx > 0
        invariant k < rootOrder && InTree(rootOrder, k + 1, p / 2) && idx == Idx(rootOrder, k + 1, p / 2) &&
                  size == k + 1
        invariant Seen(nodes[..], rootOrder, k, p, c, b, F')
        invariant NormPath(c, k) && Norm(b, k) && UsedsSeen(c, b, k, p) == PathUseds(c0, order, q)
        decreases rootOrder - k
      {
        ClimbFreed(nodes[..], rootOrder, k, p, c, b, F');
        var l, r := nodes[Lsub(idx)], nodes[Rsub(idx)];
        ghost var a := nodes[..];
        nodes[idx] := if l == r && l == size then l + 1 else Max(l, r);
        assert nodes[..] == a[idx := if a[Lsub(idx)] == a[Rsub(idx)] && a[Lsub(idx)] == k + 1 then a[Lsub(idx)] + 1
                                     else Max(a[Lsub(idx)], a[Rsub(idx)])];
        b, c, k, p := Joined(c, b), c.up, k + 1, p / 2;
        idx, size := Prnt(idx), size + 1;
      }
      ClimbFreed(nodes[..], rootOrder, k, p, c, b, F');
      RootNotFree(nodes[..], rootOrder, p, c, b, F');
      a := nodes[..];
      nodes[0] := Max(nodes[Lsub(0)], nodes[Rsub(0)]);
      assert nodes[..] == a[0 := Max(a[Lsub(0)], a[Rsub(0)])];
      t := Joined(c, b);
      SeenRoot(nodes[..], rootOrder, p / 2, c.up, t, F');
    }

    /** Give back a block handed out before. */
    method Free(ppn: nat, order: nat, ghost block: Block)
      requires Valid() && block in live && order == block.order && ppn == start + block.index * Pow2(order)
      modifies this`tree, this`free, this`live, nodes
      ensures Valid() && live == old(live) - {block} && free == old(free) + block.Pages()
    {
      hide Seen, NodePages, Accounted, Useds, PathUseds, NormPath, LivePages, Pow2, Up, Interval, IsOrder;
      AvailIs();
      ByteIs(nodes[..], rootOrder, rootOrder, 0, Top, tree, free);
      ghost var c := FindLive(nodes[..], rootOrder, tree, free, live, block, Avail(), ppn - start);
      tree := Put(ppn - start, order, c, Used, free);
      free, live := free + block.Pages(), live - {block};
    }
  }

  /** The node of a live block, ready to be given back. */
  lemma FindLive(a: seq<nat>, top: nat, t: Buddy, F: set<nat>, live: set<Block>, b: Block, avail: nat, pos: nat)
    returns (c: Path)
    requires t.Split? && Seen(a, top, top, 0, Top, t, F) && Norm(t, top) && avail < Pow2(top)
    requires Accounted(F, live, avail) && b in live && (b.order, b.index) in Useds(t, top, 0)
    requires pos == b.index * Pow2(b.order)
    ensures b.order < top && pos < Pow2(top) && Up(pos, b.order) == b.index && NormPath(c, b.order)
    ensures Seen(a, top, b.order, b.index, c, Used, F) && Pow2(top) - 1 !in F + b.Pages()
    ensures Accounted(F + b.Pages(), live - {b}, avail)
    ensures forall u :: u in Useds(t, top, 0) ==> u == (b.order, b.index) || u in PathUseds(c, b.order, b.index)
  {
    hide Seen, NodePages, Accounted, Useds, PathUseds, LivePages, Pow2, Up;
    UsedReached(t, top, 0, b.order, b.index);
    var x;
    c, x := FindPath(a, top, top, 0, Top, t, F, b.order, b.index);
    ByteIs(a, top, b.order, b.index, c, x, F);
    SeenIn(a, top, b.order, b.index, c, x, F);
    LiveUseds(t, top, c, b);
    BlockPosition(top, b.order, b.index);
    Returned(F, live, b, avail);
  }

  lemma LiveUseds(t: Buddy, top: nat, c: Path, b: Block)
    requires Norm(t, top) && NormPath(c, b.order) && UsedsSeen(c, Used, b.order, b.index) == UsedsSeen(Top, t, top, 0)
    ensures forall u :: u in Useds(t, top, 0) ==> u == (b.order, b.index) || u in PathUseds(c, b.order, b.index)
  {
    assert forall u :: u in Useds(t, top, 0) ==> u in UsedsSeen(c, Used, b.order, b.index);
  }

  /** The page number of a block leads back to its node. */
  lemma BlockPosition(top: nat, k: nat, q: nat)
    requires InTree(top, k, q)
    ensures q * Pow2(k) < Pow2(top) && Up(q * Pow2(k), k) == q
  {
    var x := FirstPage(k, q);
    PagesInTree(top, k, q, x);
    assert (q + 1) * Pow2(k) == q * Pow2(k) + Pow2(k);
    UpUnique(x, k, q);
  }

  /** Giving a block back keeps the books. */
  lemma Returned(free: set<nat>, live: set<Block>, b: Block, avail: nat)
    requires Accounted(free, live, avail) && b in live
    ensures Accounted(free + b.Pages(), live - {b}, avail)
    ensures free + b.Pages() <= Interval(0, avail)
  {
    LiveWith(live - {b}, b);
    assert live - {b} + {b} == live;
  }

  lemma ByteIs(a: seq<nat>, top: nat, k: nat, p: nat, c: Path, b: Buddy, F: set<nat>)
    requires Seen(a, top, k, p, c, b, F)
    ensures InTree(top, k, p) && Idx(top, k, p) < |a| && Norm(b, k) && a[Idx(top, k, p)] == Val(b, k)
  {
  }

  lemma Freed(a: seq<nat>, top: nat, k: nat, p: nat, c: Path, b: Buddy, F: set<nat>)
    requires Seen(a, top, k, p, c, b, F)
    ensures InTree(top, k, p) && Idx(top, k, p) < |a|
    ensures Seen(a[Idx(top, k, p) := k + 1], top, k, p, c, Full, F + NodePages(k, p)) && NormPath(c, k)
  {
    SeenIn(a, top, k, p, c, b, F);
    LeafNorm(Full, k);
    hide Seen, Rep, RepPath, NodePages, Interval, Pow2;
    Overwrite(a, top, k, p, c, b, Full, F);
    forall x | x in NodePages(k, p)
      ensures x in Interval(0, Pow2(top))
    {
      InNodePages(k, p, x);
      PagesInTree(top, k, p, x);
    }
    assert NodePages(k, p) * Interval(0, Pow2(top)) == NodePages(k, p);
  }

  /** One step of the climb after a node was freed. */
  lemma ClimbFreed(a: seq<nat>, top: nat, k: nat, p: nat, c: Path, b: Buddy, F: set<nat>)
    requires Seen(a, top, k, p, c, b, F) && k < top
    ensures !c.Top? && InTree(top, k + 1, p / 2) && Rsub(Idx(top, k + 1, p / 2)) < |a| &&
            Lsub(Idx(top, k + 1, p / 2)) < |a|
    ensures Idx(top, k + 1, p / 2) < |a| && (Idx(top, k + 1, p / 2) > 0 <==> k + 1 < top)
    ensures k + 1 < top ==> InTree(top, k + 2, p / 2 / 2) && Prnt(Idx(top, k + 1, p / 2)) == Idx(top, k + 2, p / 2 / 2)
    ensures NormPath(c.up, k + 1) && Norm(Joined(c, b), k + 1)
    ensures var i := Idx(top, k + 1, p / 2);
            var v := if a[Lsub(i)] == a[Rsub(i)] && a[Lsub(i)] == k + 1 then a[Lsub(i)] + 1
              else Max(a[Lsub(i)], a[Rsub(i)]);
            && Seen(a[i := v], top, k + 1, p / 2, c.up, Joined(c, b), F)
            && (!Joined(c, b).Full? ==> v == Max(a[Lsub(i)], a[Rsub(i)]))
    ensures NormPath(c, k) && Norm(b, k) && UsedsSeen(c.up, Joined(c, b), k + 1, p / 2) == UsedsSeen(c, b, k, p)
  {
    SeenAt(a, top, k, p, c, b, F);
    ReadHalves(a, top, k, p, c, b, F);
    StepUp(a, top, k, p, c, b, F);
    Moves(top, k + 1, p / 2);
  }

  /** With its last page reserved or taken, the root never becomes entirely free. */
  lemma RootNotFree(a: seq<nat>, top: nat, p: nat, c: Path, b: Buddy, F: set<nat>)
    requires top > 0 && Seen(a, top, top - 1, p, c, b, F) && !c.Top? && Pow2(top) - 1 !in F
    ensures !Joined(c, b).Full? && Joined(c, b).Split?
  {
    hide Seen, Pow2, FreeSeen, Norm, NormPath, UsedsSeen;
    var x := Pow2(top) - 1;
    LastSeen(a, top, p, c, b, F);
    SeenUp(c, b, top - 1, p, x);
    if Joined(c, b).Full? {
      FullSeen(c.up, top, x);
    }
  }

  /** The last page as seen from a child of the root. */
  lemma LastSeen(a: seq<nat>, top: nat, p: nat, c: Path, b: Buddy, F: set<nat>)
    requires top > 0 && Seen(a, top, top - 1, p, c, b, F) && !c.Top? && Pow2(top) - 1 !in F
    ensures NormPath(c, top - 1) && NormPath(c.up, top) && Norm(b, top - 1)
    ensures p % 2 == (if c.OnLeft? then 0 else 1) && p / 2 == 0
    ensures !FreeSeen(c, b, top - 1, p, Pow2(top) - 1)
  {
    SeenIn(a, top, top - 1, p, c, b, F);
    PathParts(a, top, top - 1, p, c);
    assert Pow2(1) == 2;
    hide Rep, RepPath, FreeSeen, Norm;
  }

  lemma FullSeen(c: Path, top: nat, x: nat)
    requires NormPath(c, top) && x < Pow2(top)
    ensures Norm(Full, top) && FreeSeen(c, Full, top, 0, x)
  {
    UpUnique(x, top, 0);
  }

  lemma NodeUseds(c: Path, k: nat, q: nat)
    requires NormPath(c, k)
    ensures Norm(Full, k) && Norm(Used, k)
    ensures UsedsSeen(c, Full, k, q) == PathUseds(c, k, q)
    ensures UsedsSeen(c, Used, k, q) == {(k, q)} + PathUseds(c, k, q)
  {
  }

  /** Where a node and its parent are in the array. */
  lemma SeenAt(a: seq<nat>, top: nat, k: nat, p: nat, c: Path, b: Buddy, F: set<nat>)
    requires Seen(a, top, k, p, c, b, F)
    ensures InTree(top, k, p) && Idx(top, k, p) < |a| && NormPath(c, k) && Norm(b, k)
    ensures k < top ==>
              && InTree(top, k + 1, p / 2) && Prnt(Idx(top, k, p)) == Idx(top, k + 1, p / 2) < |a| && !c.Top?
              && (Idx(top, k + 1, p / 2) > 0 <==> k + 1 < top)
  {
    SeenIn(a, top, k, p, c, b, F);
    hide Rep, RepPath, Pow2, Idx, FreeSeen;
    Moves(top, k, p);
    if k < top {
      Moves(top, k + 1, p / 2);
    }
  }

  lemma SeenIn(a: seq<nat>, top: nat, k: nat, p: nat, c: Path, b: Buddy, F: set<nat>)
    requires Seen(a, top, k, p, c, b, F)
    ensures |a| == 2 * Pow2(top) - 1 && InTree(top, k, p) && NormPath(c, k) && Norm(b, k) && (k < top ==> !c.Top?)
  {
  }

  lemma RootIdx(top: nat)
    ensures InTree(top, top, 0) && Idx(top, top, 0) == 0
  {
  }

  /** What the walk down meets at a node: a free one, to take or to divide, or a divided one. */
  lemma Visit(a: seq<nat>, top: nat, k: nat, q: nat, c: Path, b: Buddy, F: set<nat>, rounded: nat)
    requires Seen(a, top, k, q, c, b, F) && Norm(b, k) && 0 < rounded <= k + 1 && Val(b, k) >= rounded
    ensures InTree(top, k, q) && Idx(top, k, q) < |a| && a[Idx(top, k, q)] == Val(b, k) &&
            (Val(b, k) == k + 1 <==> b.Full?)
    ensures NormPath(c, k) && (!b.Full? ==> b.Split? && rounded <= k)
  {
    SeenIn(a, top, k, q, c, b, F);
    ByteIs(a, top, k, q, c, b, F);
  }

  /** Dividing a free node marks its halves free. */
  lemma VisitFull(a: seq<nat>, top: nat, k: nat, q: nat, c: Path, F: set<nat>)
    requires Seen(a, top, k, q, c, Full, F) && k > 0 && InTree(top, k, q) && NormPath(c, k)
    ensures var i := Idx(top, k, q);
            && Lsub(i) < |a| && Rsub(i) < |a| && Lsub(i) != Rsub(i)
            && InTree(top, k - 1, 2 * q) && Lsub(i) == Idx(top, k - 1, 2 * q)
            && Norm(Full, k - 1) && Norm(Full, k) && Val(Full, k - 1) == k && NormPath(OnLeft(c, Full), k - 1)
            && Seen(a[Lsub(i) := k][Rsub(i) := k], top, k - 1, 2 * q, OnLeft(c, Full), Full, F)
            && UsedsSeen(OnLeft(c, Full), Full, k - 1, 2 * q) == UsedsSeen(c, Full, k, q)
  {
    SeenIn(a, top, k, q, c, Full, F);
    Moves(top, k, q);
    hide Rep, RepPath, Pow2, Up, FreeSeen, Useds, PathUseds, UsedsSeen, Idx;
    DivideFull(a, top, k, q, c, F);
  }

  /** The two halves of a divided node. */
  lemma SplitNorm(c: Path, b: Buddy, k: nat)
    requires Norm(b, k) && b.Split? && NormPath(c, k)
    ensures k > 0 && Norm(b.l, k - 1) && Norm(b.r, k - 1)
    ensures var v, w := Val(b.l, k - 1), Val(b.r, k - 1); Val(b, k) == if v > w then v else w
    ensures NormPath(OnLeft(c, b.r), k - 1) && NormPath(OnRight(c, b.l), k - 1)
  {
  }

  lemma VisitSplit(a: seq<nat>, top: nat, k: nat, q: nat, c: Path, b: Buddy, F: set<nat>)
    requires Seen(a, top, k, q, c, b, F) && b.Split? && InTree(top, k, q) && NormPath(c, k) && Norm(b, k)
    ensures var i := Idx(top, k, q);
            && k > 0 && Lsub(i) < |a| && Rsub(i) < |a| && InTree(top, k - 1, 2 * q) && InTree(top, k - 1, 2 * q + 1)
            && Lsub(i) == Idx(top, k - 1, 2 * q) && Rsub(i) == Idx(top, k - 1, 2 * q + 1)
            && Norm(b.l, k - 1) && Norm(b.r, k - 1) && a[Lsub(i)] == Val(b.l, k - 1) && a[Rsub(i)] == Val(b.r, k - 1)
            && Val(b, k) == (if a[Lsub(i)] > a[Rsub(i)] then a[Lsub(i)] else a[Rsub(i)])
            && NormPath(OnLeft(c, b.r), k - 1) && NormPath(OnRight(c, b.l), k - 1)
            && Seen(a, top, k - 1, 2 * q, OnLeft(c, b.r), b.l, F)
            && Seen(a, top, k - 1, 2 * q + 1, OnRight(c, b.l), b.r, F)
            && UsedsSeen(OnLeft(c, b.r), b.l, k - 1, 2 * q) == UsedsSeen(c, b, k, q)
            && UsedsSeen(OnRight(c, b.l), b.r, k - 1, 2 * q + 1) == UsedsSeen(c, b, k, q)
  {
    hide Seen, Pow2, UsedsSeen, Idx, InTree, Norm, NormPath, Val;
    SplitNorm(c, b, k);
    SeenIn(a, top, k, q, c, b, F);
    Moves(top, k, q);
    StepDown(a, top, k, q, c, b, F);
    ByteIs(a, top, k - 1, 2 * q, OnLeft(c, b.r), b.l, F);
    ByteIs(a, top, k - 1, 2 * q + 1, OnRight(c, b.l), b.r, F);
  }

  /** One step of the climb after a node was taken: the parent is never entirely free. */
  lemma ClimbTaken(a: seq<nat>, top: nat, k: nat, p: nat, c: Path, b: Buddy, F: set<nat>)
    requires Seen(a, top, k, p, c, b, F) && k < top && !b.Full?
    ensures !c.Top? && InTree(top, k + 1, p / 2) && Rsub(Idx(top, k + 1, p / 2)) < |a| &&
            Lsub(Idx(top, k + 1, p / 2)) < |a|
    ensures Idx(top, k + 1, p / 2) < |a| && (Idx(top, k + 1, p / 2) > 0 <==> k + 1 < top)
    ensures k + 1 < top ==> InTree(top, k + 2, p / 2 / 2) && Prnt(Idx(top, k + 1, p / 2)) == Idx(top, k + 2, p / 2 / 2)
    ensures Joined(c, b).Split? && NormPath(c.up, k + 1) && Norm(Joined(c, b), k + 1)
    ensures var i := Idx(top, k + 1, p / 2);
            Seen(a[i := Max(a[Lsub(i)], a[Rsub(i)])], top, k + 1, p / 2, c.up, Joined(c, b), F)
    ensures NormPath(c, k) && Norm(b, k) && UsedsSeen(c.up, Joined(c, b), k + 1, p / 2) == UsedsSeen(c, b, k, p)
  {
    SeenAt(a, top, k, p, c, b, F);
    ReadHalves(a, top, k, p, c, b, F);
    StepUp(a, top, k, p, c, b, F);
    Moves(top, k + 1, p / 2);
  }

  lemma SeenRoot(a: seq<nat>, top: nat, p: nat, c: Path, t: Buddy, F: set<nat>)
    requires Seen(a, top, top, p, c, t, F)
    ensures p == 0 && c == Top && NormPath(c, top) && Norm(t, top) && UsedsSeen(c, t, top, 0) == Useds(t, top, 0)
  {
  }

  /** A free node's pages were all free, and taking it keeps the books. */
  lemma Taken(a: seq<nat>, top: nat, k: nat, q: nat, c: Path, free: set<nat>, live: set<Block>, avail: nat)
    requires Seen(a, top, k, q, c, Full, free) && Accounted(free, live, avail)
    ensures NodePages(k, q) <= free && Block(k, q) !in live
    ensures Accounted(free - NodePages(k, q), live + {Block(k, q)}, avail)
    ensures q * Pow2(k) + Pow2(k) <= avail
  {
    FullIsFree(a, top, k, q, c, free);
    TakenBooks(k, q, free, live, avail);
  }

  lemma FullIsFree(a: seq<nat>, top: nat, k: nat, q: nat, c: Path, free: set<nat>)
    requires Seen(a, top, k, q, c, Full, free)
    ensures NodePages(k, q) <= free
  {
    forall x | x in NodePages(k, q)
      ensures x in free
    {
      InNodePages(k, q, x);
      PagesInTree(top, k, q, x);
      assert FreeSeen(c, Full, k, q, x) <==> x in free;
    }
  }

  lemma TakenBooks(k: nat, q: nat, free: set<nat>, live: set<Block>, avail: nat)
    requires Accounted(free, live, avail) && NodePages(k, q) <= free
    ensures Block(k, q) !in live && Accounted(free - NodePages(k, q), live + {Block(k, q)}, avail)
    ensures q * Pow2(k) + Pow2(k) <= avail
  {
    var x := FirstPage(k, q);
    InNodePages(k, q, x);
    BlockBooks(free, live, Block(k, q), x, avail);
    assert (q + 1) * Pow2(k) == q * Pow2(k) + Pow2(k);
    assert (q + 1) * Pow2(k) - 1 in NodePages(k, q);
  }

  lemma BlockBooks(free: set<nat>, live: set<Block>, b: Block, x: nat, avail: nat)
    requires Accounted(free, live, avail) && b.Pages() <= free && x in b.Pages()
    ensures b !in live && Accounted(free - b.Pages(), live + {b}, avail)
  {
    LiveWith(live, b);
    hide LivePages, NodePages;
    assert b in live ==> b.Pages() <= LivePages(live);
    assert forall b' :: b' in live ==> b'.Pages() !! b.Pages();
  }

  /** The closed form for a node's first page undoes the index arithmetic. */
  lemma NodeToPpn(top: nat, k: nat, q: nat)
    requires InTree(top, k, q)
    ensures (Idx(top, k, q) + 1 - Pow2(top - k)) * Pow2(k) == q * Pow2(k) >= 0
  {
    var d := Idx(top, k, q) + 1 - Pow2(top - k);
    assert d == q;
    hide Pow2, Idx;
    var x := FirstPage(k, q);
  }

  lemma PagesInTree(top: nat, k: nat, q: nat, x: nat)
    requires InTree(top, k, q) && Below(0, x, k, q)
    ensures x < Pow2(top)
  {
    UpUnique(q, top - k, 0);
    UpUp(x, k, top - k);
    UpIsDivision(x, top);
  }

  lemma LiveWith(live: set<Block>, b: Block)
    ensures LivePages(live + {b}) == LivePages(live) + b.Pages()
    ensures forall b' :: b' in live ==> b'.Pages() <= LivePages(live)
  {
  }

  /** Bit i of x: shift right by i, then mask. */
  function Bit(x: nat, i: nat): nat {
    Up(x, i) % 2
  }

  lemma SomePages(n: nat)
    requires n > 0
    ensures Interval(0, n) != Interval(0, 0)
  {
    assert 0 in Interval(0, n) && 0 !in Interval(0, 0);
  }

  lemma NothingLive(avail: nat)
    ensures Accounted(Interval(0, avail), {}, avail)
  {
    assert LivePages({}) == {};
  }

  lemma OrderPositive(n: nat, r: nat)
    requires n >= 2 && IsOrder(n, r)
    ensures r > 0
  {
  }

  lemma ZeroSeen(a: seq<nat>, top: nat)
    requires top > 0 && |a| == 2 * Pow2(top) - 1 && forall i :: 1 <= i < |a| ==> a[i] == 0
    ensures |a| > 0 && Seen(a[0 := 0], top, top, 0, Top, Zero(top), {})
  {
    ZeroTree(top, 0);
    ZeroRep(a[0 := 0], top, top, 0);
    forall x: nat | x < Pow2(top)
      ensures !FreeSeen(Top, Zero(top), top, 0, x)
    {
      UpUnique(x, top, 0);
    }
  }

  lemma ReadRoot(a: seq<nat>, top: nat, t: Buddy, F: set<nat>)
    requires top > 0 && |a| > 0 && Norm(t, top) && Seen(a[0 := Val(t, top)], top, top, 0, Top, t, F) && t.Split?
    ensures Rsub(0) < |a| && Lsub(0) < |a| && Max(a[Lsub(0)], a[Rsub(0)]) == Val(t, top)
  {
    var a0 := a[0 := Val(t, top)];
    RootHalves(a0, top, t, F);
    assert a0[1] == a[1] && a0[2] == a[2];
  }

  lemma RootHalves(a: seq<nat>, top: nat, t: Buddy, F: set<nat>)
    requires top > 0 && Seen(a, top, top, 0, Top, t, F) && t.Split?
    ensures |a| > 2 && Norm(t, top) && Val(t, top) == Max(a[1], a[2])
  {
    Moves(top, top, 0);
    assert Pow2(0) == 1 && Pow2(1) == 2;
    assert Rep(a, top, top - 1, 0, t.l) && Rep(a, top, top - 1, 1, t.r);
  }

  lemma TopDigit(n: nat, r: nat)
    requires IsOrder(n, r) && r > 0
    ensures Up(n, r) == if n == Pow2(r) then 1 else 0
    ensures Bit(n, r) == Up(n, r)
  {
    if n == Pow2(r) {
      UpUnique(n, r, 1);
    } else {
      UpUnique(n, r, 0);
    }
  }

  /** The digits of n above position i, one more of them. */
  lemma NextDigit(n: nat, i: nat, top: nat)
    requires i < top
    ensures Up(n, i) == 2 * Up(n, i + 1) + Bit(n, i) && 0 <= Bit(n, i) <= 1
    ensures Up(n, i) * Pow2(i) == Up(n, i + 1) * Pow2(i + 1) + Bit(n, i) * Pow2(i) <= n
  {
    UpStep(n, i);
    UpIsDivision(n, i);
    assert 0 <= Bit(n, i) <= 1 && Pow2(i + 1) == 2 * Pow2(i);
    hide Up, Bit, Pow2;
    Doubled(Up(n, i + 1), Bit(n, i), Pow2(i));
  }

  lemma Doubled(u: nat, b: nat, p: nat)
    ensures (2 * u + b) * p == u * (2 * p) + b * p
  {
  }

  /** A power of two has no digit below its highest. */
  lemma OddDigits(n: nat, r: nat, i: nat)
    requires i < r && Bit(n, i) == 1
    ensures n != Pow2(r)
  {
    UpPower(r, i);
    assert Pow2(r - i) == 2 * Pow2(r - i - 1);
  }

  lemma {:induction false} UpPower(r: nat, i: nat)
    requires i <= r
    ensures Up(Pow2(r), i) == Pow2(r - i)
    decreases i
  {
    if i > 0 {
      assert Pow2(r) / 2 == Pow2(r - 1);
      UpPower(r - 1, i - 1);
    }
  }

  lemma GrowInterval(k: nat, q: nat, pos: nat)
    requires pos == q * Pow2(k)
    ensures Interval(0, pos) + NodePages(k, q) == Interval(0, pos + Pow2(k)) && Up(pos, k) == q
    ensures (q + 1) * Pow2(k) == pos + Pow2(k)
  {
    assert (q + 1) * Pow2(k) == q * Pow2(k) + Pow2(k);
    UpUnique(pos, k, q);
  }

  /** The digits of `pages` from position i on have been freed; before the first, the root's byte is arbitrary. */
  ghost predicate Digits(a: seq<nat>, top: nat, t: Buddy, avail: nat, pages: nat, i: nat) {
    && |a| > 0 && t.Split? && Norm(t, top) && (forall u :: u in Useds(t, top, 0) ==> u.0 == 0)
    && Seen(a[0 := Val(t, top)], top, top, 0, Top, t, if avail == 0 then {} else Interval(0, Up(pages, i) * Pow2(i)))
    && (Up(pages, i) > 0 ==> a[0] == Val(t, top))
  }

  lemma DigitStart(a: seq<nat>, top: nat, pages: nat)
    requires top > 0 && |a| > 0 && Seen(a[0 := 0], top, top, 0, Top, Zero(top), {}) && IsOrder(pages, top)
    ensures Norm(Zero(top), top) && Zero(top).Split? && Val(Zero(top), top) == 0 && Pow2(top) > 0
    ensures Bit(pages, top) == 1 <==> pages == Pow2(top)
    ensures Up(pages, top) * Pow2(top) == if pages == Pow2(top) then Pow2(top) else 0
    ensures pages != Pow2(top) ==> Digits(a, top, Zero(top), pages, pages, top)
    ensures pages == Pow2(top) ==> Digits(a[0 := 0], top, Zero(top), 0, pages, top)
  {
    ZeroTree(top, 0);
    TopDigit(pages, top);
    assert a[0 := 0][0 := 0] == a[0 := 0];
    assert Interval(0, 0) == {};
    assert pages != Pow2(top) ==> Up(pages, top) * Pow2(top) == 0;
  }

  lemma DigitSkipped(a: seq<nat>, top: nat, t: Buddy, avail: nat, pages: nat, i: nat)
    requires i < top && Bit(pages, i) == 0 && Digits(a, top, t, avail, pages, i + 1)
    ensures Digits(a, top, t, avail, pages, i)
  {
    NextDigit(pages, i, top);
  }

  lemma DigitFreed(a: seq<nat>, top: nat, t0: Buddy, t: Buddy, avail: nat, pages: nat, i: nat, q: nat, pos: nat,
                   c: Path, b: Buddy)
    requires i < top && Bit(pages, i) == 1 && avail > 0 && q == 2 * Up(pages, i + 1) && pos == q * Pow2(i)
    requires Norm(t0, top) && (forall u :: u in Useds(t0, top, 0) ==> u.0 == 0)
    requires NormPath(c, i) && Norm(b, i) && UsedsSeen(c, b, i, q) == Useds(t0, top, 0)
    requires t.Split? && Seen(a, top, top, 0, Top, t, Interval(0, pos) + NodePages(i, q))
    requires Useds(t, top, 0) == PathUseds(c, i, q)
    ensures Digits(a, top, t, avail, pages, i)
  {
    hide Seen, Useds, PathUseds, UsedsSeen, Pow2, Up, NodePages, Interval, Bit;
    DigitSum(pages, i, q, pos);
    RootByteIs(a, top, t, Interval(0, pos) + NodePages(i, q));
    UsedsSplit(c, b, i, q);
    assert a[0 := a[0]] == a;
  }

  lemma DigitSum(pages: nat, i: nat, q: nat, pos: nat)
    requires Bit(pages, i) == 1 && q == 2 * Up(pages, i + 1) && pos == q * Pow2(i)
    ensures Up(pages, i) == q + 1
    ensures Interval(0, pos) + NodePages(i, q) == Interval(0, Up(pages, i) * Pow2(i))
  {
    NextDigit(pages, i, i + 1);
    GrowInterval(i, q, pos);
  }

  lemma UsedsSplit(c: Path, b: Buddy, k: nat, q: nat)
    requires NormPath(c, k) && Norm(b, k)
    ensures PathUseds(c, k, q) <= UsedsSeen(c, b, k, q)
  {
  }

  lemma RootByteIs(a: seq<nat>, top: nat, t: Buddy, F: set<nat>)
    requires Seen(a, top, top, 0, Top, t, F)
    ensures |a| > 0 && Norm(t, top) && a[0] == Val(t, top)
  {
    Moves(top, top, 0);
  }

  lemma DigitsDone(a: seq<nat>, top: nat, t: Buddy, avail: nat, pages: nat)
    requires pages > 0 && (avail == 0 || avail == pages) && Digits(a, top, t, avail, pages, 0)
    ensures t.Split? && Seen(a, top, top, 0, Top, t, Interval(0, avail))
  {
    assert a[0 := a[0]] == a;
    assert Pow2(0) == 1 && Up(pages, 0) == pages;
    assert Interval(0, 0) == {};
  }

  /**
   While only single pages are marked taken, the node at a page not yet freed can be reached and holds nothing free.
   */
  lemma OpenNode(a: seq<nat>, top: nat, t: Buddy, avail: nat, i: nat, q: nat, pos: nat, pages: nat)
    returns (c: Path, b: Buddy)
    requires i < top && Digits(a, top, t, avail, pages, i + 1) && avail > 0
    requires q == 2 * Up(pages, i + 1) && Bit(pages, i) == 1 && pos == Up(pages, i + 1) * Pow2(i + 1) &&
             pages < Pow2(top)
    ensures pos == q * Pow2(i) && Up(pos, i) == q && pos < Pow2(top) && Seen(a, top, i, q, c, b, Interval(0, pos))
    ensures Norm(t, top) && (forall u :: u in Useds(t, top, 0) ==> u.0 == 0)
    ensures Norm(b, i) && Val(b, i) == 0 && NormPath(c, i) && UsedsSeen(c, b, i, q) == Useds(t, top, 0)
    ensures Pow2(top) - 1 !in Interval(0, pos) + NodePages(i, q)
  {
    DigitPosition(pages, i, q, pos, top);
    hide Seen, Rep, Useds, UsedsSeen, Pow2, Up, NodePages, Interval, Bit;
    c, b := OpenPath(a, top, t, i, q, pos);
  }

  lemma DigitPosition(pages: nat, i: nat, q: nat, pos: nat, top: nat)
    requires i < top && q == 2 * Up(pages, i + 1) && Bit(pages, i) == 1 && pos == Up(pages, i + 1) * Pow2(i + 1)
    requires pages < Pow2(top)
    ensures pos == q * Pow2(i) < Pow2(top) && Up(pos, i) == q
    ensures Pow2(top) - 1 !in Interval(0, pos) + NodePages(i, q)
  {
    NextDigit(pages, i, top);
    assert pos == q * Pow2(i);
    GrowInterval(i, q, pos);
    assert Up(pages, i) * Pow2(i) == pos + Pow2(i);
  }

  lemma OpenPath(a: seq<nat>, top: nat, t: Buddy, i: nat, q: nat, pos: nat) returns (c: Path, b: Buddy)
    requires |a| > 0 && Norm(t, top) && Seen(a[0 := Val(t, top)], top, top, 0, Top, t, Interval(0, pos))
    requires i < top && pos == q * Pow2(i) < Pow2(top) && Up(pos, i) == q
    requires forall u :: u in Useds(t, top, 0) ==> u.0 == 0
    ensures Seen(a, top, i, q, c, b, Interval(0, pos))
    ensures Norm(b, i) && Val(b, i) == 0 && NormPath(c, i) && UsedsSeen(c, b, i, q) == Useds(t, top, 0)
  {
    var a0, F := a[0 := Val(t, top)], Interval(0, pos);
    NotFreeYet(a0, top, t, pos, i, q);
    TakenReached(t, top, 0, i, q, pos);
    hide Rep, RepPath, Pow2, Up, FreeSeen, FreeIn;
    c, b := FindPath(a0, top, top, 0, Top, t, F, i, q);
    NothingFree(a0, top, i, q, c, b, F);
    OtherRoot(a0, top, i, q, c, b, F, a[0]);
    assert a0[0 := a[0]] == a;
  }

  lemma NotFreeYet(a: seq<nat>, top: nat, t: Buddy, pos: nat, i: nat, q: nat)
    requires Norm(t, top) && Seen(a, top, top, 0, Top, t, Interval(0, pos))
    requires i < top && pos == q * Pow2(i) < Pow2(top) && Up(pos, i) == q
    ensures Below(i, q, top, 0) && Below(0, pos, i, q) && !FreeIn(t, top, 0, pos)
    ensures Interval(0, pos) !! NodePages(i, q)
  {
    hide Rep, RepPath, Pow2;
    UpUnique(pos, top, 0);
    NodeInside(top, i, q, pos);
    assert FreeSeen(Top, t, top, 0, pos) <==> pos in Interval(0, pos);
  }

  lemma NothingFree(a: seq<nat>, top: nat, k: nat, q: nat, c: Path, b: Buddy, F: set<nat>)
    requires Seen(a, top, k, q, c, b, F) && F !! NodePages(k, q)
    ensures Norm(b, k) && Val(b, k) == 0
  {
    assert forall x: nat :: x < Pow2(top) ==> (FreeSeen(c, b, k, q, x) <==> x in F);
    if Val(b, k) > 0 {
      var x := ValHasRun(b, k, q, 0);
      PagesInTree(top, k, q, x);
      InNodePages(k, q, x);
      assert Below(0, x, 0, x);
    }
  }

  /** The root's own byte does not matter to the tree seen from below. */
  lemma OtherRoot(a: seq<nat>, top: nat, k: nat, q: nat, c: Path, b: Buddy, F: set<nat>, v: nat)
    requires Seen(a, top, k, q, c, b, F) && k < top
    ensures |a| > 0 && Seen(a[0 := v], top, k, q, c, b, F)
  {
    Moves(top, top, 0);
    UpUnique(q, top - k, 0);
    PathFrame(a, top, k, q, c, top, 0, v);
    RepFrame(a, top, k, q, b, top, 0, v);
  }
}
