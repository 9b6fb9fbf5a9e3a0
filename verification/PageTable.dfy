/**
 The page-table editor: tables live in physical frames and are edited in place.
 */
module Paging {
  import opened Basics
  import opened PageTree
  import opened PageEdit
  import opened PageMemory
  import opened PageCovered
  import opened PageCreate
  import opened PageRemove
  import opened Physical

  /** The pages one address space covers: 27 bits of page number. */
  const VPN_LIMIT: nat := 0x800_0000

  lemma WholeNumber(vpn: nat)
    requires vpn < Span(3)
    ensures Span(3) == VPN_LIMIT && Offset(vpn, Span(2 + 1)) == vpn
  {
    assert Span(3) == ENTRIES * Span(2) && Span(2) == ENTRIES * Span(1) && Span(1) == ENTRIES;
  }

  /** Mapping is a functional update of the translation exactly when no superpage lies across the whole request. */
  lemma FunctionalUpdateIff(t: Tree, t': Tree, level: nat, o: nat, ppn: nat, n: nat, perm: Perm)
    requires Wf(t, level) && o + n <= Span(level + 1) && Done(t, t', level, o, ppn, n, perm)
    ensures (forall w :: 0 <= w < Span(level + 1) ==>
               Lookup(t', level, w) ==
               if o <= w < o + n then (if perm.v then Some(Target(ppn + (w - o), perm)) else None)
                 else Lookup(t, level, w))
            <==> !Straddled(t, level, o, n)
  {
    if Straddled(t, level, o, n) {
      LeafCovers(t, level, o - 1, o + n);
      assert Lookup(t', level, o + n) == Expect(t, level, o, ppn, n, perm, o + n);
    } else {
      forall w | 0 <= w < Span(level + 1)
        ensures Lookup(t', level, w) ==
                if o <= w < o + n then (if perm.v then Some(Target(ppn + (w - o), perm)) else None)
                  else Lookup(t, level, w)
      {
        assert Lookup(t', level, w) == Expect(t, level, o, ppn, n, perm, w);
      }
    }
  }

  // ----- tables without superpages

  lemma {:induction false} FineFind(t: Tree, level: nat, w: nat)
    requires Wf(t, level) && Fine(t, level) && w < Span(level + 1)
    ensures Find(t, level, w).Hit? ==> Find(t, level, w).level == 0
    decreases t
  {
    var s := Span(level);
    SlotOf(s, w);
    var i := w / s;
    FindAt(t, level, i, w % s);
    assert WfSlot(t.slots[i], level) && FineSlot(t.slots[i], level);
    if t.slots[i].Sub? {
      FineFind(t.slots[i].tree, level - 1, w % s);
    }
  }

  /** Without superpages nothing can be cut, so every unmapping succeeds and every mapping is a functional update. */
  lemma FineUncut(t: Tree, level: nat, o: nat, n: nat)
    requires Wf(t, level) && Fine(t, level) && o + n <= Span(level + 1)
    ensures Clean(t, level, o, o + n) && !Straddled(t, level, o, n)
  {
    if o > 0 {
      FineFind(t, level, o - 1);
    }
    if o + n > 0 {
      FineFind(t, level, o + n - 1);
    }
  }

  lemma {:induction false} FinePruned(t: Tree, level: nat, lo: int, hi: int)
    requires Wf(t, level) && Fine(t, level) && lo <= hi
    ensures Fine(Pruned(t, level, lo, hi), level)
    decreases t
  {
    var t' := Pruned(t, level, lo, hi);
    forall i | 0 <= i < |t'.slots| ensures FineSlot(t'.slots[i], level) {
      PrunedAt(t, level, lo, hi, i);
      assert FineSlot(t.slots[i], level);
      var a, b := lo - i * Span(level), hi - i * Span(level);
      if t.slots[i].Sub? && 0 < b && a < Span(level) {
        FinePruned(t.slots[i].tree, level - 1, Max(a, 0), Min(b, Span(level)));
      }
    }
  }

  /** Pages mapped where nothing was can be unmapped again: no superpage grows across the ends of the range. */
  lemma CreatedIsClean(t: Tree, t': Tree, level: nat, o: nat, ppn: nat, n: nat, perm: Perm)
    requires Wf(t, level) && o + n <= Span(level + 1) && Done(t, t', level, o, ppn, n, perm)
    requires Tidy(t) && n > 0 && perm.v && Unmapped(t, level, o, n)
    ensures Clean(t', level, o, o + n)
  {
    hide Pruned, Tidy, Wf, Done, Find, Unmapped, CutAt;
    DoneParts(t, t', level, o, ppn, n, perm);
    NoCutAtEnds(t', level);
    if o > 0 {
      CleanBefore(t, t', level, o, ppn, n, perm);
    }
    if o + n < Span(level + 1) {
      CleanBehind(t, t', level, o, ppn, n, perm);
    }
  }

  lemma CleanBefore(t: Tree, t': Tree, level: nat, o: nat, ppn: nat, n: nat, perm: Perm)
    requires Wf(t, level) && o + n <= Span(level + 1) && Done(t, t', level, o, ppn, n, perm)
    requires Tidy(t) && n > 0 && perm.v && Unmapped(t, level, o, n) && o > 0
    ensures Wf(t', level) && !CutAt(t', level, o)
  {
    hide Pruned, Tidy, Wf, Done, Find, Unmapped, Span;
    DoneParts(t, t', level, o, ppn, n, perm);
    DoneAt(t, t', level, o, ppn, n, perm, o - 1);
    NotAcross(t, t', level, o, o + n, o - 1);
  }

  lemma CleanBehind(t: Tree, t': Tree, level: nat, o: nat, ppn: nat, n: nat, perm: Perm)
    requires Wf(t, level) && o + n < Span(level + 1) && Done(t, t', level, o, ppn, n, perm)
    requires Tidy(t) && n > 0 && perm.v && Unmapped(t, level, o, n)
    ensures Wf(t', level) && !CutAt(t', level, o + n)
  {
    hide Pruned, Tidy, Wf, Done, Find, Unmapped, Span;
    DoneParts(t, t', level, o, ppn, n, perm);
    DoneAt(t, t', level, o, ppn, n, perm, o + n);
    if CutAt(t', level, o + n) {
      LeafCovers(t', level, o + n - 1, o + n);
    }
    NotAcross(t, t', level, o, o + n, o + n);
  }

  lemma DoneAt(t: Tree, t': Tree, level: nat, o: nat, ppn: nat, n: nat, perm: Perm, w: nat)
    requires Wf(t, level) && o + n <= Span(level + 1) && Done(t, t', level, o, ppn, n, perm) && w < Span(level + 1)
    ensures Wf(t', level) && Lookup(t', level, w) == Expect(t, level, o, ppn, n, perm, w)
  {
  }

  lemma DoneParts(t: Tree, t': Tree, level: nat, o: nat, ppn: nat, n: nat, perm: Perm)
    requires Wf(t, level) && o + n <= Span(level + 1) && Done(t, t', level, o, ppn, n, perm)
    ensures Wf(t', level) &&
            (Tidy(t) && n > 0 && perm.v && Unmapped(t, level, o, n) ==> Pruned(t', level, o, o + n) == t)
  {
    hide Pruned, Placed, Tidy, Wf, Find, Lookup, Expect;
  }

  /** A leaf that meets a pruned range is gone. */
  lemma NotAcross(t: Tree, t': Tree, level: nat, lo: nat, hi: nat, w: nat)
    requires Wf(t', level) && lo <= hi && Wf(t, level) && Pruned(t', level, lo, hi) == t && w < Span(level + 1)
    ensures var h := Find(t', level, w);
            h.Hit? && h.start < hi && lo < h.start + Span(h.level) ==> Lookup(t, level, w).None?
  {
    hide Wf, Pruned;
    var h := Find(t', level, w);
    if h.Hit? && h.start < hi && lo < h.start + Span(h.level) {
      PrunedTouched(t', level, lo, hi, w);
    }
  }

  /** Mapping a range where nothing was mapped and unmapping it again restores the tree and the frames it stands in. */
  lemma RoundTrip(m: Memory, f: set<Ppn>, m1: Memory, f1: set<Ppn>, m2: Memory, f2: set<Ppn>, t: Tree, t1: Tree,
                  t2: Tree, level: nat, o: nat, ppn: nat, n: nat, perm: Perm)
    requires Good(m, t, level) && o + n <= Span(level + 1) && f !! m.Keys
    requires Tidy(t) && n > 0 && perm.v && Unmapped(t, level, o, n)
    requires Carried(m, m1, t, t1, level, o, ppn, n, perm) && AllFrames(m1, f1) == AllFrames(m, f) && f1 !! m1.Keys
    requires Removed(m1, f1, m2, f2, t1, t2, level, o, o + n)
    ensures t2 == t && Good(m2, t, level) && m2.Keys == m.Keys && f2 == f
  {
    PagesInMemory(m, t, level);
    CoveredUnmapped(t, level, o, n);
  }

  /** The translation of page w after mapping [vpn, vpn + n) and leaving every other page alone. */
  ghost function Overwritten(t: Tree, vpn: nat, ppn: nat, n: nat, perm: Perm, w: nat): Option<Target>
    requires Wf(t, 2) && w < Span(3)
  {
    if vpn <= w < vpn + n then (if perm.v then Some(Target(ppn + (w - vpn), perm)) else None) else Lookup(t, 2, w)
  }

  /** The translation has been overwritten in the range, and nowhere else. */
  ghost predicate Updated(t: Tree, t': Tree, vpn: nat, ppn: nat, n: nat, perm: Perm) {
    && Wf(t, 2) && Wf(t', 2)
    && forall w :: 0 <= w < Span(3) ==> Lookup(t', 2, w) == Overwritten(t, vpn, ppn, n, perm, w)
  }

  lemma MappedIff(t: Tree, t': Tree, vpn: nat, ppn: nat, n: nat, perm: Perm)
    requires Wf(t, 2) && vpn + n <= Span(3) && Done(t, t', 2, vpn, ppn, n, perm)
    ensures Updated(t, t', vpn, ppn, n, perm) <==> !Straddled(t, 2, vpn, n)
  {
    FunctionalUpdateIff(t, t', 2, vpn, ppn, n, perm);
  }

  lemma DoneTidy(t: Tree, t': Tree, level: nat, o: nat, ppn: nat, n: nat, perm: Perm)
    requires Wf(t, level) && o + n <= Span(level + 1) && Done(t, t', level, o, ppn, n, perm)
    ensures t'.page == t.page && (Tidy(t) && n > 0 && perm.v ==> Tidy(t'))
  {
  }

  /** Besides this table's nodes, memory now also holds those the request has covered. */
  lemma CarriedFrames(m: Memory, m': Memory, t: Tree, t': Tree, level: nat, o: nat, ppn: nat, n: nat, perm: Perm)
    requires Good(m, t, level) && o + n <= Span(level + 1) && Carried(m, m', t, t', level, o, ppn, n, perm)
    ensures Untouched(m, m', t, t') && m'.Keys - Pages(t') == m.Keys - Pages(t) + Covered(t, level, o, o + n)
  {
    PagesInMemory(m, t, level);
    hide Good, Done, Pages, Covered;
  }

  /** Mapping leaves every node of the table in it exactly if no node below the root lies wholly in the range. */
  lemma NoNodeLostIff(m: Memory, m': Memory, t: Tree, t': Tree, o: nat, ppn: nat, n: nat, perm: Perm)
    requires Good(m, t, 2) && o + n <= Span(3) && Carried(m, m', t, t', 2, o, ppn, n, perm)
    ensures Pages(t) <= Pages(t') <==> forall p, b, l :: NodeAt(t, 2, p, b, l) ==> !Within(b, l, o, o + n)
    ensures forall p :: p in Pages(t) && p !in Pages(t') ==> p in m'
  {
    hide *;
    GoodWf(m, t, 2);
    GoodPages(m, t, 2);
    CarriedIs(m, m', t, t', 2, o, ppn, n, perm);
    SpentIs(m, m', t, t', 2, o, o + n);
    if Pages(t) <= Pages(t') {
      forall p, b, l | NodeAt(t, 2, p, b, l) ensures !Within(b, l, o, o + n) {
        CoveredIff(t, 2, o, o + n, p);
      }
    }
    if p :| p in Pages(t) && p !in Pages(t') {
      CoveredIff(t, 2, o, o + n, p);
    }
  }

  /** A table in which only the first page is mapped. */
  ghost function FirstPage(root: Ppn, mid: Ppn, low: Ppn, perm: Perm): Tree {
    WithSlot(Blank(root), 0, Sub(WithSlot(Blank(mid), 0, Sub(WithSlot(Blank(low), 0, Leaf(0, perm))))))
  }

  lemma FirstPageNode(root: Ppn, mid: Ppn, low: Ppn, perm: Perm)
    requires perm.v && perm.IsLeaf()
    ensures var t := FirstPage(root, mid, low, perm);
            Wf(t, 2) && Lookup(t, 2, 0) == Some(Target(0, perm)) && NodeAt(t, 2, low, 0, 0) && Within(0, 0, 0, 512)
  {
    var t0 := WithSlot(Blank(low), 0, Leaf(0, perm));
    var t1 := WithSlot(Blank(mid), 0, Sub(t0));
    var t := WithSlot(Blank(root), 0, Sub(t1));
    assert Span(1) == ENTRIES * Span(0);
    BlankMapsNothing(low, 0, 0);
    BlankMapsNothing(mid, 1, 0);
    BlankMapsNothing(root, 2, 0);
    WithSlotWf(Blank(low), 0, 0, Leaf(0, perm));
    WithSlotWf(Blank(mid), 1, 0, Sub(t0));
    WithSlotWf(Blank(root), 2, 0, Sub(t1));
    hide Wf, Find;
    assert NodeUnder(t1, 1, low, 0, 0, 0);
    assert NodeUnder(t, 2, low, 0, 0, 0);
    FindAt(t0, 0, 0, 0);
    FindAt(t1, 1, 0, 0);
    FindAt(t, 2, 0, 0);
  }

  /** Mapping the first 512 pages of such a table loses its lowest node: in memory, but in the table no more. */
  lemma LostNode(m: Memory, m': Memory, root: Ppn, mid: Ppn, low: Ppn, t': Tree, perm: Perm, ppn: nat, perm': Perm)
    requires perm.v && perm.IsLeaf() && Good(m, FirstPage(root, mid, low, perm), 2)
    requires 512 <= Span(3) && Carried(m, m', FirstPage(root, mid, low, perm), t', 2, 0, ppn, 512, perm')
    ensures low in Pages(FirstPage(root, mid, low, perm)) && low !in Pages(t') && low in m'
  {
    hide *;
    var t := FirstPage(root, mid, low, perm);
    FirstPageNode(root, mid, low, perm);
    GoodWf(m, t, 2);
    CoveredIff(t, 2, 0, 512, low);
    CoveredPages(t, 2, 0, 512);
    CarriedFrames(m, m', t, t', 2, 0, ppn, 512, perm');
  }

  class PageTable {
    const phys: Frames
    const root: Ppn
    ghost var tree: Tree

    ghost predicate Valid()
      reads this, phys
    {
      Good(phys.mem, tree, 2) && tree.page == root && phys.free !! phys.mem.Keys
    }

    constructor (phys: Frames)
      requires phys.free !! phys.mem.Keys && phys.free != {}
      modifies phys
      ensures Valid() && tree == Blank(root) && this.phys == phys && root in old(phys.free)
      ensures phys.mem == old(phys.mem)[root := seq(ENTRIES, _ => Pte(NO_PERM, 0))] &&
              phys.free == old(phys.free) - {root}
    {
      var p :| p in phys.free;
      phys.mem := phys.mem[p := seq(ENTRIES, _ => Pte(NO_PERM, 0))];
      phys.free := phys.free - {p};
      this.phys, root, tree := phys, p, Blank(p);
      new;
      BlankGood(phys.mem, p, 2);
    }

    /** Translate a page by walking the table; None where the kernel's assertion that the entry is valid fails. */
    method Trans(vpn: nat) returns (r: Option<nat>)
      requires Valid() && vpn < Span(3)
      ensures r == match Lookup(tree, 2, vpn) case None => None case Some(target) => Some(target.ppn)
    {
      hide Wf, WfSlot, Holds, Distinct, Lookup, Span, Offset, Index;
      ghost var t := tree;
      var table, level := root, 2;
      WholeNumber(vpn);
      while true
        invariant 0 <= level <= 2 && Good(phys.mem, t, level) && t.page == table
        invariant Offset(vpn, Span(level + 1)) < Span(level + 1)
        invariant Lookup(tree, 2, vpn) == Lookup(t, level, Offset(vpn, Span(level + 1)))
        decreases level
      {
        var i := Index(vpn, Span(level));
        WalkStep(t, level, vpn);
        ReadEntry(phys.mem, t, level, i);
        var entry := phys.mem[table][i];
        if !entry.perm.v {
          return None;
        }
        if entry.perm.IsLeaf() {
          return Some(entry.ppn + Offset(vpn, Span(level)));
        }
        table, level, t := entry.ppn, level - 1, t.slots[i].tree;
      }
    }

    /** Map a range of pages from the root. */
    method Map(vpn: nat, ppn: nat, pages: nat, perm: Perm) returns (ok: bool)
      requires Valid() && perm.Coherent() && ppn + pages <= PPN_LIMIT && vpn + pages <= Span(3) && vpn < Span(3)
      modifies this`tree, phys
      ensures (|old(phys.free)| > Need(2) ==> ok) && |phys.free| + Need(2) >= |old(phys.free)|
      ensures phys.free !! phys.mem.Keys && AllFrames(phys.mem, phys.free) == AllFrames(old(phys.mem), old(phys.free))
      ensures ok ==> Untouched(old(phys.mem), phys.mem, old(tree), tree)
      ensures ok ==> phys.mem.Keys - Pages(tree) ==
                     old(phys.mem).Keys - Pages(old(tree)) + Covered(old(tree), 2, vpn, vpn + pages)
      ensures ok ==> Valid() && Carried(old(phys.mem), phys.mem, old(tree), tree, 2, vpn, ppn, pages, perm)
      ensures ok ==> (Updated(old(tree), tree, vpn, ppn, pages, perm) <==> !Straddled(old(tree), 2, vpn, pages))
      ensures ok && pages > 0 && perm.v && Tidy(old(tree)) ==> Tidy(tree)
    {
      hide Good, Carried, Done, Pages, Covered, Lookup, Straddled, Wf, Tidy, Untouched, Updated;
      WholeNumber(vpn);
      ghost var t';
      ghost var m, t := phys.mem, tree;
      GoodWf(m, t, 2);
      ok, t' := CreateMapping(root, vpn, ppn, pages, perm, 2, tree);
      tree := t';
      if ok {
        CarriedDone(m, phys.mem, t, tree, 2, vpn, ppn, pages, perm);
        CarriedFrames(m, phys.mem, t, tree, 2, vpn, ppn, pages, perm);
        MappedIff(t, tree, vpn, ppn, pages, perm);
        DoneTidy(t, tree, 2, vpn, ppn, pages, perm);
      }
    }

    /** Unmap a range of pages from the root. */
    method Unmap(vpn: nat, pages: nat) returns (ok: bool)
      requires Valid() && vpn + pages <= Span(3) && vpn < Span(3)
      modifies this`tree, phys
      ensures ok <==> Clean(old(tree), 2, vpn, vpn + pages)
      ensures ok ==> AllFrames(phys.mem, phys.free) == AllFrames(old(phys.mem), old(phys.free))
      ensures ok ==> old(phys.free) <= phys.free
      ensures ok ==> Untouched(old(phys.mem), phys.mem, old(tree), tree)
      ensures ok ==> phys.mem.Keys - Pages(tree) == old(phys.mem).Keys - Pages(old(tree))
      ensures ok ==> Valid()
      ensures ok ==> Removed(old(phys.mem), old(phys.free), phys.mem, phys.free, old(tree), tree, 2, vpn, vpn + pages)
      ensures ok ==> forall w :: 0 <= w < Span(3) ==>
                Lookup(tree, 2, w) == if vpn <= w < vpn + pages then None else Lookup(old(tree), 2, w)
      ensures ok && Tidy(old(tree)) ==> Tidy(tree)
    {
      WholeNumber(vpn);
      ghost var t' := tree;
      ghost var t := tree;
      ok, t' := RemoveMapping(root, vpn, pages, 2, tree);
      tree := t';
      if ok {
        PagesInMemory(old(phys.mem), t, 2);
        PrunedShape(t, 2, vpn, vpn + pages);
        forall w | 0 <= w < Span(3)
          ensures Lookup(tree, 2, w) == if vpn <= w < vpn + pages then None else Lookup(t, 2, w)
        {
          PrunedLookup(t, 2, vpn, vpn + pages, w);
        }
      }
    }

    /** A mapping made where nothing was and taken out again, as for a window on a memory object, leaves no trace. */
    method MapAndUnmap(vpn: nat, ppn: nat, pages: nat, perm: Perm) returns (ok: bool)
      requires Valid() && perm.Coherent() && ppn + pages <= PPN_LIMIT && vpn + pages <= Span(3)
      requires pages > 0 && perm.v && Tidy(tree) && Unmapped(tree, 2, vpn, pages)
      modifies this`tree, phys
      ensures |old(phys.free)| > Need(2) ==> ok
      ensures ok ==> Valid() && tree == old(tree) && phys.mem.Keys == old(phys.mem).Keys && phys.free == old(phys.free)
      ensures ok ==> forall p :: p in phys.mem && p !in Pages(tree) ==> phys.mem[p] == old(phys.mem)[p]
    {
      hide Good, Carried, Removed, Wf, Tidy, Unmapped, Done, Clean, Lookup, Straddled, Pages;
      ghost var m, f, t := phys.mem, phys.free, tree;
      GoodWf(m, t, 2);
      ok := Map(vpn, ppn, pages, perm);
      if ok {
        ghost var m1, f1, t1 := phys.mem, phys.free, tree;
        CarriedDone(m, m1, t, t1, 2, vpn, ppn, pages, perm);
        CreatedIsClean(t, t1, 2, vpn, ppn, pages, perm);
        ok := Unmap(vpn, pages);
        RoundTrip(m, f, m1, f1, phys.mem, phys.free, t, t1, tree, 2, vpn, ppn, pages, perm);
        UntouchedTrans(m, m1, phys.mem, t, t1, tree);
      }
    }

    /** The allocator hands out a frame, cleared; without one the kernel panics. */
    method CreatePTNode() returns (ok: bool, p: Ppn)
      requires phys.free !! phys.mem.Keys
      modifies phys
      ensures ok <==> old(phys.free) != {}
      ensures ok ==> p in old(phys.free) && phys.free == old(phys.free) - {p}
      ensures ok ==> phys.mem == old(phys.mem)[p := seq(ENTRIES, _ => Pte(NO_PERM, 0))]
      ensures phys.free !! phys.mem.Keys && AllFrames(phys.mem, phys.free) == AllFrames(old(phys.mem), old(phys.free))
      ensures |phys.free| + 1 >= |old(phys.free)|
      ensures !ok ==> phys.free == old(phys.free) && phys.mem == old(phys.mem)
    {
      ok, p := phys.free != {}, 0;
      if ok {
        p :| p in phys.free;
        TakeFrame(phys.mem, phys.free, p, seq(ENTRIES, _ => Pte(NO_PERM, 0)));
        phys.free := phys.free - {p};
        phys.mem := phys.mem[p := seq(ENTRIES, _ => Pte(NO_PERM, 0))];
      }
    }

    /**
     Map [vpn, vpn + pages) to ppn on in the node `table`.  Returns false only when the allocator is exhausted.
     */
    method CreateMapping(table: Ppn, vpn: nat, ppn: nat, pages: nat, perm: Perm, level: nat, ghost t: Tree)
      returns (ok: bool, ghost t': Tree)
      requires level <= 2 && Good(phys.mem, t, level) && t.page == table && phys.free !! phys.mem.Keys
      requires perm.Coherent() && ppn + pages <= PPN_LIMIT
      requires Offset(vpn, Span(level + 1)) + pages <= Span(level + 1)
      modifies phys
      ensures phys.free !! phys.mem.Keys && AllFrames(phys.mem, phys.free) == AllFrames(old(phys.mem), old(phys.free))
      ensures |phys.free| + Need(level) >= |old(phys.free)|
      ensures !ok ==> phys.free == {}
      ensures ok ==> Carried(old(phys.mem), phys.mem, t, t', level, Offset(vpn, Span(level + 1)), ppn, pages, perm)
      decreases level, 2
    {
      hide *;
      var s := Span(level);
      ghost var o, k, started := Offset(vpn, Span(level + 1)), Index(vpn, s), false;
      var v, p, n := vpn, ppn, pages;
      var unaligned := Offset(v, s);
      ok, t' := true, t;
      TablePosition(vpn, level);
      PartNeedIs(level);
      ProgressStep(phys.mem, phys.mem, t, t, level, o, ppn, 0, perm);
      if unaligned != 0 {
        var partial := if s - unaligned < pages then s - unaligned else pages;
        SplitInside(v, partial, s);
        ok, t' := Descend(table, v, p, partial, perm, v - unaligned, 0, unaligned, level, t);
        if !ok {
          return;
        }
        ProgressStep(old(phys.mem), phys.mem, t, t', level, o, ppn, partial, perm);
        v, p, n, k, started := v + partial, p + partial, n - partial, k + 1, true;
      }
      if n > 0 {
        Advance(vpn, pages - n, level, k);
      }
      var i := Index(v, s);
      while n >= s
        invariant 0 <= n <= pages && v == vpn + (pages - n) && p == ppn + (pages - n)
        invariant n > 0 ==> o + (pages - n) == Start(k, level) && i == k && (started ==> n < pages)
        invariant started || o == Start(k, level)
        invariant Progress(old(phys.mem), phys.mem, t, t', level, o, ppn, pages - n, perm, started)
        invariant phys.free !! phys.mem.Keys &&
                  AllFrames(phys.mem, phys.free) == AllFrames(old(phys.mem), old(phys.free))
        invariant |phys.free| + PartNeed(level) >= |old(phys.free)|
      {
        Advance(vpn, pages - n, level, k);
        ProgressLeaf(old(phys.mem), phys.mem, t, t', level, o, ppn, pages - n, perm, started, k);
        EditFrames(phys.mem, phys.free, table, phys.mem[table][i := Pte(perm, p)]);
        phys.mem := phys.mem[table := phys.mem[table][i := Pte(perm, p)]];
        t' := WithSlot(t', i, Stored(p, perm));
        ProgressStep(old(phys.mem), phys.mem, t, t', level, o, ppn, pages - n + s, perm);
        i, v, p, n, k, started := i + 1, v + s, p + s, n - s, k + 1, true;
      }
      if n > 0 {
        ghost var m1, t1 := phys.mem, t';
        Advance(vpn, pages - n, level, k);
        ProgressGood(old(phys.mem), phys.mem, t, t', level, o, ppn, pages - n, perm, started);
        SplitInside(v, n, s);
        ok, t' := Descend(table, v, p, n, perm, v + n, n, s - n, level, t1);
        if ok {
          CarriedOn(old(phys.mem), m1, phys.mem, t, t1, t', level, o, ppn, pages - n, n, perm, k, started);
        }
      } else if started {
        ProgressStep(old(phys.mem), phys.mem, t, t', level, o, ppn, pages, perm);
      } else {
        ProgressGood(old(phys.mem), phys.mem, t, t', level, o, ppn, pages - n, perm, started);
        CarriedNothing(phys.mem, t, level, o, ppn, perm, k);
      }
    }

    /** Pass a request inside one slot on to the node below it, making that node first if there is none. */
    method Descend(table: Ppn, vpn: nat, ppn: nat, n: nat, perm: Perm,
                   keepVpn: nat, keepOff: nat, keepPages: nat, level: nat, ghost t: Tree)
      returns (ok: bool, ghost t': Tree)
      requires 0 < level <= 2 && Good(phys.mem, t, level) && t.page == table && phys.free !! phys.mem.Keys
      requires perm.Coherent() && ppn + n <= PPN_LIMIT
      requires Offset(vpn, Span(level)) + n <= Span(level)
      requires Offset(vpn, Span(level)) > 0 || 0 < n < Span(level)
      requires if Offset(vpn, Span(level)) > 0
               then keepVpn == vpn - Offset(vpn, Span(level)) && keepOff == 0 && keepPages == Offset(vpn, Span(level))
               else keepVpn == vpn + n && keepOff == n && keepPages == Span(level) - n
      modifies phys
      ensures phys.free !! phys.mem.Keys && AllFrames(phys.mem, phys.free) == AllFrames(old(phys.mem), old(phys.free))
      ensures |phys.free| + PartNeed(level) >= |old(phys.free)|
      ensures !ok ==> phys.free == {}
      ensures ok ==>
                && Offset(vpn, Span(level + 1)) + n <= Span(level + 1)
                && Carried(old(phys.mem), phys.mem, t, t', level, Offset(vpn, Span(level + 1)), ppn, n, perm)
      decreases level, 1
    {
      hide *;
      var s := Span(level);
      var i := Index(vpn, s);
      t' := t;
      TablePosition(vpn, level);
      PartNeedIs(level);
      SplitInside(vpn, n, s);
      var sub: Ppn;
      ghost var s0;
      ok, sub, s0 := Enter(table, i, keepVpn, keepOff, keepPages, level, t, Offset(vpn, s), n);
      if !ok {
        return;
      }
      ghost var m1, s1 := phys.mem, s0;
      PointedGood(old(phys.mem), phys.mem, t, i, s0, level);
      ok, s1 := CreateMapping(sub, vpn, ppn, n, perm, level - 1, s0);
      if !ok {
        return;
      }
      ReadEntry(old(phys.mem), t, level, i);
      t' := WithSlot(t, i, Sub(s1));
      DescendCarried(old(phys.mem), m1, phys.mem, t, level, i, s0, s1, Offset(vpn, s), ppn, n, perm);
    }

    /** Find or make the node below a slot; a superpage there is broken up first. */
    method Enter(table: Ppn, i: nat, keepVpn: nat, keepOff: nat, keepPages: nat, level: nat, ghost t: Tree,
                 ghost r0: nat, ghost n: nat)
      returns (ok: bool, sub: Ppn, ghost s0: Tree)
      requires 0 < level <= 2 && i < ENTRIES && Good(phys.mem, t, level) && t.page == table &&
               phys.free !! phys.mem.Keys
      requires r0 + n <= Span(level) && (r0 > 0 || n < Span(level))
      requires if r0 > 0 then keepOff == 0 && keepPages == r0 else keepOff == n && keepPages == Span(level) - n
      requires Offset(keepVpn, Span(level)) == keepOff
      modifies phys
      ensures phys.free !! phys.mem.Keys && AllFrames(phys.mem, phys.free) == AllFrames(old(phys.mem), old(phys.free))
      ensures |phys.free| + 1 + Need(level - 1) >= |old(phys.free)|
      ensures !ok ==> phys.free == {}
      ensures ok ==>
                && s0.page == sub
                && WfSlot(t.slots[i], level) && Entered(t.slots[i], level, s0, sub, r0, n)
                && Pointed(old(phys.mem), phys.mem, t, i, s0, level)
      decreases level, 0
    {
      hide *;
      ReadEntry(phys.mem, t, level, i);
      var entry := phys.mem[table][i];
      s0 := t;
      if entry.perm.v && !entry.perm.IsLeaf() {
        ok, sub := true, entry.ppn;
        s0 := t.slots[i].tree;
        EnterSub(phys.mem, t, level, i, r0, n);
      } else {
        ok, sub := CreatePTNode();
        if !ok {
          return;
        }
        s0 := Blank(sub);
        ghost var m1 := phys.mem;
        if entry.perm.v && entry.perm.IsLeaf() {
          var pointer := entry.(perm := entry.perm.(r := false, w := false, x := false));
          EditFrames(phys.mem, phys.free, table, phys.mem[table][i := pointer]);
          phys.mem := phys.mem[table := phys.mem[table][i := pointer]];
          m1 := phys.mem;
          BlankGood(phys.mem, sub, level - 1);
          ok, s0 := CreateMapping(sub, keepVpn, entry.ppn + keepOff, keepPages, entry.perm, level - 1, s0);
          if !ok {
            return;
          }
          EnterLeaf(old(phys.mem), m1, phys.mem, t, level, i, sub, s0, r0, n);
        } else {
          EnterEmpty(old(phys.mem), m1, t, level, i, sub, r0, n);
        }
        EditFrames(phys.mem, phys.free, table, phys.mem[table][i := Pte(phys.mem[table][i].perm.(v := true), sub)]);
        phys.mem := phys.mem[table := phys.mem[table][i := Pte(phys.mem[table][i].perm.(v := true), sub)]];
      }
    }

    /** Give a node back to the allocator if none of its entries is valid. */
    method FreePTNode(table: Ppn, ghost t: Tree, ghost level: nat) returns (freed: bool)
      requires Good(phys.mem, t, level) && t.page == table
      modifies phys
      ensures freed <==> AllEmpty(t)
      ensures freed ==> phys.mem == old(phys.mem) - {table} && phys.free == old(phys.free) + {table}
      ensures !freed ==> phys.mem == old(phys.mem) && phys.free == old(phys.free)
    {
      hide Wf, Holds, Distinct, Good;
      ReadEntry(phys.mem, t, level, 0);
      for i := 0 to ENTRIES
        invariant phys.mem == old(phys.mem) && phys.free == old(phys.free)
        invariant forall j :: 0 <= j < i ==> t.slots[j].Empty?
      {
        ReadEntry(phys.mem, t, level, i);
        if phys.mem[table][i].perm.v {
          return false;
        }
      }
      phys.mem := phys.mem - {table};
      phys.free := phys.free + {table};
      freed := true;
    }

    /**
     Unmap [vpn, vpn + pages) in the node `table`.  Returns false where the kernel's assertions fail: exactly when a
     superpage lies across one end of the range.
     */
    method RemoveMapping(table: Ppn, vpn: nat, pages: nat, level: nat, ghost t: Tree)
      returns (ok: bool, ghost t': Tree)
      requires Good(phys.mem, t, level) && t.page == table
      requires Offset(vpn, Span(level + 1)) + pages <= Span(level + 1)
      modifies phys
      ensures ok <==> Clean(t, level, Offset(vpn, Span(level + 1)), Offset(vpn, Span(level + 1)) + pages)
      ensures ok ==> Removed(old(phys.mem), old(phys.free), phys.mem, phys.free, t, t', level,
                             Offset(vpn, Span(level + 1)), Offset(vpn, Span(level + 1)) + pages)
      decreases level, 2
    {
      hide *;
      var s := Span(level);
      ghost var o, k := Offset(vpn, Span(level + 1)), Index(vpn, s);
      var v, n := vpn, pages;
      var unaligned := Offset(v, s);
      ok, t' := true, t;
      TablePosition(vpn, level);
      GoodWf(phys.mem, t, level);
      if unaligned != 0 {
        var partial := if s - unaligned < pages then s - unaligned else pages;
        ok, t' := RemovePart(table, v, partial, level, t);
        if !ok {
          if partial < pages {
            RefusedEarly(t, level, o, k + 1, o + pages);
          }
          return;
        }
        GoneIs(old(phys.mem), old(phys.free), phys.mem, phys.free, t, t', level, o, o + partial);
        v, n, k := v + partial, n - partial, k + 1;
      } else {
        GoneStart(phys.mem, phys.free, t, level, k);
      }
      if n > 0 {
        Advance(vpn, pages - n, level, k);
      }
      var i := Index(v, s);
      while n >= s
        invariant 0 <= n <= pages && v == vpn + (pages - n)
        invariant n > 0 ==> o + (pages - n) == Start(k, level) && i == k
        invariant Gone(old(phys.mem), old(phys.free), phys.mem, phys.free, t, t', level, o, o + (pages - n))
      {
        Advance(vpn, pages - n, level, k);
        GoneIs(old(phys.mem), old(phys.free), phys.mem, phys.free, t, t', level, o, o + (pages - n));
        ghost var m1, f1, t1 := phys.mem, phys.free, t';
        t' := RemoveSlot(table, i, v, level, t1);
        GoneOn(old(phys.mem), old(phys.free), m1, f1, phys.mem, phys.free, t, t1, t', level, o, k, Start(k + 1, level));
        i, v, n, k := i + 1, v + s, n - s, k + 1;
      }
      GoneIs(old(phys.mem), old(phys.free), phys.mem, phys.free, t, t', level, o, o + (pages - n));
      if n > 0 {
        ghost var m1, f1, t1 := phys.mem, phys.free, t';
        Advance(vpn, pages - n, level, k);
        ok, t' := RemovePart(table, v, n, level, t1);
        GoneOn(old(phys.mem), old(phys.free), m1, f1, phys.mem, phys.free, t, t1, t', level, o, k, o + pages);
        GoneIs(m1, f1, phys.mem, phys.free, t1, t', level, Start(k, level), o + pages);
        GoneIs(old(phys.mem), old(phys.free), phys.mem, phys.free, t, t', level, o, o + pages);
      }
    }

    /** Unmap one whole slot.  The node below it is empty afterwards, so freeing it never fails. */
    method RemoveSlot(table: Ppn, i: nat, vpn: nat, level: nat, ghost t: Tree) returns (ghost t': Tree)
      requires Good(phys.mem, t, level) && t.page == table && i < ENTRIES
      requires Offset(vpn, Span(level)) == 0 && Start(i + 1, level) <= Span(level + 1)
      modifies phys
      ensures Start(i, level) <= Start(i + 1, level)
      ensures Gone(old(phys.mem), old(phys.free), phys.mem, phys.free, t, t', level, Start(i, level),
              Start(i + 1, level))
      decreases level, 0
    {
      hide *;
      var s := Span(level);
      ghost var m0, f0 := phys.mem, phys.free;
      GoodWf(phys.mem, t, level);
      CleanSlots(t, level, i);
      SlotEnd(i, level);
      ReadEntry(phys.mem, t, level, i);
      var entry := phys.mem[table][i];
      if entry.perm.v {
        if entry.perm.IsLeaf() {
          LeafRemoved(phys.mem, phys.free, t, level, i, entry.(perm := NO_PERM));
        } else {
          ghost var sub := t.slots[i].tree;
          GoodWf(phys.mem, sub, level - 1);
          WholeClean(sub, level - 1);
          var ok;
          ghost var s1;
          ok, s1 := RemoveMapping(entry.ppn, vpn, s, level - 1, sub);
          ghost var m1, f1 := phys.mem, phys.free;
          WholeRemoved(m0, f0, m1, f1, sub, s1, level - 1);
          var freed := FreePTNode(entry.ppn, s1, level - 1);
          assert ok && freed;
          SubFreed(m0, f0, m1, f1, t, level, i, s1, 0, s, entry.(perm := NO_PERM));
        }
        phys.mem := phys.mem[table := phys.mem[table][i := entry.(perm := NO_PERM)]];
        t' := WithSlot(t, i, Empty);
      } else {
        EmptyRemoved(phys.mem, phys.free, t, level, i, 0, s);
        t' := t;
      }
      GoneIs(m0, f0, phys.mem, phys.free, t, t', level, Start(i, level), Start(i + 1, level));
    }

    /** Unmap a range inside one slot, but not all of it. */
    method RemovePart(table: Ppn, vpn: nat, n: nat, level: nat, ghost t: Tree)
      returns (ok: bool, ghost t': Tree)
      requires level > 0 && Good(phys.mem, t, level) && t.page == table
      requires Offset(vpn, Span(level)) + n <= Span(level)
      requires Offset(vpn, Span(level)) > 0 || 0 < n < Span(level)
      modifies phys
      ensures Offset(vpn, Span(level + 1)) + n <= Span(level + 1)
      ensures ok <==> Clean(t, level, Offset(vpn, Span(level + 1)), Offset(vpn, Span(level + 1)) + n)
      ensures ok ==> Removed(old(phys.mem), old(phys.free), phys.mem, phys.free, t, t', level,
                             Offset(vpn, Span(level + 1)), Offset(vpn, Span(level + 1)) + n)
      decreases level, 0
    {
      hide *;
      var s := Span(level);
      var i := Index(vpn, s);
      ghost var r0 := Offset(vpn, s);
      TablePosition(vpn, level);
      GoodWf(phys.mem, t, level);
      CleanSlot(t, level, i, r0, n);
      ReadEntry(phys.mem, t, level, i);
      var entry := phys.mem[table][i];
      ok, t' := true, t;
      if entry.perm.v {
        if entry.perm.IsLeaf() {
          return false, t;
        }
        ghost var m0, f0, s1 := phys.mem, phys.free, t;
        ok, s1 := RemoveMapping(entry.ppn, vpn, n, level - 1, t.slots[i].tree);
        if !ok {
          return;
        }
        ghost var m1, f1 := phys.mem, phys.free;
        RemovedGood(m0, f0, m1, f1, t.slots[i].tree, s1, level - 1, r0, r0 + n);
        var freed := FreePTNode(entry.ppn, s1, level - 1);
        if freed {
          SubFreed(m0, f0, m1, f1, t, level, i, s1, r0, n, entry.(perm := NO_PERM));
          phys.mem := phys.mem[table := phys.mem[table][i := entry.(perm := NO_PERM)]];
          t' := WithSlot(t, i, Empty);
        } else {
          SubRemoved(m0, f0, m1, f1, t, level, i, s1, r0, n);
          t' := WithSlot(t, i, Sub(s1));
        }
      } else {
        EmptyRemoved(phys.mem, phys.free, t, level, i, r0, n);
      }
    }
  }
}
