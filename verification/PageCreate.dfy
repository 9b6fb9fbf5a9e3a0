/**
 Creating mappings: the values memory goes through (see `PageTree.Done`).
 */
module PageCreate {
  import opened PageTree
  import opened PageEdit
  import opened PageMemory
  import opened PageCovered

  /** Frames outside the edited tree keep their contents, and nodes are added only in frames that were free. */
  ghost predicate Kept(m: Memory, m': Memory, t: Tree, t': Tree) {
    && t'.page == t.page && m.Keys <= m'.Keys
    && (forall p :: p in m && p !in Pages(t) ==> m'[p] == m[p])
    && (forall p :: p in Pages(t') && p in m ==> p in Pages(t))
  }

  /** Every frame taken is a node of the new tree; the nodes in [lo, hi) are in it no more, but stay where they are. */
  ghost predicate Spent(m: Memory, m': Memory, t: Tree, t': Tree, level: nat, lo: int, hi: int) {
    m'.Keys == m.Keys + Pages(t') && Pages(t) - Pages(t') == Covered(t, level, lo, hi)
  }

  /** The request has been carried out, in the tree and in memory. */
  ghost predicate Carried(m: Memory, m': Memory, t: Tree, t': Tree, level: nat, o: nat, ppn: nat, n: nat, perm: Perm)
    requires Wf(t, level) && o + n <= Span(level + 1)
  {
    && Good(m', t', level)
    && Done(t, t', level, o, ppn, n, perm)
    && Kept(m, m', t, t')
    && Spent(m, m', t, t', level, o, o + n)
  }

  lemma CarriedIs(m: Memory, m': Memory, t: Tree, t': Tree, level: nat, o: nat, ppn: nat, n: nat, perm: Perm)
    requires Wf(t, level) && o + n <= Span(level + 1)
    ensures Carried(m, m', t, t', level, o, ppn, n, perm) <==>
            && Good(m', t', level) && Done(t, t', level, o, ppn, n, perm) && Kept(m, m', t, t')
            && Spent(m, m', t, t', level, o, o + n)
  {
  }

  lemma CarriedDone(m: Memory, m': Memory, t: Tree, t': Tree, level: nat, o: nat, ppn: nat, n: nat, perm: Perm)
    requires Wf(t, level) && o + n <= Span(level + 1) && Carried(m, m', t, t', level, o, ppn, n, perm)
    ensures Good(m', t', level) && Wf(t', level) && Done(t, t', level, o, ppn, n, perm)
  {
  }

  lemma DonePlaced(t: Tree, t': Tree, level: nat, o: nat, ppn: nat, n: nat, perm: Perm)
    requires Wf(t, level) && o + n <= Span(level + 1) && Done(t, t', level, o, ppn, n, perm)
    ensures Wf(t', level) && Placed(t, t', level, o, o + n)
  {
  }

  lemma CarriedOn(m: Memory, m1: Memory, m2: Memory, t: Tree, t1: Tree, t2: Tree, level: nat, o: nat, ppn: nat,
                  a: nat, b: nat, perm: Perm, k: nat, started: bool)
    requires Good(m, t, level) && o + a + b <= Span(level + 1) && b > 0 && o + a == Start(k, level)
    requires Progress(m, m1, t, t1, level, o, ppn, a, perm, started) && (started ==> a > 0)
    requires Good(m1, t1, level) && Carried(m1, m2, t1, t2, level, o + a, ppn + a, b, perm)
    ensures Carried(m, m2, t, t2, level, o, ppn, a + b, perm)
  {
    hide *;
    GoodWf(m, t, level);
    ProgressGood(m, m1, t, t1, level, o, ppn, a, perm, started);
    ProgressStep(m, m1, t, t1, level, o, ppn, a, perm);
    if a > 0 {
      CarriedIs(m, m1, t, t1, level, o, ppn, a, perm);
      CarriedIs(m1, m2, t1, t2, level, o + a, ppn + a, b, perm);
      DonePlaced(t, t1, level, o, ppn, a, perm);
      StartIs(k, level);
      KeptOn(m, m1, m2, t, t1, t2);
      Compose(t, t1, t2, level, o, ppn, a, b, perm, k);
      SpentOn(m, m1, m2, t, t1, t2, level, o, k, o + a + b);
      CarriedIs(m, m2, t, t2, level, o, ppn, a + b, perm);
    }
  }

  lemma StartIs(k: nat, level: nat)
    ensures Start(k, level) == k * Span(level)
  {
  }

  lemma KeptOn(m: Memory, m1: Memory, m2: Memory, t: Tree, t1: Tree, t2: Tree)
    requires Kept(m, m1, t, t1) && Kept(m1, m2, t1, t2)
    ensures Kept(m, m2, t, t2)
  {
    hide Pages;
  }

  /** What two requests that meet at a slot boundary leave behind. */
  lemma SpentOn(m: Memory, m1: Memory, m2: Memory, t: Tree, t1: Tree, t2: Tree, level: nat, o: nat, k: nat, end: nat)
    requires Good(m, t, level) && Wf(t1, level) && o <= Start(k, level) <= end
    requires Kept(m, m1, t, t1) && Kept(m1, m2, t1, t2) && Placed(t, t1, level, o, Start(k, level))
    requires Spent(m, m1, t, t1, level, o, Start(k, level)) && Spent(m1, m2, t1, t2, level, Start(k, level), end)
    ensures Spent(m, m2, t, t2, level, o, end)
  {
    PagesInMemory(m, t, level);
    forall i | k <= i < ENTRIES ensures t1.slots[i] == t.slots[i] {
      MulMono(k, i, Span(level));
      assert !Touched(level, i, o, Start(k, level));
    }
    CoveredSame(t, t1, level, k, end);
    CoveredSplit(t, level, o, k, end);
    CoveredPages(t, level, Start(k, level), end);
    hide Pages, Covered, Holds, Wf, Distinct, Placed;
  }

  /** Storing a leaf entry carries out a request for one whole slot. */
  lemma StoreLeaf(m: Memory, t: Tree, level: nat, i: nat, ppn: Ppn, perm: Perm)
    requires Good(m, t, level) && i < ENTRIES && perm.Coherent() && ppn + Span(level) <= PPN_LIMIT
    ensures t.page in m && |m[t.page]| == ENTRIES == |t.slots| && Start(i, level) + Span(level) <= Span(level + 1)
    ensures Carried(m, m[t.page := m[t.page][i := Pte(perm, ppn)]], t, WithSlot(t, i, Stored(ppn, perm)), level,
                    Start(i, level), ppn, Span(level), perm)
  {
    hide Good, Done, Kept, Spent, Wf, Carried, Span, Stored;
    GoodWf(m, t, level);
    WholeSlot(t, level, i, ppn, perm);
    StoreGood(m, t, level, i, ppn, perm);
    StoreSpent(m, t, level, i, ppn, perm);
    CarriedIs(m, m[t.page := m[t.page][i := Pte(perm, ppn)]], t, WithSlot(t, i, Stored(ppn, perm)), level,
              Start(i, level), ppn, Span(level), perm);
  }

  lemma StoreGood(m: Memory, t: Tree, level: nat, i: nat, ppn: Ppn, perm: Perm)
    requires Good(m, t, level) && i < ENTRIES && perm.Coherent() && ppn + Span(level) <= PPN_LIMIT
    ensures t.page in m && |m[t.page]| == ENTRIES == |t.slots|
    ensures Good(m[t.page := m[t.page][i := Pte(perm, ppn)]], WithSlot(t, i, Stored(ppn, perm)), level)
  {
    ReadEntry(m, t, level, i);
    hide Wf, Holds, Distinct, Pages;
    var m' := m[t.page := m[t.page][i := Pte(perm, ppn)]];
    SetSlot(m, m', t, level, i, Stored(ppn, perm), Pte(perm, ppn));
  }

  lemma StoredPages(ppn: Ppn, perm: Perm)
    ensures SlotPages(Stored(ppn, perm)) == {}
  {
  }

  lemma OwnPage(t: Tree)
    ensures t.page in Pages(t)
  {
  }

  lemma StoreSpent(m: Memory, t: Tree, level: nat, i: nat, ppn: Ppn, perm: Perm)
    requires Good(m, t, level) && i < ENTRIES && t.page in m && |m[t.page]| == ENTRIES == |t.slots|
    ensures var m' := m[t.page := m[t.page][i := Pte(perm, ppn)]];
            var t' := WithSlot(t, i, Stored(ppn, perm));
            Kept(m, m', t, t') && Spent(m, m', t, t', level, Start(i, level), Start(i, level) + Span(level))
  {
    hide Wf, Holds, Distinct, Pages, SlotPages, Covered, Span, Stored, Kept, Spent;
    StoredPages(ppn, perm);
    GoodWf(m, t, level);
    PagesInMemory(m, t, level);
    CoveredWhole(t, level, i);
    WithSlotPages(m, t, level, i, Stored(ppn, perm));
    OwnPage(t);
    NodeStored(m, t, WithSlot(t, i, Stored(ppn, perm)), m[t.page][i := Pte(perm, ppn)], SlotPages(t.slots[i]), level,
               Start(i, level), Start(i, level) + Span(level));
  }

  /** One node has been written, and the nodes below one of its slots are in the tree no more. */
  lemma NodeStored(m: Memory, t: Tree, t': Tree, node: seq<Pte>, gone: set<Ppn>, level: nat, lo: int, hi: int)
    requires t.page in m && t'.page == t.page && t.page in Pages(t) && Pages(t) <= m.Keys
    requires gone <= Pages(t) && Pages(t') == Pages(t) - gone && Covered(t, level, lo, hi) == gone
    ensures Kept(m, m[t.page := node], t, t') && Spent(m, m[t.page := node], t, t', level, lo, hi)
  {
    hide Pages, Covered;
  }

  /** The entry at i has become a pointer to s0, a node either already there or made in free frames. */
  ghost predicate Pointed(m: Memory, m': Memory, t: Tree, i: nat, s0: Tree, level: nat)
    requires Good(m, t, level) && i < ENTRIES && level > 0
  {
    && Good(m', s0, level - 1)
    && m'.Keys == m.Keys + Pages(s0) && t.page in m'
    && (forall p :: p in m && p != t.page ==> m'[p] == m[p])
    && |m'[t.page]| == ENTRIES && m'[t.page] == m[t.page][i := m'[t.page][i]]
    && m'[t.page][i].perm.v && !m'[t.page][i].perm.IsLeaf() && m'[t.page][i].ppn == s0.page
    && if t.slots[i].Sub? then s0 == t.slots[i].tree else Pages(s0) !! m.Keys
  }

  lemma PointedGood(m: Memory, m': Memory, t: Tree, i: nat, s0: Tree, level: nat)
    requires level > 0 && Good(m, t, level) && i < ENTRIES && Pointed(m, m', t, i, s0, level)
    ensures Good(m', s0, level - 1)
  {
  }

  lemma FreshKept(m: Memory, m1: Memory, m2: Memory, s0: Tree)
    requires s0.page !in m && m1.Keys == m.Keys + {s0.page} && Kept(m1, m2, Blank(s0.page), s0)
    ensures s0.page in Pages(s0) && Pages(s0) !! m.Keys && m.Keys <= m2.Keys
    ensures forall p :: p in m ==> m2[p] == m1[p]
  {
    assert Pages(Blank(s0.page)) == {s0.page};
  }

  /** Making the node below a slot in a free frame, possibly filling it, and pointing the entry at it. */
  lemma FreshPointed(m: Memory, m1: Memory, m2: Memory, t: Tree, level: nat, i: nat, s0: Tree)
    requires level > 0 && Good(m, t, level) && i < ENTRIES && !t.slots[i].Sub?
    requires t.page in m && |m[t.page]| == ENTRIES
    requires s0.page !in m && m1.Keys == m.Keys + {s0.page}
    requires forall p :: p in m && p != t.page ==> m1[p] == m[p]
    requires |m1[t.page]| == ENTRIES && m1[t.page] == m[t.page][i := m1[t.page][i]] && !m1[t.page][i].perm.IsLeaf()
    requires Good(m2, s0, level - 1) && m2.Keys == m1.Keys + Pages(s0)
    requires Kept(m1, m2, Blank(s0.page), s0)
    ensures t.page in m2 && |m2[t.page]| == ENTRIES
    ensures var e := Pte(m2[t.page][i].perm.(v := true), s0.page);
            Pointed(m, m2[t.page := m2[t.page][i := e]], t, i, s0, level)
  {
    hide Good, Kept, Pages, Blank;
    FreshKept(m, m1, m2, s0);
    var e := Pte(m2[t.page][i].perm.(v := true), s0.page);
    var m' := m2[t.page := m2[t.page][i := e]];
    GoodElsewhere(m2, m', s0, level - 1, t.page);
    assert m'[t.page] == m[t.page][i := e];
  }

  /** The pieces of memory around a slot whose node s0 has become s1. */
  lemma DescendDisjoint(m: Memory, m1: Memory, t: Tree, level: nat, i: nat, s0: Tree, s1: Tree)
    requires level > 0 && Good(m, t, level) && i < ENTRIES && Pointed(m, m1, t, i, s0, level)
    requires forall p :: p in Pages(s1) && p in m1 ==> p in Pages(s0)
    ensures t.page !in Pages(s0) && t.page !in Pages(s1)
    ensures forall p :: p in Pages(s1) && p in m ==> p in SlotPages(t.slots[i])
    ensures forall j :: 0 <= j < ENTRIES && j != i ==> Pages(s1) !! SlotPages(t.slots[j])
  {
    SlotPagesKnown(m, t, level, i);
    forall j | 0 <= j < ENTRIES && j != i
      ensures Pages(s1) !! SlotPages(t.slots[j])
    {
      SlotPagesKnown(m, t, level, j);
      assert SlotPages(t.slots[i]) !! SlotPages(t.slots[j]);
    }
  }

  lemma DescendGood(m: Memory, m1: Memory, m2: Memory, t: Tree, level: nat, i: nat, s0: Tree, s1: Tree)
    requires level > 0 && Good(m, t, level) && i < ENTRIES && Pointed(m, m1, t, i, s0, level)
    requires Kept(m1, m2, s0, s1) && Good(m2, s1, level - 1) && s1.page == s0.page
    ensures Good(m2, WithSlot(t, i, Sub(s1)), level)
    ensures Kept(m, m2, t, WithSlot(t, i, Sub(s1)))
  {
    DescendDisjoint(m, m1, t, level, i, s0, s1);
    SlotPagesKnown(m, t, level, i);
    SetSlot(m, m2, t, level, i, Sub(s1), m1[t.page][i]);
  }

  lemma DescendSpent(m: Memory, m1: Memory, m2: Memory, t: Tree, level: nat, i: nat, s0: Tree, s1: Tree, r0: nat,
                     n: nat)
    requires level > 0 && Good(m, t, level) && i < ENTRIES && Pointed(m, m1, t, i, s0, level)
    requires r0 + n <= Span(level) && (r0 > 0 || n < Span(level)) && Spent(m1, m2, s0, s1, level - 1, r0, r0 + n)
    requires !t.slots[i].Sub? ==> Covered(s0, level - 1, r0, r0 + n) == {}
    ensures Spent(m, m2, t, WithSlot(t, i, Sub(s1)), level, Start(i, level) + r0, Start(i, level) + r0 + n)
  {
    hide *;
    GoodWf(m, t, level);
    StartIs(i, level);
    SpentIs(m1, m2, s0, s1, level - 1, r0, r0 + n);
    SpentIs(m, m2, t, WithSlot(t, i, Sub(s1)), level, Start(i, level) + r0, Start(i, level) + r0 + n);
    PointedKeys(m, m1, t, i, s0, level);
    SlotPagesKnown(m, t, level, i);
    CoveredPart(t, level, i, r0, n);
    WithSlotPages(m, t, level, i, Sub(s1));
    SlotPagesIs(t.slots[i]);
    SlotPagesIs(Sub(s1));
    SpentSets(m.Keys, Pages(t), SlotPages(t.slots[i]), Pages(s0), Pages(s1), t.slots[i].Sub?);
  }

  /** Of a tree with frames `all` in `known`, the part below one slot, `was`, has become `now` by way of `mid`. */
  lemma SpentSets(known: set<Ppn>, all: set<Ppn>, was: set<Ppn>, mid: set<Ppn>, now: set<Ppn>, sub: bool)
    requires was <= all <= known && (if sub then mid == was else was == {} && mid - now == {})
    ensures known + mid + now == known + (all - was + now)
    ensures all - (all - was + now) == if sub then mid - now else {}
  {
  }

  lemma SpentIs(m: Memory, m': Memory, t: Tree, t': Tree, level: nat, lo: int, hi: int)
    ensures Spent(m, m', t, t', level, lo, hi) <==>
            m'.Keys == m.Keys + Pages(t') && Pages(t) - Pages(t') == Covered(t, level, lo, hi)
  {
  }

  lemma SlotPagesIs(x: Slot)
    ensures SlotPages(x) == if x.Sub? then Pages(x.tree) else {}
  {
  }

  lemma PointedKeys(m: Memory, m': Memory, t: Tree, i: nat, s0: Tree, level: nat)
    requires level > 0 && Good(m, t, level) && i < ENTRIES && Pointed(m, m', t, i, s0, level)
    ensures m'.Keys == m.Keys + Pages(s0) && |t.slots| == ENTRIES && (t.slots[i].Sub? ==> s0 == t.slots[i].tree)
  {
  }

  /** A node made for a request has no node of its own below the request. */
  lemma EnteredCovered(x: Slot, level: nat, s0: Tree, page: Ppn, r0: nat, n: nat)
    requires level > 0 && WfSlot(x, level) && !x.Sub? && r0 + n <= Span(level) && (r0 > 0 || n < Span(level))
    requires Wf(s0, level - 1) && Entered(x, level, s0, page, r0, n)
    ensures Covered(s0, level - 1, r0, r0 + n) == {}
  {
    BlankMapsNothing(page, level - 1, 0);
    assert Tidy(s0);
    var below := level - 1;
    forall r | r0 <= r < r0 + n ensures Lookup(s0, below, r).None? {
      if x.Leaf? {
        PushedDownAt(x, level, s0, page, r0, n, r);
      } else {
        BlankMapsNothing(page, level - 1, r);
      }
    }
    CoveredUnmapped(s0, level - 1, r0, n);
  }

  lemma DoneParent(t: Tree, t': Tree, level: nat, o: nat, ppn: nat, n: nat, perm: Perm)
    requires Wf(t, level) && o + n <= Span(level + 1) && Done(t, t', level, o, ppn, n, perm)
    ensures t'.page == t.page
  {
  }

  /** A request passed on to the node below a slot is carried out. */
  lemma DescendCarried(m: Memory, m1: Memory, m2: Memory, t: Tree, level: nat, i: nat, s0: Tree, s1: Tree,
                       r0: nat, ppn: nat, n: nat, perm: Perm)
    requires level > 0 && Good(m, t, level) && i < ENTRIES && r0 + n <= Span(level)
    requires r0 < Span(level) && (r0 > 0 || 0 < n < Span(level))
    requires WfSlot(t.slots[i], level) && Entered(t.slots[i], level, s0, s0.page, r0, n)
    requires Pointed(m, m1, t, i, s0, level)
    requires Carried(m1, m2, s0, s1, level - 1, r0, ppn, n, perm)
    ensures Start(i, level) + r0 + n <= Span(level + 1)
    ensures Carried(m, m2, t, WithSlot(t, i, Sub(s1)), level, Start(i, level) + r0, ppn, n, perm)
  {
    hide *;
    GoodWf(m, t, level);
    PointedGood(m, m1, t, i, s0, level);
    GoodWf(m1, s0, level - 1);
    NextSlot(i, level);
    StartIs(i, level);
    CarriedIs(m1, m2, s0, s1, level - 1, r0, ppn, n, perm);
    DoneParent(s0, s1, level - 1, r0, ppn, n, perm);
    PartSlot(t, level, i, s0, s1, s0.page, r0, ppn, n, perm);
    DescendGood(m, m1, m2, t, level, i, s0, s1);
    if !t.slots[i].Sub? {
      EnteredCovered(t.slots[i], level, s0, s0.page, r0, n);
    }
    DescendSpent(m, m1, m2, t, level, i, s0, s1, r0, n);
    CarriedIs(m, m2, t, WithSlot(t, i, Sub(s1)), level, Start(i, level) + r0, ppn, n, perm);
  }

  lemma BlankGood(m: Memory, page: Ppn, level: nat)
    requires page in m && m[page] == seq(ENTRIES, _ => Pte(NO_PERM, 0))
    ensures Blank(page).page == page && Good(m, Blank(page), level) && Tidy(Blank(page)) && Pages(Blank(page)) == {page}
    ensures forall o: nat, n: nat :: o + n <= Span(level + 1) ==> Unmapped(Blank(page), level, o, n)
  {
    BlankMapsNothing(page, level, 0);
    forall o: nat, n: nat | o + n <= Span(level + 1)
      ensures Unmapped(Blank(page), level, o, n)
    {
      forall w | o <= w < o + n
        ensures Lookup(Blank(page), level, w).None?
      {
        BlankMapsNothing(page, level, w);
      }
    }
  }

  /** Part way through a request: a pages are mapped. */
  ghost predicate Progress(m: Memory, m': Memory, t: Tree, t': Tree, level: nat, o: nat, ppn: nat, a: nat, perm: Perm,
                           started: bool)
    requires Good(m, t, level) && o + a <= Span(level + 1)
  {
    if started then Carried(m, m', t, t', level, o, ppn, a, perm) else m' == m && t' == t && a == 0
  }

  /** One more whole slot. */
  lemma ProgressLeaf(m: Memory, m1: Memory, t: Tree, t1: Tree, level: nat, o: nat, ppn: nat, a: nat, perm: Perm,
                     started: bool, k: nat)
    requires Good(m, t, level) && o + a + Span(level) <= Span(level + 1) && (started ==> a > 0)
    requires Progress(m, m1, t, t1, level, o, ppn, a, perm, started)
    requires o + a == Start(k, level) && perm.Coherent() && ppn + a + Span(level) <= PPN_LIMIT
    ensures k < ENTRIES && t1.page == t.page && t1.page in m1 && |m1[t1.page]| == ENTRIES == |t1.slots|
    ensures Carried(m, m1[t.page := m1[t.page][k := Pte(perm, ppn + a)]], t, WithSlot(t1, k, Stored(ppn + a, perm)),
                    level, o, ppn, a + Span(level), perm)
  {
    MulMono(ENTRIES, k, Span(level));
    ProgressGood(m, m1, t, t1, level, o, ppn, a, perm, started);
    ProgressStore(m, m1, t, t1, level, o, ppn, a, perm, started, k);
  }

  lemma ProgressStore(m: Memory, m1: Memory, t: Tree, t1: Tree, level: nat, o: nat, ppn: nat, a: nat, perm: Perm,
                      started: bool, k: nat)
    requires Good(m, t, level) && o + a + Span(level) <= Span(level + 1) && (started ==> a > 0) && k < ENTRIES
    requires Progress(m, m1, t, t1, level, o, ppn, a, perm, started)
    requires Good(m1, t1, level) && t1.page == t.page
    requires o + a == Start(k, level) && perm.Coherent() && ppn + a + Span(level) <= PPN_LIMIT
    ensures t1.page in m1 && |m1[t1.page]| == ENTRIES == |t1.slots|
    ensures Carried(m, m1[t.page := m1[t.page][k := Pte(perm, ppn + a)]], t, WithSlot(t1, k, Stored(ppn + a, perm)),
                    level, o, ppn, a + Span(level), perm)
  {
    hide *;
    ReadEntry(m1, t1, level, k);
    StoreLeaf(m1, t1, level, k, ppn + a, perm);
    CarriedOn(m, m1, m1[t.page := m1[t.page][k := Pte(perm, ppn + a)]], t, t1, WithSlot(t1, k, Stored(ppn + a, perm)),
              level, o, ppn, a, Span(level), perm, k, started);
  }

  lemma ProgressStep(m: Memory, m': Memory, t: Tree, t': Tree, level: nat, o: nat, ppn: nat, a: nat, perm: Perm)
    requires Good(m, t, level) && o + a <= Span(level + 1)
    ensures Progress(m, m, t, t, level, o, ppn, 0, perm, false)
    ensures Progress(m, m', t, t', level, o, ppn, a, perm, true) <==> Carried(m, m', t, t', level, o, ppn, a, perm)
  {
  }

  lemma ProgressGood(m: Memory, m': Memory, t: Tree, t': Tree, level: nat, o: nat, ppn: nat, a: nat, perm: Perm,
                     started: bool)
    requires Good(m, t, level) && o + a <= Span(level + 1)
    requires Progress(m, m', t, t', level, o, ppn, a, perm, started)
    ensures Good(m', t', level) && t'.page == t.page && (!started ==> m' == m && t' == t && a == 0)
  {
  }

  /** A request for no pages at a slot boundary changes nothing. */
  lemma CarriedNothing(m: Memory, t: Tree, level: nat, o: nat, ppn: nat, perm: Perm, k: nat)
    requires Good(m, t, level) && o <= Span(level + 1) && o == Start(k, level)
    ensures Carried(m, m, t, t, level, o, ppn, 0, perm)
  {
    if o > 0 && Find(t, level, o - 1).Hit? {
      LeafInSlot(t, level, o - 1, k);
    }
    PagesInMemory(m, t, level);
    assert Placed(t, t, level, o, o + 0);
    CoveredShort(t, level, o, o);
  }

  /** Frames a request may take at most: two new nodes, each filled by a pushdown and by the request itself. */
  function Need(level: nat): (n: nat)
    requires level <= 2
  {
    if level == 0 then 0 else if level == 1 then 2 else 10
  }

  /** Half of that: one new node. */
  function PartNeed(level: nat): (n: nat)
    requires level <= 2
  {
    if level == 0 then 0 else if level == 1 then 1 else 5
  }

  lemma PartNeedIs(level: nat)
    requires level <= 2
    ensures level > 0 ==> PartNeed(level) == 1 + Need(level - 1) + Need(level - 1)
    ensures Need(level) == PartNeed(level) + PartNeed(level)
  {
  }

  lemma EnterSub(m: Memory, t: Tree, level: nat, i: nat, r0: nat, n: nat)
    requires level > 0 && i < ENTRIES && Good(m, t, level) && t.slots[i].Sub? && r0 + n <= Span(level)
    ensures WfSlot(t.slots[i], level) && Entered(t.slots[i], level, t.slots[i].tree, t.slots[i].tree.page, r0, n)
    ensures Pointed(m, m, t, i, t.slots[i].tree, level)
  {
    ReadEntry(m, t, level, i);
    assert m[t.page] == m[t.page][i := m[t.page][i]];
  }

  lemma EnterEmpty(m: Memory, m1: Memory, t: Tree, level: nat, i: nat, sub: Ppn, r0: nat, n: nat)
    requires level > 0 && i < ENTRIES && Good(m, t, level) && t.slots[i].Empty? && r0 + n <= Span(level)
    requires sub !in m && m1 == m[sub := seq(ENTRIES, _ => Pte(NO_PERM, 0))]
    ensures WfSlot(t.slots[i], level) && Blank(sub).page == sub && Entered(t.slots[i], level, Blank(sub), sub, r0, n)
    ensures t.page in m1 && |m1[t.page]| == ENTRIES
    ensures Pointed(m, m1[t.page := m1[t.page][i := Pte(m1[t.page][i].perm.(v := true), sub)]], t, i, Blank(sub), level)
  {
    ReadEntry(m, t, level, i);
    BlankGood(m1, sub, level - 1);
    assert m1[t.page] == m[t.page][i := m1[t.page][i]];
    FreshPointed(m, m1, m1, t, level, i, Blank(sub));
  }

  lemma EnterLeaf(m: Memory, m1: Memory, m2: Memory, t: Tree, level: nat, i: nat, sub: Ppn, s0: Tree, r0: nat, n: nat)
    requires level > 0 && i < ENTRIES && Good(m, t, level) && t.slots[i].Leaf?
    requires r0 + n <= Span(level) && (r0 > 0 || n < Span(level))
    requires t.page in m && |m[t.page]| == ENTRIES
    requires var e := m[t.page][i];
             sub !in m && m1 == m[sub := seq(ENTRIES, _ => Pte(NO_PERM, 0))]
                                 [t.page := m[t.page][i := e.(perm := e.perm.(r := false, w := false, x := false))]]
    requires Good(m1, Blank(sub), level - 1)
    requires if r0 > 0 then Carried(m1, m2, Blank(sub), s0, level - 1, 0, t.slots[i].ppn, r0, t.slots[i].perm)
             else Carried(m1, m2, Blank(sub), s0, level - 1, n, t.slots[i].ppn + n, Span(level) - n, t.slots[i].perm)
    ensures WfSlot(t.slots[i], level) && s0.page == sub && Entered(t.slots[i], level, s0, sub, r0, n)
    ensures t.page in m2 && |m2[t.page]| == ENTRIES
    ensures Pointed(m, m2[t.page := m2[t.page][i := Pte(m2[t.page][i].perm.(v := true), sub)]], t, i, s0, level)
  {
    ReadEntry(m, t, level, i);
    BlankGood(m1, sub, level - 1);
    assert m1[t.page] == m[t.page][i := m1[t.page][i]];
    FreshPointed(m, m1, m2, t, level, i, s0);
  }
}
