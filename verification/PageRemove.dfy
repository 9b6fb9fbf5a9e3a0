/**
 Removing mappings: the values memory goes through (see `PageTree.Pruned`).
 */
module PageRemove {
  import opened PageTree
  import opened PageEdit
  import opened PageMemory

  /** [lo, hi) has been removed, in the tree and in memory, and the nodes dropped went back to the allocator. */
  ghost predicate Removed(m: Memory, f: set<Ppn>, m': Memory, f': set<Ppn>, t: Tree, t': Tree, level: nat, lo: nat,
                          hi: nat)
    requires Good(m, t, level) && lo <= hi
  {
    && t' == Pruned(t, level, lo, hi)
    && Good(m', t', level)
    && m'.Keys == m.Keys - (Pages(t) - Pages(t'))
    && f' == f + (Pages(t) - Pages(t'))
    && (forall p :: p in m && p !in Pages(t) ==> p in m' && m'[p] == m[p])
  }

  ghost predicate Clean(t: Tree, level: nat, lo: nat, hi: nat)
    requires Wf(t, level) && lo <= hi <= Span(level + 1)
  {
    !CutAt(t, level, lo) && !CutAt(t, level, hi)
  }

  lemma RemovedOn(m: Memory, f: set<Ppn>, m1: Memory, f1: set<Ppn>, m2: Memory, f2: set<Ppn>,
                  t: Tree, t1: Tree, t2: Tree, level: nat, lo: nat, k: nat, hi: nat)
    requires Good(m, t, level) && lo <= Start(k, level) <= hi <= Span(level + 1)
    requires Removed(m, f, m1, f1, t, t1, level, lo, Start(k, level))
    requires Removed(m1, f1, m2, f2, t1, t2, level, Start(k, level), hi)
    ensures Removed(m, f, m2, f2, t, t2, level, lo, hi)
  {
    PrunedJoin(t, level, lo, k, hi);
    PrunedShape(t, level, lo, Start(k, level));
    PrunedShape(t1, level, Start(k, level), hi);
    PagesInMemory(m, t, level);
  }

  /** Before anything is removed. */
  lemma RemovedNothing(m: Memory, f: set<Ppn>, t: Tree, level: nat, k: nat)
    requires Good(m, t, level) && Start(k, level) <= Span(level + 1)
    ensures Removed(m, f, m, f, t, t, level, Start(k, level), Start(k, level))
    ensures !CutAt(t, level, Start(k, level))
  {
    var s := Span(level);
    NoCutAtSlot(t, level, k);
    var t' := Pruned(t, level, k * s, k * s);
    forall i | 0 <= i < ENTRIES
      ensures t'.slots[i] == t.slots[i]
    {
      PrunedAt(t, level, k * s, k * s, i);
      MulMono(i, k, s);
      MulMono(k, i, s);
    }
    assert t'.slots == t.slots;
  }

  /** Replacing slot i by what pruning leaves of it, memory having changed below that slot only. */
  lemma RemovedSlot(m: Memory, f: set<Ppn>, m': Memory, f': set<Ppn>, t: Tree, level: nat, i: nat, r0: nat, n: nat,
                    e: Pte)
    requires Good(m, t, level) && i < ENTRIES && r0 + n <= Span(level) && (r0 > 0 || n > 0) && r0 < Span(level)
    requires t.page in m && |m[t.page]| == ENTRIES
    requires WfSlot(t.slots[i], level)
    requires var x' := PrunedSlot(t.slots[i], level, r0, r0 + n);
             && WfSlot(x', level) && SlotPages(x') <= SlotPages(t.slots[i])
             && (x'.Sub? ==> Distinct(x'.tree))
             && t.page in m' && m'[t.page] == m[t.page][i := e] && Encodes(m', e, x', level)
             && m'.Keys == m.Keys - (SlotPages(t.slots[i]) - SlotPages(x'))
             && f' == f + (SlotPages(t.slots[i]) - SlotPages(x'))
    requires forall p :: p in m && p != t.page && p !in SlotPages(t.slots[i]) ==> p in m' && m'[p] == m[p]
    ensures Start(i, level) + r0 + n <= Span(level + 1)
    ensures Removed(m, f, m', f', t, WithSlot(t, i, PrunedSlot(t.slots[i], level, r0, r0 + n)), level,
                    Start(i, level) + r0, Start(i, level) + r0 + n)
  {
    assert |t.slots| == ENTRIES;
    hide Wf, WfSlot, Holds, Distinct, Encodes, Pages, SlotPages, Pruned, PrunedSlot;
    var x' := PrunedSlot(t.slots[i], level, r0, r0 + n);
    OthersApart(t, i, SlotPages(x'));
    PrunedOneSlot(t, level, i, r0, n);
    MulMono(i, ENTRIES, Span(level));
    SlotPagesKnown(m, t, level, i);
    SetSlot(m, m', t, level, i, x', e);
    WithSlotPages(m, t, level, i, x');
    DroppedSets(Pages(t), SlotPages(t.slots[i]), SlotPages(x'));
  }

  lemma DroppedSets(all: set<Ppn>, was: set<Ppn>, now: set<Ppn>)
    requires now <= was <= all
    ensures all - (all - was + now) == was - now
  {
  }

  lemma OthersApart(t: Tree, i: nat, s: set<Ppn>)
    requires Distinct(t) && i < |t.slots| && s <= SlotPages(t.slots[i])
    ensures t.page !in s && forall j :: 0 <= j < |t.slots| && j != i ==> s !! SlotPages(t.slots[j])
  {
  }

  lemma SlotFits(t: Tree, level: nat, i: nat, k: nat)
    requires Wf(t, level) && i < ENTRIES && k <= Span(level)
    ensures |t.slots| == ENTRIES && WfSlot(t.slots[i], level) && Start(i, level) + k <= Span(level + 1)
  {
    MulMono(i, ENTRIES, Span(level));
  }

  /** Whether a removal inside one slot can go ahead is decided by that slot. */
  lemma CleanSlot(t: Tree, level: nat, i: nat, r0: nat, n: nat)
    requires Wf(t, level) && i < ENTRIES && r0 + n <= Span(level) && (r0 > 0 || 0 < n < Span(level)) && r0 < Span(level)
    ensures WfSlot(t.slots[i], level) && Start(i, level) + r0 + n <= Span(level + 1)
    ensures Clean(t, level, Start(i, level) + r0, Start(i, level) + r0 + n) <==>
            t.slots[i].Empty? || (t.slots[i].Sub? && Clean(t.slots[i].tree, level - 1, r0, r0 + n))
  {
    hide Find, Wf, WfSlot, CutAt, Span;
    SlotFits(t, level, i, r0 + n);
    var s := Span(level);
    if r0 > 0 {
      CutInside(t, level, i, r0);
    } else {
      NoCutAtSlot(t, level, i);
    }
    if r0 + n < s {
      CutInside(t, level, i, r0 + n);
    } else {
      assert (i + 1) * s == i * s + s;
      NoCutAtSlot(t, level, i + 1);
    }
    if t.slots[i].Sub? {
      NoCutAtEnds(t.slots[i].tree, level - 1);
    }
  }

  lemma EmptyRemoved(m: Memory, f: set<Ppn>, t: Tree, level: nat, i: nat, r0: nat, n: nat)
    requires Good(m, t, level) && i < ENTRIES && r0 + n <= Span(level) && (r0 > 0 || n > 0) && r0 < Span(level)
    requires t.slots[i].Empty?
    ensures Start(i, level) + r0 + n <= Span(level + 1)
    ensures Removed(m, f, m, f, t, t, level, Start(i, level) + r0, Start(i, level) + r0 + n)
  {
    ReadEntry(m, t, level, i);
    assert m[t.page] == m[t.page][i := m[t.page][i]];
    assert WithSlot(t, i, Empty) == t by { assert t.slots[i := Empty] == t.slots; }
    RemovedSlot(m, f, m, f, t, level, i, r0, n, m[t.page][i]);
  }

  /** The node below a slot has been pruned and is not empty. */
  lemma SubRemoved(m: Memory, f: set<Ppn>, m1: Memory, f1: set<Ppn>, t: Tree, level: nat, i: nat, s1: Tree, r0: nat,
                   n: nat)
    requires Good(m, t, level) && i < ENTRIES && r0 + n <= Span(level) && (r0 > 0 || n > 0) && r0 < Span(level)
    requires t.slots[i].Sub? && level > 0 && Good(m, t.slots[i].tree, level - 1)
    requires Removed(m, f, m1, f1, t.slots[i].tree, s1, level - 1, r0, r0 + n)
    requires !AllEmpty(s1)
    ensures Start(i, level) + r0 + n <= Span(level + 1)
    ensures Removed(m, f, m1, f1, t, WithSlot(t, i, Sub(s1)), level, Start(i, level) + r0, Start(i, level) + r0 + n)
  {
    hide Wf, WfSlot, Holds, Encodes, Distinct, Pages, SlotPages, Pruned, PrunedSlot, AllEmpty;
    ReadEntry(m, t, level, i);
    SlotPagesKnown(m, t, level, i);
    GoodParts(m, t.slots[i].tree, level - 1);
    GoodParts(m1, s1, level - 1);
    PrunedShape(t.slots[i].tree, level - 1, r0, r0 + n);
    PrunedPage(t.slots[i].tree, level - 1, r0, r0 + n);
    SubKept(m1, t.slots[i], level, s1, r0, n, m[t.page][i]);
    assert m1[t.page] == m[t.page][i := m[t.page][i]];
    RemovedSlot(m, f, m1, f1, t, level, i, r0, n, m[t.page][i]);
  }

  lemma GoodParts(m: Memory, t: Tree, level: nat)
    requires Good(m, t, level)
    ensures Wf(t, level) && Distinct(t) && Holds(m, t, level)
  {
  }

  lemma SubKept(m1: Memory, x: Slot, level: nat, s1: Tree, r0: nat, n: nat, e: Pte)
    requires level > 0 && WfSlot(x, level) && x.Sub? && r0 + n <= Span(level) && (r0 > 0 || n > 0) && r0 < Span(level)
    requires s1 == Pruned(x.tree, level - 1, r0, r0 + n) && !AllEmpty(s1) && Good(m1, s1, level - 1)
    requires e.perm.v && !e.perm.IsLeaf() && e.ppn == s1.page
    ensures PrunedSlot(x, level, r0, r0 + n) == Sub(s1) && WfSlot(Sub(s1), level)
    ensures SlotPages(Sub(s1)) == Pages(s1) && Encodes(m1, e, Sub(s1), level)
  {
  }

  /** The node below a slot has been emptied, freed, and its entry cleared. */
  lemma SubFreed(m: Memory, f: set<Ppn>, m1: Memory, f1: set<Ppn>, t: Tree, level: nat, i: nat, s1: Tree, r0: nat,
                 n: nat, e: Pte)
    requires Good(m, t, level) && i < ENTRIES && r0 + n <= Span(level) && (r0 > 0 || n > 0) && r0 < Span(level)
    requires t.slots[i].Sub? && level > 0 && Good(m, t.slots[i].tree, level - 1)
    requires Removed(m, f, m1, f1, t.slots[i].tree, s1, level - 1, r0, r0 + n)
    requires AllEmpty(s1) && e.perm == NO_PERM
    ensures Start(i, level) + r0 + n <= Span(level + 1)
    ensures t.page in (m1 - {s1.page}) && |m1[t.page]| == ENTRIES == |t.slots|
    ensures Removed(m, f, (m1 - {s1.page})[t.page := m1[t.page][i := e]], f1 + {s1.page}, t, WithSlot(t, i, Empty),
            level, Start(i, level) + r0, Start(i, level) + r0 + n)
  {
    ReadEntry(m, t, level, i);
    SlotPagesKnown(m, t, level, i);
    EmptyNodePages(s1);
    SubFreedMemory(m, f, m1, f1, t, level, i, s1, r0, n, e);
    assert PrunedSlot(t.slots[i], level, r0, r0 + n) == Empty;
    hide Wf, WfSlot, Holds, Distinct, Pages, Pruned, PrunedSlot, Removed;
    RemovedSlot(m, f, (m1 - {s1.page})[t.page := m1[t.page][i := e]], f1 + {s1.page}, t, level, i, r0, n, e);
  }

  lemma EmptyNodePages(t: Tree)
    requires AllEmpty(t)
    ensures Pages(t) == {t.page}
  {
  }

  lemma SubFreedMemory(m: Memory, f: set<Ppn>, m1: Memory, f1: set<Ppn>, t: Tree, level: nat, i: nat, s1: Tree, r0: nat,
                       n: nat, e: Pte)
    requires Good(m, t, level) && i < ENTRIES && t.slots[i].Sub? && level > 0 && Good(m, t.slots[i].tree, level - 1)
    requires Removed(m, f, m1, f1, t.slots[i].tree, s1, level - 1, r0, r0 + n) && Pages(s1) == {s1.page}
    requires t.page in m && |m[t.page]| == ENTRIES == |t.slots|
    requires SlotPages(t.slots[i]) == Pages(t.slots[i].tree) <= Pages(t) <= m.Keys && t.page !in SlotPages(t.slots[i])
    ensures t.page in (m1 - {s1.page}) && |m1[t.page]| == ENTRIES && m1[t.page] == m[t.page]
    ensures var m2 := (m1 - {s1.page})[t.page := m1[t.page][i := e]];
            && m2.Keys == m.Keys - SlotPages(t.slots[i])
            && f1 + {s1.page} == f + SlotPages(t.slots[i])
            && forall p :: p in m && p != t.page && p !in SlotPages(t.slots[i]) ==> p in m2 && m2[p] == m[p]
  {
    hide Wf, Holds, Distinct, Pages, SlotPages, Pruned;
    assert s1.page in Pages(t.slots[i].tree) by {
      PrunedPage(t.slots[i].tree, level - 1, r0, r0 + n);
    }
  }

  lemma PrunedPage(t: Tree, level: nat, lo: int, hi: int)
    requires Wf(t, level) && lo <= hi
    ensures Pruned(t, level, lo, hi).page == t.page && t.page in Pages(t)
  {
  }

  /** Clearing a leaf entry removes its slot. */
  lemma LeafRemoved(m: Memory, f: set<Ppn>, t: Tree, level: nat, i: nat, e: Pte)
    requires Good(m, t, level) && i < ENTRIES && t.slots[i].Leaf? && e.perm == NO_PERM
    ensures Start(i, level) + Span(level) <= Span(level + 1) && t.page in m && |m[t.page]| == ENTRIES == |t.slots|
    ensures Removed(m, f, m[t.page := m[t.page][i := e]], f, t, WithSlot(t, i, Empty), level,
                    Start(i, level), Start(i, level) + Span(level))
  {
    ReadEntry(m, t, level, i);
    RemovedSlot(m, f, m[t.page := m[t.page][i := e]], f, t, level, i, 0, Span(level), e);
  }

  /** Removing all of a node's span empties it and is never refused. */
  lemma WholeClean(t: Tree, level: nat)
    requires Wf(t, level)
    ensures Clean(t, level, 0, Span(level + 1)) && AllEmpty(Pruned(t, level, 0, Span(level + 1)))
  {
    NoCutAtEnds(t, level);
    PrunedWhole(t, level);
  }

  lemma RemovedGood(m: Memory, f: set<Ppn>, m': Memory, f': set<Ppn>, t: Tree, t': Tree, level: nat, lo: nat, hi: nat)
    requires Good(m, t, level) && lo <= hi && Removed(m, f, m', f', t, t', level, lo, hi)
    ensures Good(m', t', level) && t'.page == t.page
  {
  }

  /** Whether a removal can go ahead, split at a slot boundary. */
  lemma CleanSplit(t: Tree, level: nat, lo: nat, k: nat, hi: nat)
    requires Wf(t, level) && lo <= Start(k, level) <= hi <= Span(level + 1)
    ensures var t1 := Pruned(t, level, lo, Start(k, level));
            Wf(t1, level) &&
            (Clean(t, level, lo, hi) <==> Clean(t, level, lo, Start(k, level)) && Clean(t1, level, Start(k, level), hi))
  {
    CutPast(t, level, lo, k, hi);
    NoCutAtSlot(t, level, k);
    NoCutAtSlot(Pruned(t, level, lo, Start(k, level)), level, k);
  }

  lemma CleanSlots(t: Tree, level: nat, k: nat)
    requires Wf(t, level) && Start(k + 1, level) <= Span(level + 1)
    ensures Start(k, level) <= Start(k + 1, level) && Clean(t, level, Start(k, level), Start(k + 1, level))
  {
    MulMono(k, k + 1, Span(level));
    NoCutAtSlot(t, level, k);
    NoCutAtSlot(t, level, k + 1);
  }

  /** How far a removal has come, and that nothing stood in its way so far. */
  ghost predicate Gone(m: Memory, f: set<Ppn>, m': Memory, f': set<Ppn>, t: Tree, t': Tree, level: nat, lo: nat,
                       hi: nat)
    requires Good(m, t, level) && lo <= hi <= Span(level + 1)
  {
    Removed(m, f, m', f', t, t', level, lo, hi) && Clean(t, level, lo, hi)
  }

  lemma GoneStart(m: Memory, f: set<Ppn>, t: Tree, level: nat, k: nat)
    requires Good(m, t, level) && Start(k, level) <= Span(level + 1)
    ensures Gone(m, f, m, f, t, t, level, Start(k, level), Start(k, level))
  {
    RemovedNothing(m, f, t, level, k);
  }

  lemma GoneIs(m: Memory, f: set<Ppn>, m': Memory, f': set<Ppn>, t: Tree, t': Tree, level: nat, lo: nat, hi: nat)
    requires Good(m, t, level) && lo <= hi <= Span(level + 1)
    ensures Gone(m, f, m', f', t, t', level, lo, hi) <==>
            Removed(m, f, m', f', t, t', level, lo, hi) && Clean(t, level, lo, hi)
    ensures Gone(m, f, m', f', t, t', level, lo, hi) ==> Good(m', t', level) && t'.page == t.page
  {
  }

  /** The next stretch decides whether the whole can go ahead. */
  lemma GoneOn(m: Memory, f: set<Ppn>, m1: Memory, f1: set<Ppn>, m2: Memory, f2: set<Ppn>,
               t: Tree, t1: Tree, t2: Tree, level: nat, lo: nat, k: nat, hi: nat)
    requires Good(m, t, level) && lo <= Start(k, level) <= hi <= Span(level + 1)
    requires Gone(m, f, m1, f1, t, t1, level, lo, Start(k, level))
    ensures Good(m1, t1, level)
    ensures Clean(t, level, lo, hi) <==> Clean(t1, level, Start(k, level), hi)
    ensures Gone(m1, f1, m2, f2, t1, t2, level, Start(k, level), hi) ==> Gone(m, f, m2, f2, t, t2, level, lo, hi)
  {
    CleanSplit(t, level, lo, k, hi);
    if Gone(m1, f1, m2, f2, t1, t2, level, Start(k, level), hi) {
      RemovedOn(m, f, m1, f1, m2, f2, t, t1, t2, level, lo, k, hi);
    }
  }

  /** A refusal inside the first slot is a refusal of the whole. */
  lemma RefusedEarly(t: Tree, level: nat, lo: nat, k: nat, hi: nat)
    requires Wf(t, level) && lo <= Start(k, level) <= hi <= Span(level + 1) && !Clean(t, level, lo, Start(k, level))
    ensures !Clean(t, level, lo, hi)
  {
    CleanSplit(t, level, lo, k, hi);
  }

  lemma SlotEnd(i: nat, level: nat)
    ensures Start(i + 1, level) == Start(i, level) + Span(level) && Start(i, level) == Start(i, level) + 0
  {
    MulMono(i, i + 1, Span(level));
  }

  lemma WholeRemoved(m: Memory, f: set<Ppn>, m': Memory, f': set<Ppn>, t: Tree, t': Tree, level: nat)
    requires Good(m, t, level) && Removed(m, f, m', f', t, t', level, 0, Span(level + 1))
    ensures AllEmpty(t') && Good(m', t', level) && t'.page == t.page
  {
    PrunedWhole(t, level);
  }
}
