/**
 Page tables in memory: nodes are frames of 512 entries.
 */
module PageMemory {
  import opened PageTree
  import opened PageEdit

  datatype Pte = Pte(perm: Perm, ppn: Ppn)
  type Memory = map<Ppn, seq<Pte>>

  const NO_PERM := Perm(false, false, false, false, false, false, false, false)

  // ----- memory and the tree it holds

  /** The entry stored for a slot; nothing is said about the bits a walk does not look at. */
  ghost predicate Encodes(m: Memory, e: Pte, x: Slot, level: nat)
    decreases x
  {
    match x
    case Empty => !e.perm.v && !e.perm.IsLeaf()
    case Leaf(p, q) => e.perm == q && e.ppn == p
    case Sub(s) => level > 0 && e.perm.v && !e.perm.IsLeaf() && e.ppn == s.page && Holds(m, s, level - 1)
  }

  ghost predicate Holds(m: Memory, t: Tree, level: nat)
    decreases t
  {
    && t.page in m && |m[t.page]| == ENTRIES && |t.slots| == ENTRIES
    && forall i :: 0 <= i < ENTRIES ==> Encodes(m, m[t.page][i], t.slots[i], level)
  }

  ghost predicate Good(m: Memory, t: Tree, level: nat) {
    Wf(t, level) && Distinct(t) && Holds(m, t, level)
  }

  lemma {:induction false} HoldsFrame(m: Memory, m': Memory, t: Tree, level: nat)
    requires Holds(m, t, level)
    requires forall p :: p in Pages(t) ==> p in m' && p in m && m'[p] == m[p]
    ensures Holds(m', t, level)
    decreases t
  {
    forall i | 0 <= i < ENTRIES
      ensures Encodes(m', m'[t.page][i], t.slots[i], level)
    {
      assert Encodes(m, m[t.page][i], t.slots[i], level);
      if t.slots[i].Sub? {
        assert forall p :: p in Pages(t.slots[i].tree) ==> p in SlotPages(t.slots[i]);
        HoldsFrame(m, m', t.slots[i].tree, level - 1);
      }
    }
  }

  lemma {:induction false} PagesInMemory(m: Memory, t: Tree, level: nat)
    requires Holds(m, t, level)
    ensures Pages(t) <= m.Keys
    decreases t
  {
    forall i, p | 0 <= i < ENTRIES && p in SlotPages(t.slots[i])
      ensures p in m
    {
      assert Encodes(m, m[t.page][i], t.slots[i], level);
      PagesInMemory(m, t.slots[i].tree, level - 1);
    }
  }

  lemma SetSlotHolds(m: Memory, m': Memory, t: Tree, level: nat, i: nat, x: Slot, e: Pte)
    requires Good(m, t, level) && i < ENTRIES
    requires t.page in m' && m'[t.page] == m[t.page][i := e] && Encodes(m', e, x, level)
    requires forall p :: p in m && p != t.page && p !in SlotPages(t.slots[i]) ==> p in m' && m'[p] == m[p]
    ensures Holds(m', WithSlot(t, i, x), level)
  {
    var t' := WithSlot(t, i, x);
    forall j | 0 <= j < ENTRIES
      ensures Encodes(m', m'[t.page][j], t'.slots[j], level)
    {
      assert Encodes(m, m[t.page][j], t.slots[j], level);
      if j != i && t.slots[j].Sub? {
        PagesInMemory(m, t.slots[j].tree, level - 1);
        assert Pages(t.slots[j].tree) == SlotPages(t.slots[j]);
        assert SlotPages(t.slots[i]) !! SlotPages(t.slots[j]);
        HoldsFrame(m, m', t.slots[j].tree, level - 1);
      }
    }
  }

  lemma SetSlotDistinct(t: Tree, i: nat, x: Slot)
    requires Distinct(t) && i < |t.slots|
    requires x.Sub? ==> Distinct(x.tree)
    requires t.page !in SlotPages(x)
    requires forall j :: 0 <= j < |t.slots| && j != i ==> SlotPages(x) !! SlotPages(t.slots[j])
    ensures Distinct(WithSlot(t, i, x))
    ensures Pages(WithSlot(t, i, x)) <= Pages(t) + SlotPages(x)
  {
  }

  /** Replacing one slot of a node, in the tree and in memory. */
  lemma SetSlot(m: Memory, m': Memory, t: Tree, level: nat, i: nat, x: Slot, e: Pte)
    requires Good(m, t, level) && i < ENTRIES && WfSlot(x, level)
    requires t.page in m' && m'[t.page] == m[t.page][i := e] && Encodes(m', e, x, level)
    requires x.Sub? ==> Distinct(x.tree)
    requires t.page !in SlotPages(x)
    requires forall j :: 0 <= j < ENTRIES && j != i ==> SlotPages(x) !! SlotPages(t.slots[j])
    requires forall p :: p in m && p != t.page && p !in SlotPages(t.slots[i]) ==> p in m' && m'[p] == m[p]
    ensures Good(m', WithSlot(t, i, x), level)
    ensures Pages(WithSlot(t, i, x)) <= Pages(t) + SlotPages(x)
    ensures SlotPages(t.slots[i]) <= SlotPages(x) ==> Pages(WithSlot(t, i, x)) == Pages(t) + SlotPages(x)
  {
    hide Pages, SlotPages, Distinct, Encodes;
    SetSlotHolds(m, m', t, level, i, x, e);
    SetSlotDistinct(t, i, x);
    if SlotPages(t.slots[i]) <= SlotPages(x) {
      SetSlotPages(t, i, x);
    }
  }

  lemma SetSlotPages(t: Tree, i: nat, x: Slot)
    requires i < |t.slots| && SlotPages(t.slots[i]) <= SlotPages(x)
    ensures Pages(WithSlot(t, i, x)) == Pages(t) + SlotPages(x)
  {
    var t' := WithSlot(t, i, x);
    forall p | p in Pages(t) + SlotPages(x)
      ensures p in Pages(t')
    {
      if p != t.page && p !in SlotPages(x) {
        var j :| 0 <= j < |t.slots| && p in SlotPages(t.slots[j]);
        assert p in SlotPages(t'.slots[j]);
      } else if p in SlotPages(x) {
        assert p in SlotPages(t'.slots[i]);
      }
    }
  }

  /** The frames of a tree in which one slot has been replaced. */
  lemma WithSlotPages(m: Memory, t: Tree, level: nat, i: nat, x: Slot)
    requires Good(m, t, level) && i < ENTRIES
    ensures Pages(WithSlot(t, i, x)) == Pages(t) - SlotPages(t.slots[i]) + SlotPages(x)
    ensures SlotPages(t.slots[i]) <= Pages(t)
  {
    var t' := WithSlot(t, i, x);
    forall p | p in Pages(t)
      ensures p in Pages(t') <==> p !in SlotPages(t.slots[i]) || p in SlotPages(x)
    {
      if p in SlotPages(t.slots[i]) {
        assert forall j :: 0 <= j < ENTRIES && j != i ==> SlotPages(t.slots[i]) !! SlotPages(t.slots[j]);
        assert p in SlotPages(x) ==> p in SlotPages(t'.slots[i]);
      } else if p != t.page {
        var j :| 0 <= j < |t.slots| && p in SlotPages(t.slots[j]);
        assert p in SlotPages(t'.slots[j]);
      }
    }
    forall p | p in SlotPages(x) ensures p in Pages(t') {
      assert p in SlotPages(t'.slots[i]);
    }
  }

  /** The position of a page number inside a stretch of s pages, and the slot it falls into. */
  function Offset(vpn: nat, s: nat): (o: nat)
    requires s > 0
  {
    vpn % s
  }

  function Index(vpn: nat, s: nat): (i: nat)
    requires s > 0
  {
    (vpn / s) % ENTRIES
  }

  /** Where slot k of a node begins. */
  function Start(k: nat, level: nat): (w: nat) {
    k * Span(level)
  }

  /** The index and the offset the code computes from a full page number are those inside the table. */
  lemma IndexInTable(vpn: nat, s: nat)
    requires s > 0
    ensures vpn % (ENTRIES * s) < ENTRIES * s
    ensures (vpn / s) % ENTRIES == (vpn % (ENTRIES * s)) / s
    ensures vpn % s == (vpn % (ENTRIES * s)) % s
  {
    var o, k := vpn % (ENTRIES * s), vpn / (ENTRIES * s);
    assert vpn == k * (ENTRIES * s) + o;
    SlotOf(s, o);
    var i, r := o / s, o % s;
    assert vpn == (k * ENTRIES + i) * s + r;
    Locate(s, k * ENTRIES + i, r);
    Locate(ENTRIES, k, i);
  }

  /** Where in its table a page number falls. */
  lemma TablePosition(vpn: nat, level: nat)
    ensures var o, s, k := Offset(vpn, Span(level + 1)), Span(level), Index(vpn, Span(level));
            && o == Start(k, level) + Offset(vpn, s) && o < Span(level + 1) && Offset(vpn, s) < s
            && k < ENTRIES && Start(k + 1, level) == Start(k, level) + s <= Span(level + 1)
            && (s > 1 ==> level > 0) && Offset(vpn, s) <= vpn
  {
    IndexInTable(vpn, Span(level));
    SlotOf(Span(level), vpn % Span(level + 1));
    NextSlot(Index(vpn, Span(level)), level);
    ModSmaller(vpn, Span(level));
  }

  lemma NextSlot(k: nat, level: nat)
    ensures Start(k + 1, level) == Start(k, level) + Span(level)
    ensures k < ENTRIES ==> Start(k + 1, level) <= Span(level + 1)
  {
    MulMono(k, k + 1, Span(level));
    MulMono(k + 1, ENTRIES, Span(level));
  }

  lemma ModSmaller(a: nat, s: nat)
    requires s > 0
    ensures a % s <= a
  {
    assert a == (a / s) * s + a % s;
    assert (a / s) * s >= 0;
  }

  /** The same after moving on by a pages to the next slot boundary. */
  lemma Advance(vpn: nat, a: nat, level: nat, k: nat)
    requires Offset(vpn, Span(level + 1)) + a == Start(k, level) < Span(level + 1)
    ensures Offset(vpn + a, Span(level + 1)) == Start(k, level)
    ensures Index(vpn + a, Span(level)) == k && Offset(vpn + a, Span(level)) == 0
    ensures k < ENTRIES && Start(k + 1, level) == Start(k, level) + Span(level) <= Span(level + 1)
  {
    var s, big := Span(level), Span(level + 1);
    assert vpn + a == (vpn / big) * big + k * s;
    Locate(big, vpn / big, k * s);
    IndexInTable(vpn + a, s);
    Locate(s, k, 0);
    MulMono(ENTRIES, k, s);
    MulMono(k, ENTRIES, s);
  }

  /** The two ends of a request inside one slot. */
  lemma SplitInside(vpn: nat, n: nat, s: nat)
    requires s > 0 && Offset(vpn, s) + n <= s
    ensures Offset(vpn, s) <= vpn && Offset(vpn - Offset(vpn, s), s) == 0
    ensures Offset(vpn, s) == 0 && n < s ==> Offset(vpn + n, s) == n
  {
    var q, r := vpn / s, vpn % s;
    assert vpn == q * s + r;
    assert q * s >= 0;
    Locate(s, q, 0);
    assert vpn - r == q * s + 0;
    if r == 0 && n < s {
      Locate(s, q, n);
      assert vpn + n == q * s + n;
    }
  }

  lemma GoodElsewhere(m: Memory, m': Memory, t: Tree, level: nat, page: Ppn)
    requires Good(m, t, level) && page !in Pages(t)
    requires forall p :: p in m && p != page ==> p in m' && m'[p] == m[p]
    ensures Good(m', t, level)
  {
    PagesInMemory(m, t, level);
    HoldsFrame(m, m', t, level);
  }

  lemma SlotPagesKnown(m: Memory, t: Tree, level: nat, i: nat)
    requires Good(m, t, level) && i < ENTRIES
    ensures SlotPages(t.slots[i]) <= Pages(t) <= m.Keys && t.page !in SlotPages(t.slots[i])
  {
    PagesInMemory(m, t, level);
  }

  /** What the entry in memory says about a slot of the tree. */
  lemma ReadEntry(m: Memory, t: Tree, level: nat, i: nat)
    requires Good(m, t, level) && i < ENTRIES
    ensures t.page in m && |m[t.page]| == ENTRIES && |t.slots| == ENTRIES && WfSlot(t.slots[i], level)
    ensures var e, x := m[t.page][i], t.slots[i];
            && (x.Sub? <==> e.perm.v && !e.perm.IsLeaf())
            && (x.Leaf? <==> e.perm.v && e.perm.IsLeaf())
            && (x.Empty? ==> !e.perm.v && !e.perm.IsLeaf())
            && (x.Leaf? ==> x.perm == e.perm && x.ppn == e.ppn && e.perm.Coherent() && e.ppn + Span(level) <= PPN_LIMIT)
            && (x.Sub? ==> level > 0 && x.tree.page == e.ppn && Good(m, x.tree, level - 1) && Pages(x.tree) <= m.Keys)
            && (x.Sub? ==> SlotPages(x) == Pages(x.tree))
  {
    assert WfSlot(t.slots[i], level) && Encodes(m, m[t.page][i], t.slots[i], level);
    if t.slots[i].Sub? {
      PagesInMemory(m, t.slots[i].tree, level - 1);
    }
  }

  /** Frames outside the tree are as they were, and the new tree's nodes are old ones or in frames that held none. */
  ghost predicate Untouched(m: Memory, m': Memory, t: Tree, t': Tree) {
    && (forall p :: p in m && p !in Pages(t) ==> p in m' && m'[p] == m[p])
    && (forall p :: p in Pages(t') && p in m ==> p in Pages(t))
  }

  lemma UntouchedTrans(m: Memory, m1: Memory, m2: Memory, t: Tree, t1: Tree, t2: Tree)
    requires Untouched(m, m1, t, t1) && Untouched(m1, m2, t1, t2)
    ensures Untouched(m, m2, t, t2)
  {
    hide Pages;
  }

  lemma UntouchedRefl(m: Memory, t: Tree)
    ensures Untouched(m, m, t, t)
  {
  }

  /** The table of another address space, in the same memory, is not affected. */
  lemma OtherTable(m: Memory, m': Memory, t: Tree, t': Tree, u: Tree, level: nat)
    requires Untouched(m, m', t, t') && Good(m, u, level) && Pages(u) !! Pages(t)
    ensures Good(m', u, level) && Pages(u) !! Pages(t')
  {
    hide Wf, Holds, Distinct, Pages;
    PagesInMemory(m, u, level);
    HoldsFrame(m, m', u, level);
  }

  /** Every frame known here, holding a node or free. */
  ghost function AllFrames(m: Memory, f: set<Ppn>): set<Ppn> {
    f + m.Keys
  }

  lemma EditFrames(m: Memory, f: set<Ppn>, p: Ppn, node: seq<Pte>)
    requires p in m && f !! m.Keys
    ensures f !! m[p := node].Keys && AllFrames(m[p := node], f) == AllFrames(m, f)
  {
    assert m[p := node].Keys == m.Keys;
  }

  lemma TakeFrame(m: Memory, f: set<Ppn>, p: Ppn, node: seq<Pte>)
    requires f !! m.Keys && p in f
    ensures (f - {p}) !! m[p := node].Keys && AllFrames(m[p := node], f - {p}) == AllFrames(m, f)
    ensures |f - {p}| + 1 == |f|
  {
  }

  lemma {:induction false} LargerSet(a: set<Ppn>, b: set<Ppn>)
    requires a <= b
    ensures |a| <= |b|
  {
    if p :| p in a {
      LargerSet(a - {p}, b - {p});
    }
  }

  lemma GoodWf(m: Memory, t: Tree, level: nat)
    requires Good(m, t, level)
    ensures Wf(t, level)
  {
  }

  lemma GoodPages(m: Memory, t: Tree, level: nat)
    requires Good(m, t, level)
    ensures Pages(t) <= m.Keys
  {
    PagesInMemory(m, t, level);
  }

  /** One step of a walk for a full page number. */
  lemma WalkStep(t: Tree, level: nat, vpn: nat)
    requires Wf(t, level)
    ensures var i, r := Index(vpn, Span(level)), Offset(vpn, Span(level));
            && i < ENTRIES && r < Span(level) && Offset(vpn, Span(level + 1)) < Span(level + 1) &&
               WfSlot(t.slots[i], level)
            && Lookup(t, level, Offset(vpn, Span(level + 1))) == SlotLookup(t.slots[i], level, r)
  {
    TablePosition(vpn, level);
    LookupAt(t, level, Index(vpn, Span(level)), Offset(vpn, Span(level)));
  }
}
