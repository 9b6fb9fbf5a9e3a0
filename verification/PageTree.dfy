/**
 The value of an Sv39 page table: a tree of 512-entry nodes, and what it translates.

 All positions here are page numbers relative to the first page a node covers.  A slot of a node at
 `level` covers `Span(level)` pages (1, 512 or 512*512), the whole node covers `Span(level + 1)`.
 */
module PageTree {
  import opened Basics

  const ENTRIES: nat := 512
  /** Physical page numbers are 44-bit fields of a page-table entry. */
  const PPN_LIMIT: nat := 0x1000_0000_0000
  type Ppn = n: nat | n < PPN_LIMIT

  /** The low eight bits of a page-table entry. */
  datatype Perm = Perm(v: bool, r: bool, w: bool, x: bool, u: bool, g: bool, a: bool, d: bool) {
    predicate IsLeaf() { r || w || x }

    /** A permission that can be stored in a leaf: mapped and accessible, or neither (PROT_NONE). */
    predicate Coherent() { v <==> IsLeaf() }
  }

  datatype Target = Target(ppn: nat, perm: Perm)

  datatype Slot = Empty | Leaf(ppn: nat, perm: Perm) | Sub(tree: Tree)
  datatype Tree = Node(page: Ppn, slots: seq<Slot>)

  /** The pages one slot of a node at `level` covers. */
  function Span(level: nat): (s: nat)
    ensures s > 0
  {
    if level == 0 then 1 else ENTRIES * Span(level - 1)
  }

  // ----- positions inside a node

  lemma MulMono(i: int, j: int, s: nat)
    ensures i <= j ==> i * s <= j * s
    ensures i < j ==> i * s + s <= j * s
  {
    if i < j {
      MulSum(i, j - i - 1, s);
    }
  }

  lemma MulSum(i: int, k: nat, s: nat)
    ensures (i + 1 + k) * s == i * s + s + k * s && k * s >= 0
  {
  }

  /** Splitting a position into slot and rest, without leaving division to the solver. */
  lemma Locate(s: nat, i: int, r: int)
    requires 0 <= r < s
    ensures (i * s + r) / s == i && (i * s + r) % s == r
  {
    var q, m := (i * s + r) / s, (i * s + r) % s;
    assert q * s + m == i * s + r;
    MulMono(q, i, s);
    MulMono(i, q, s);
  }

  /** The slot of a position, and that it is one of the 512. */
  lemma SlotOf(s: nat, w: int)
    requires s > 0 && 0 <= w < ENTRIES * s
    ensures 0 <= w / s < ENTRIES && 0 <= w % s < s && w == (w / s) * s + w % s
  {
    MulMono(ENTRIES, w / s, s);
  }

  // ----- shape

  ghost predicate WfSlot(x: Slot, level: nat)
    decreases x
  {
    match x
    case Empty => true
    case Leaf(p, q) => q.v && q.IsLeaf() && p + Span(level) <= PPN_LIMIT
    case Sub(s) => level > 0 && Wf(s, level - 1)
  }

  ghost predicate Wf(t: Tree, level: nat)
    decreases t
  {
    |t.slots| == ENTRIES && forall i :: 0 <= i < ENTRIES ==> WfSlot(t.slots[i], level)
  }

  /** The pages holding the nodes below a slot. */
  ghost function SlotPages(x: Slot): set<Ppn>
    decreases x
  {
    if x.Sub? then Pages(x.tree) else {}
  }

  ghost function Pages(t: Tree): set<Ppn>
    decreases t
  {
    {t.page} + set i, p | 0 <= i < |t.slots| && p in SlotPages(t.slots[i]) :: p
  }

  /** No node is reached along two paths. */
  ghost predicate Distinct(t: Tree)
    decreases t
  {
    && (forall i :: 0 <= i < |t.slots| ==> t.page !in SlotPages(t.slots[i]))
    && (forall i, j :: 0 <= i < j < |t.slots| ==> SlotPages(t.slots[i]) !! SlotPages(t.slots[j]))
    && (forall i :: 0 <= i < |t.slots| && t.slots[i].Sub? ==> Distinct(t.slots[i].tree))
  }

  predicate AllEmpty(t: Tree) {
    forall i :: 0 <= i < |t.slots| ==> t.slots[i].Empty?
  }

  /** No node below the root is empty. */
  ghost predicate Tidy(t: Tree)
    decreases t
  {
    forall i :: 0 <= i < |t.slots| && t.slots[i].Sub? ==> !AllEmpty(t.slots[i].tree) && Tidy(t.slots[i].tree)
  }

  /** No superpages: leaves only at the lowest level. */
  ghost predicate FineSlot(x: Slot, level: nat)
    decreases x
  {
    match x
    case Empty => true
    case Leaf(_, _) => level == 0
    case Sub(s) => level > 0 && Fine(s, level - 1)
  }

  ghost predicate Fine(t: Tree, level: nat)
    decreases t
  {
    forall i :: 0 <= i < |t.slots| ==> FineSlot(t.slots[i], level)
  }

  function Blank(page: Ppn): (t: Tree) {
    Node(page, seq(ENTRIES, _ => Empty))
  }

  // ----- translation

  /** Where a walk for one page ends: nowhere, or at a leaf covering [start, start + Span(level)). */
  datatype Hit = Miss | Hit(level: nat, start: nat, ppn: nat, perm: Perm)

  ghost function Find(t: Tree, level: nat, w: nat): (h: Hit)
    requires Wf(t, level) && w < Span(level + 1)
    ensures h.Hit? ==> h.start <= w < h.start + Span(h.level) && h.perm.v && h.perm.IsLeaf()
    decreases t
  {
    var s := Span(level);
    SlotOf(s, w);
    assert WfSlot(t.slots[w / s], level);
    match t.slots[w / s]
    case Empty => Miss
    case Leaf(p, q) => Hit(level, (w / s) * s, p, q)
    case Sub(sub) =>
      var h := Find(sub, level - 1, w % s);
      if h.Miss? then Miss else h.(start := h.start + (w / s) * s)
  }

  /** The mapping a tree stands for. */
  ghost function Lookup(t: Tree, level: nat, w: nat): (r: Option<Target>)
    requires Wf(t, level) && w < Span(level + 1)
  {
    var h := Find(t, level, w);
    if h.Miss? then None else Some(Target(h.ppn + (w - h.start), h.perm))
  }

  /** One step of a walk, addressed by slot and rest. */
  lemma FindAt(t: Tree, level: nat, i: nat, r: nat)
    requires Wf(t, level) && i < ENTRIES && r < Span(level)
    ensures i * Span(level) + r < Span(level + 1)
    ensures t.slots[i].Empty? ==> Find(t, level, i * Span(level) + r).Miss?
    ensures t.slots[i].Leaf? ==>
              Find(t, level, i * Span(level) + r) == Hit(level, i * Span(level), t.slots[i].ppn, t.slots[i].perm)
    ensures t.slots[i].Sub? ==>
              && WfSlot(t.slots[i], level)
              && Lookup(t, level, i * Span(level) + r) == Lookup(t.slots[i].tree, level - 1, r)
              && var h := Find(t.slots[i].tree, level - 1, r);
                 Find(t, level, i * Span(level) + r) ==
                 if h.Miss? then Miss else h.(start := h.start + i * Span(level))
  {
    var s := Span(level);
    MulMono(i, ENTRIES, s);
    assert Span(level + 1) == ENTRIES * s;
    Locate(s, i, r);
    assert WfSlot(t.slots[i], level);
  }

  ghost function SlotLookup(x: Slot, level: nat, r: nat): Option<Target>
    requires WfSlot(x, level) && r < Span(level)
  {
    match x
    case Empty => None
    case Leaf(p, q) => Some(Target(p + r, q))
    case Sub(s) => Lookup(s, level - 1, r)
  }

  lemma LookupAt(t: Tree, level: nat, i: nat, r: nat)
    requires Wf(t, level) && i < ENTRIES && r < Span(level)
    ensures WfSlot(t.slots[i], level) && i * Span(level) + r < Span(level + 1)
    ensures Lookup(t, level, i * Span(level) + r) == SlotLookup(t.slots[i], level, r)
  {
    FindAt(t, level, i, r);
  }

  /** All pages of a leaf are found at that leaf, and the leaf stays inside the node. */
  lemma {:induction false} LeafCovers(t: Tree, level: nat, w: nat, w': nat)
    requires Wf(t, level) && w < Span(level + 1)
    requires Find(t, level, w).Hit?
    requires var h := Find(t, level, w); h.start <= w' < h.start + Span(h.level)
    ensures var h := Find(t, level, w); h.start + Span(h.level) <= Span(level + 1)
    ensures w' < Span(level + 1) && Find(t, level, w') == Find(t, level, w)
    decreases t
  {
    SlotOf(Span(level), w);
    LeafCoversAt(t, level, w / Span(level), w % Span(level), w');
  }

  lemma {:induction false} LeafCoversAt(t: Tree, level: nat, i: nat, r: nat, w': nat)
    requires Wf(t, level) && i < ENTRIES && r < Span(level) && i * Span(level) + r < Span(level + 1)
    requires Find(t, level, i * Span(level) + r).Hit?
    requires var h := Find(t, level, i * Span(level) + r); h.start <= w' < h.start + Span(h.level)
    ensures var h := Find(t, level, i * Span(level) + r); h.start + Span(h.level) <= Span(level + 1)
    ensures w' < Span(level + 1) && Find(t, level, w') == Find(t, level, i * Span(level) + r)
    decreases t, 0
  {
    var b := i * Span(level);
    FindAt(t, level, i, r);
    MulMono(i, ENTRIES, Span(level));
    if t.slots[i].Sub? {
      LeafCovers(t.slots[i].tree, level - 1, r, w' - b);
    }
    FindAt(t, level, i, w' - b);
  }

  /** A mapped page keeps its node from being empty. */
  lemma MappedNotEmpty(t: Tree, level: nat, w: nat)
    requires Wf(t, level) && w < Span(level + 1) && Lookup(t, level, w).Some?
    ensures !AllEmpty(t)
  {
    SlotOf(Span(level), w);
  }

  /** In a tidy tree, every node that is not empty maps some page. */
  lemma {:induction false} TidyMapsSomething(t: Tree, level: nat) returns (w: nat)
    requires Wf(t, level) && Tidy(t) && !AllEmpty(t)
    ensures w < Span(level + 1) && Lookup(t, level, w).Some?
    decreases t
  {
    var i :| 0 <= i < ENTRIES && !t.slots[i].Empty?;
    assert WfSlot(t.slots[i], level);
    if t.slots[i].Leaf? {
      FindAt(t, level, i, 0);
      w := i * Span(level);
    } else {
      var r := TidyMapsSomething(t.slots[i].tree, level - 1);
      FindAt(t, level, i, r);
      w := i * Span(level) + r;
    }
  }

  /** A blank node maps nothing. */
  lemma BlankMapsNothing(page: Ppn, level: nat, w: nat)
    requires w < Span(level + 1)
    ensures Wf(Blank(page), level) && Distinct(Blank(page)) && Tidy(Blank(page)) && Pages(Blank(page)) == {page}
    ensures Find(Blank(page), level, w).Miss?
  {
    SlotOf(Span(level), w);
  }

  // ----- superpages across a position

  /** A superpage lies across position x: it holds both x - 1 and x. */
  ghost predicate CutAt(t: Tree, level: nat, x: nat)
    requires Wf(t, level) && x <= Span(level + 1)
  {
    x > 0 && var h := Find(t, level, x - 1); h.Hit? && x < h.start + Span(h.level)
  }

  ghost predicate SlotCut(x: Slot, level: nat, a: nat)
    requires WfSlot(x, level) && a <= Span(level)
  {
    x.Leaf? || (x.Sub? && CutAt(x.tree, level - 1, a))
  }

  /** A superpage holds both the page before [o, o + n) and the page after it. */
  ghost predicate Straddled(t: Tree, level: nat, o: nat, n: nat)
    requires Wf(t, level) && o + n <= Span(level + 1)
  {
    o > 0 && var h := Find(t, level, o - 1); h.Hit? && o + n < h.start + Span(h.level)
  }

  /** Leaves do not cross a slot boundary of the node they are under. */
  lemma LeafInSlot(t: Tree, level: nat, w: nat, m: nat)
    requires Wf(t, level) && w < Span(level + 1) && w < m * Span(level) && Find(t, level, w).Hit?
    ensures var h := Find(t, level, w); h.start + Span(h.level) <= m * Span(level)
  {
    var s := Span(level);
    SlotOf(s, w);
    var i := w / s;
    MulMono(m, i, s);
    MulMono(i, m, s);
    FindAt(t, level, i, w % s);
    if t.slots[i].Sub? {
      LeafCovers(t.slots[i].tree, level - 1, w % s, w % s);
    }
  }

  // ----- what a mapping request makes of a tree

  /**
   The translation of page w once [o, o + n) has been mapped to ppn.  A superpage lying across the whole
   request is broken up, and only its part before the request survives.
   */
  ghost function Expect(t: Tree, level: nat, o: nat, ppn: nat, n: nat, perm: Perm, w: nat): Option<Target>
    requires Wf(t, level) && o + n <= Span(level + 1) && w < Span(level + 1)
  {
    if o <= w < o + n then (if perm.v then Some(Target(ppn + (w - o), perm)) else None)
    else if Straddled(t, level, o, n) &&
      o + n <= w < Find(t, level, o - 1).start + Span(Find(t, level, o - 1).level) then None
    else Lookup(t, level, w)
  }

  ghost predicate Unmapped(t: Tree, level: nat, o: nat, n: nat)
    requires Wf(t, level) && o + n <= Span(level + 1)
  {
    forall w :: o <= w < o + n ==> Lookup(t, level, w).None?
  }

  // ----- where the leaves are

  /**
   The level of the leaf a request for [lo, hi) maps page w with: the highest at which the slot of w lies in the
   request. Positions are relative to the node, so the request may begin before it and end after it.
   */
  function LeafLevel(level: nat, lo: int, hi: int, w: nat): (l: nat)
    ensures l <= level
  {
    var s := Span(level);
    var b := Base(w, s);
    if level == 0 || (lo <= b && b + s <= hi) then level else LeafLevel(level - 1, lo - b, hi - b, w % s)
  }

  /** Where the slot of a position begins. */
  function Base(w: nat, s: nat): nat
    requires s > 0
  {
    w / s * s
  }

  /** Slot i has pages in common with [lo, hi), or lo is inside it. */
  predicate Touched(level: nat, i: nat, lo: nat, hi: nat) { i * Span(level) < hi && lo < i * Span(level) + Span(level) }

  /** Slots outside the request are as they were; leaves are as large as they can be in it, and grow nowhere else. */
  ghost predicate Placed(t: Tree, t': Tree, level: nat, lo: nat, hi: nat)
    requires Wf(t, level) && Wf(t', level)
  {
    && (forall i :: 0 <= i < ENTRIES && !Touched(level, i, lo, hi) ==> t'.slots[i] == t.slots[i])
    && (forall w :: 0 <= w < Span(level + 1) ==> PlacedAt(t, t', level, lo, hi, w))
  }

  ghost predicate PlacedAt(t: Tree, t': Tree, level: nat, lo: nat, hi: nat, w: nat)
    requires Wf(t, level) && Wf(t', level) && w < Span(level + 1)
  {
    var h, h' := Find(t, level, w), Find(t', level, w);
    h'.Hit? ==> if lo <= w < hi then h'.level == LeafLevel(level, lo, hi, w) else h.Hit? && h'.level <= h.level
  }

  /** t' is t with the request carried out. */
  ghost predicate Done(t: Tree, t': Tree, level: nat, o: nat, ppn: nat, n: nat, perm: Perm)
    requires Wf(t, level) && o + n <= Span(level + 1)
  {
    && t'.page == t.page
    && Wf(t', level)
    && (forall w :: 0 <= w < Span(level + 1) ==> Lookup(t', level, w) == Expect(t, level, o, ppn, n, perm, w))
    && (Tidy(t) && n > 0 && perm.v ==> Tidy(t'))
    && (Tidy(t) && n > 0 && perm.v && Unmapped(t, level, o, n) ==> Pruned(t', level, o, o + n) == t)
    && (Fine(t, level) && n < Span(1) ==> Fine(t', level))
    && Placed(t, t', level, o, o + n)
  }

  // ----- what a removal makes of a tree

  function Max(a: int, b: int): int { if a > b then a else b }
  function Min(a: int, b: int): int { if a < b then a else b }

  /** A slot after removing [lo, hi), positions relative to the slot. */
  ghost function PrunedSlot(x: Slot, level: nat, lo: int, hi: int): (x': Slot)
    requires WfSlot(x, level) && lo <= hi
    decreases x
  {
    if 0 < hi && lo < Span(level) then
      match x
      case Empty => Empty
      case Leaf(_, _) => Empty
      case Sub(s) =>
        var s' := Pruned(s, level - 1, Max(lo, 0), Min(hi, Span(level)));
        if AllEmpty(s') then Empty else Sub(s')
    else x
  }

  /** A tree after removing [lo, hi): its leaves there are gone, and so are nodes left empty. */
  ghost function Pruned(t: Tree, level: nat, lo: int, hi: int): (t': Tree)
    requires Wf(t, level) && lo <= hi
    ensures t'.page == t.page && |t'.slots| == |t.slots|
    decreases t
  {
    Node(t.page, seq(|t.slots|, i requires 0 <= i < |t.slots| =>
      assert WfSlot(t.slots[i], level);
      PrunedSlot(t.slots[i], level, lo - i * Span(level), hi - i * Span(level))))
  }

  lemma PrunedAt(t: Tree, level: nat, lo: int, hi: int, i: nat)
    requires Wf(t, level) && lo <= hi && i < ENTRIES
    ensures WfSlot(t.slots[i], level)
    ensures Pruned(t, level, lo, hi).slots[i] ==
            PrunedSlot(t.slots[i], level, lo - i * Span(level), hi - i * Span(level))
  {
    assert WfSlot(t.slots[i], level);
  }

  /** Removal keeps the shape, adds no node, and leaves no empty one. */
  lemma {:induction false} PrunedShape(t: Tree, level: nat, lo: int, hi: int)
    requires Wf(t, level) && lo <= hi
    ensures Wf(Pruned(t, level, lo, hi), level)
    ensures Pages(Pruned(t, level, lo, hi)) <= Pages(t)
    ensures Distinct(t) ==> Distinct(Pruned(t, level, lo, hi))
    ensures Tidy(t) ==> Tidy(Pruned(t, level, lo, hi))
    decreases t
  {
    var t' := Pruned(t, level, lo, hi);
    forall i | 0 <= i < ENTRIES
      ensures WfSlot(t'.slots[i], level)
      ensures SlotPages(t'.slots[i]) <= SlotPages(t.slots[i])
      ensures Distinct(t) && t'.slots[i].Sub? ==> Distinct(t'.slots[i].tree)
      ensures Tidy(t) && t'.slots[i].Sub? ==> !AllEmpty(t'.slots[i].tree) && Tidy(t'.slots[i].tree)
    {
      PrunedAt(t, level, lo, hi, i);
      var a, b := lo - i * Span(level), hi - i * Span(level);
      if t.slots[i].Sub? && 0 < b && a < Span(level) {
        PrunedShape(t.slots[i].tree, level - 1, Max(a, 0), Min(b, Span(level)));
      }
    }
  }

  /** Removing everything under a node empties it. */
  lemma {:induction false} PrunedWhole(t: Tree, level: nat)
    requires Wf(t, level)
    ensures AllEmpty(Pruned(t, level, 0, Span(level + 1)))
    decreases t
  {
    var s := Span(level);
    var t' := Pruned(t, level, 0, Span(level + 1));
    forall i | 0 <= i < ENTRIES
      ensures t'.slots[i].Empty?
    {
      PrunedAt(t, level, 0, Span(level + 1), i);
      MulMono(i, ENTRIES, s);
      if t.slots[i].Sub? {
        PrunedWhole(t.slots[i].tree, level - 1);
      }
    }
  }

  lemma WfAt(t: Tree, level: nat, i: nat)
    requires Wf(t, level) && i < ENTRIES
    ensures |t.slots| == ENTRIES && WfSlot(t.slots[i], level)
  {
  }

  /** Inside a slot, superpages across a position are those of the slot. */
  lemma CutInside(t: Tree, level: nat, i: nat, a: nat)
    requires Wf(t, level) && i < ENTRIES && 0 < a < Span(level)
    ensures WfSlot(t.slots[i], level) && i * Span(level) + a <= Span(level + 1)
    ensures CutAt(t, level, i * Span(level) + a) <==> SlotCut(t.slots[i], level, a)
  {
    hide Find, Lookup, Wf;
    WfAt(t, level, i);
    FindAt(t, level, i, a - 1);
    FindAt(t, level, i, a);
    hide Span;
    assert i * Span(level) + a - 1 == i * Span(level) + (a - 1);
  }

  /** No leaf reaches past the end of its node. */
  lemma NoCutAtEnds(t: Tree, level: nat)
    requires Wf(t, level)
    ensures !CutAt(t, level, 0) && !CutAt(t, level, Span(level + 1))
  {
    var s := Span(level + 1);
    if Find(t, level, s - 1).Hit? {
      LeafCovers(t, level, s - 1, s - 1);
    }
  }

  /** Removal unmaps [lo, hi) and nothing else, when no superpage lies across either end. */
  lemma PrunedLookup(t: Tree, level: nat, lo: nat, hi: nat, w: nat)
    requires Wf(t, level) && lo <= hi <= Span(level + 1) && w < Span(level + 1)
    requires !CutAt(t, level, lo) && !CutAt(t, level, hi)
    ensures Wf(Pruned(t, level, lo, hi), level)
    ensures Lookup(Pruned(t, level, lo, hi), level, w) == if lo <= w < hi then None else Lookup(t, level, w)
  {
    hide Find, Wf, Pruned, CutAt;
    PrunedFind(t, level, lo, hi, w);
  }

  /** And the leaves that stay are the old ones, as large as they were. */
  lemma {:induction false} PrunedFind(t: Tree, level: nat, lo: nat, hi: nat, w: nat)
    requires Wf(t, level) && lo <= hi <= Span(level + 1) && w < Span(level + 1)
    requires !CutAt(t, level, lo) && !CutAt(t, level, hi)
    ensures Wf(Pruned(t, level, lo, hi), level)
    ensures Find(Pruned(t, level, lo, hi), level, w) == if lo <= w < hi then Miss else Find(t, level, w)
    decreases t
  {
    SlotOf(Span(level), w);
    PrunedFindAt(t, level, lo, hi, w / Span(level), w % Span(level));
  }

  ghost function Moved(h: Hit, k: nat): Hit { if h.Miss? then Miss else h.(start := h.start + k) }

  /** The leaf of a page of a slot, positions relative to the slot. */
  ghost function SlotFind(x: Slot, level: nat, r: nat): Hit
    requires WfSlot(x, level) && r < Span(level)
  {
    match x
    case Empty => Miss
    case Leaf(p, q) => Hit(level, 0, p, q)
    case Sub(s) => Find(s, level - 1, r)
  }

  lemma FindInSlot(t: Tree, level: nat, i: nat, r: nat)
    requires Wf(t, level) && i < ENTRIES && r < Span(level)
    ensures WfSlot(t.slots[i], level) && i * Span(level) + r < Span(level + 1)
    ensures Find(t, level, i * Span(level) + r) == Moved(SlotFind(t.slots[i], level, r), i * Span(level))
  {
    FindAt(t, level, i, r);
  }

  lemma {:induction false} PrunedFindAt(t: Tree, level: nat, lo: nat, hi: nat, i: nat, r: nat)
    requires Wf(t, level) && lo <= hi <= Span(level + 1)
    requires i < ENTRIES && r < Span(level) && i * Span(level) + r < Span(level + 1)
    requires !CutAt(t, level, lo) && !CutAt(t, level, hi)
    ensures Wf(Pruned(t, level, lo, hi), level)
    ensures Find(Pruned(t, level, lo, hi), level, i * Span(level) + r) ==
            if lo <= i * Span(level) + r < hi then Miss else Find(t, level, i * Span(level) + r)
    decreases t, 0
  {
    hide Find, SlotFind, Wf, WfSlot, Pruned, PrunedSlot;
    PrunedShape(t, level, lo, hi);
    PrunedAt(t, level, lo, hi, i);
    FindInSlot(t, level, i, r);
    FindInSlot(Pruned(t, level, lo, hi), level, i, r);
    var a, b := lo - i * Span(level), hi - i * Span(level);
    if 0 < a < Span(level) {
      CutInside(t, level, i, a);
    }
    if 0 < b < Span(level) {
      CutInside(t, level, i, b);
    }
    PrunedSlotFind(t.slots[i], level, a, b, r);
  }

  lemma {:induction false} PrunedSlotFind(x: Slot, level: nat, a: int, b: int, r: nat)
    requires WfSlot(x, level) && a <= b && r < Span(level)
    requires 0 < a < Span(level) ==> !SlotCut(x, level, a)
    requires 0 < b < Span(level) ==> !SlotCut(x, level, b)
    ensures WfSlot(PrunedSlot(x, level, a, b), level)
    ensures SlotFind(PrunedSlot(x, level, a, b), level, r) == if a <= r < b then Miss else SlotFind(x, level, r)
    decreases x
  {
    if x.Sub? && 0 < b && a < Span(level) {
      NoCutAtEnds(x.tree, level - 1);
      PrunedFind(x.tree, level - 1, Max(a, 0), Min(b, Span(level)), r);
      SlotOf(Span(level - 1), r);
    }
  }

  /** Removing across a slot boundary is removing on either side of it. */
  lemma PrunedSplit(t: Tree, level: nat, lo: nat, m: nat, hi: nat)
    requires Wf(t, level) && lo <= m * Span(level) <= hi
    ensures Wf(Pruned(t, level, m * Span(level), hi), level)
    ensures Pruned(t, level, lo, hi) == Pruned(Pruned(t, level, m * Span(level), hi), level, lo, m * Span(level))
  {
    var s := Span(level);
    PrunedShape(t, level, m * s, hi);
    var t1 := Pruned(t, level, m * s, hi);
    var a, b := Pruned(t, level, lo, hi), Pruned(t1, level, lo, m * s);
    forall i | 0 <= i < ENTRIES
      ensures a.slots[i] == b.slots[i]
    {
      PrunedAt(t, level, lo, hi, i);
      PrunedAt(t, level, m * s, hi, i);
      PrunedAt(t1, level, lo, m * s, i);
      MulMono(i, m, s);
      MulMono(m, i, s);
    }
  }

  /** The same, nearer side first. */
  lemma PrunedJoin(t: Tree, level: nat, lo: nat, m: nat, hi: nat)
    requires Wf(t, level) && lo <= m * Span(level) <= hi
    ensures Wf(Pruned(t, level, lo, m * Span(level)), level)
    ensures Pruned(t, level, lo, hi) == Pruned(Pruned(t, level, lo, m * Span(level)), level, m * Span(level), hi)
  {
    var s := Span(level);
    PrunedShape(t, level, lo, m * s);
    var t1 := Pruned(t, level, lo, m * s);
    var a, b := Pruned(t, level, lo, hi), Pruned(t1, level, m * s, hi);
    forall i | 0 <= i < ENTRIES
      ensures a.slots[i] == b.slots[i]
    {
      PrunedAt(t, level, lo, hi, i);
      PrunedAt(t, level, lo, m * s, i);
      PrunedAt(t1, level, m * s, hi, i);
      MulMono(i, m, s);
      MulMono(m, i, s);
    }
  }

  /** A removal inside one slot changes that slot only. */
  lemma PrunedOneSlot(t: Tree, level: nat, i: nat, r0: nat, n: nat)
    requires Wf(t, level) && i < ENTRIES && r0 + n <= Span(level) && (r0 > 0 || n > 0) && r0 < Span(level)
    ensures WfSlot(t.slots[i], level)
    ensures Pruned(t, level, i * Span(level) + r0, i * Span(level) + r0 + n) ==
            t.(slots := t.slots[i := PrunedSlot(t.slots[i], level, r0, r0 + n)])
  {
    var s := Span(level);
    var lo, hi := i * s + r0, i * s + r0 + n;
    var a := Pruned(t, level, lo, hi);
    assert WfSlot(t.slots[i], level);
    var b := t.(slots := t.slots[i := PrunedSlot(t.slots[i], level, r0, r0 + n)]);
    forall j | 0 <= j < ENTRIES
      ensures a.slots[j] == b.slots[j]
    {
      PrunedAt(t, level, lo, hi, j);
      MulMono(i, j, s);
      MulMono(j, i, s);
    }
  }

  /** Walks past the pruned slots end where they did. */
  lemma FindPast(t: Tree, level: nat, lo: nat, m: nat, i: nat, r: nat)
    requires Wf(t, level) && lo <= m * Span(level) && m <= i < ENTRIES && r < Span(level)
    ensures Wf(Pruned(t, level, lo, m * Span(level)), level) && i * Span(level) + r < Span(level + 1)
    ensures Find(Pruned(t, level, lo, m * Span(level)), level, i * Span(level) + r) ==
            Find(t, level, i * Span(level) + r)
  {
    PrunedShape(t, level, lo, m * Span(level));
    PrunedAt(t, level, lo, m * Span(level), i);
    MulMono(m, i, Span(level));
    FindAt(t, level, i, r);
    FindAt(Pruned(t, level, lo, m * Span(level)), level, i, r);
  }

  lemma CutPast(t: Tree, level: nat, lo: nat, m: nat, x: nat)
    requires Wf(t, level) && lo <= m * Span(level) <= x <= Span(level + 1)
    ensures Wf(Pruned(t, level, lo, m * Span(level)), level)
    ensures CutAt(Pruned(t, level, lo, m * Span(level)), level, x) <==> CutAt(t, level, x)
  {
    PrunedShape(t, level, lo, m * Span(level));
    if x == m * Span(level) {
      NoCutAtSlot(t, level, m);
      NoCutAtSlot(Pruned(t, level, lo, m * Span(level)), level, m);
    } else {
      SlotOf(Span(level), x - 1);
      MulMono((x - 1) / Span(level), m, Span(level));
      FindPast(t, level, lo, m, (x - 1) / Span(level), (x - 1) % Span(level));
    }
  }

  lemma NoCutAtSlot(t: Tree, level: nat, m: nat)
    requires Wf(t, level) && m * Span(level) <= Span(level + 1)
    ensures !CutAt(t, level, m * Span(level))
  {
    if m > 0 && Find(t, level, m * Span(level) - 1).Hit? {
      LeafInSlot(t, level, m * Span(level) - 1, m);
    }
  }

  /** A leaf that meets the removed range disappears as a whole. */
  lemma {:induction false} PrunedTouched(t: Tree, level: nat, lo: nat, hi: nat, w: nat)
    requires Wf(t, level) && lo <= hi && w < Span(level + 1) && Find(t, level, w).Hit?
    requires var h := Find(t, level, w); h.start < hi && lo < h.start + Span(h.level)
    ensures Wf(Pruned(t, level, lo, hi), level) && Find(Pruned(t, level, lo, hi), level, w).Miss?
    decreases t
  {
    SlotOf(Span(level), w);
    PrunedTouchedAt(t, level, lo, hi, w / Span(level), w % Span(level));
  }

  lemma {:induction false} PrunedTouchedAt(t: Tree, level: nat, lo: nat, hi: nat, i: nat, r: nat)
    requires Wf(t, level) && lo <= hi && i < ENTRIES && r < Span(level) && i * Span(level) + r < Span(level + 1)
    requires Find(t, level, i * Span(level) + r).Hit?
    requires var h := Find(t, level, i * Span(level) + r); h.start < hi && lo < h.start + Span(h.level)
    ensures Wf(Pruned(t, level, lo, hi), level) && Find(Pruned(t, level, lo, hi), level, i * Span(level) + r).Miss?
    decreases t, 0
  {
    hide Find, Wf, WfSlot, Pruned;
    PrunedShape(t, level, lo, hi);
    PrunedAt(t, level, lo, hi, i);
    FindAt(t, level, i, r);
    FindAt(Pruned(t, level, lo, hi), level, i, r);
    if t.slots[i].Sub? {
      var a, b := lo - i * Span(level), hi - i * Span(level);
      var sub := t.slots[i].tree;
      LeafCovers(sub, level - 1, r, r);
      PrunedTouched(sub, level - 1, Max(a, 0), Min(b, Span(level)), r);
    }
  }
}
