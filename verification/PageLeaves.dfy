/**
 How large the leaves of a mapping request are (see `PageTree.Placed`).
 */
module PageLeaves {
  import opened Basics
  import opened PageTree

  /** Only the part of a request inside the node counts. */
  lemma {:induction false} LeafLevelClip(level: nat, lo: int, hi: int, lo': int, hi': int, w: nat)
    requires w < Span(level + 1) && (lo == lo' || (lo <= 0 && lo' <= 0))
    requires hi == hi' || (hi >= Span(level + 1) && hi' >= Span(level + 1))
    ensures LeafLevel(level, lo, hi, w) == LeafLevel(level, lo', hi', w)
    decreases level
  {
    var s := Span(level);
    BaseOf(s, w);
    hide Base;
    var b := Base(w, s);
    if level > 0 {
      LeafLevelClip(level - 1, lo - b, hi - b, lo' - b, hi' - b, w % s);
    }
  }

  lemma BaseOf(s: nat, w: nat)
    requires s > 0 && w < ENTRIES * s
    ensures Base(w, s) + s <= ENTRIES * s && w % s < s && w == Base(w, s) + w % s
  {
    SlotOf(s, w);
    MulMono(w / s, ENTRIES, s);
  }

  /** The node maps no page. */
  ghost predicate Void(t: Tree, level: nat)
    requires Wf(t, level)
  {
    forall w :: 0 <= w < Span(level + 1) ==> Find(t, level, w).Miss?
  }

  /** One step, by slot and rest. */
  lemma LeafLevelAt(level: nat, lo: int, hi: int, i: nat, r: nat)
    requires r < Span(level)
    ensures var b := i * Span(level);
            LeafLevel(level, lo, hi, b + r) ==
            if level == 0 || (lo <= b && b + Span(level) <= hi) then level else LeafLevel(level - 1, lo - b, hi - b, r)
  {
    Locate(Span(level), i, r);
  }

  /** A page on one side of a slot boundary inside the request gets the leaf that side of the request gives it. */
  lemma LeafLevelSide(level: nat, lo: nat, m: nat, hi: nat, w: nat)
    requires lo <= w < hi <= Span(level + 1) && lo <= m * Span(level) <= hi
    ensures w < m * Span(level) ==> LeafLevel(level, lo, hi, w) == LeafLevel(level, lo, m * Span(level), w)
    ensures w >= m * Span(level) ==> LeafLevel(level, lo, hi, w) == LeafLevel(level, m * Span(level), hi, w)
  {
    var s := Span(level);
    SlotOf(s, w);
    var i := w / s;
    var b, r, mid := i * s, w % s, m * s;
    MulMono(i, m, s);
    MulMono(m, i, s);
    LeafLevelAt(level, lo, hi, i, r);
    if w < mid {
      assert b + s <= mid;
      LeafLevelAt(level, lo, mid, i, r);
      if level > 0 {
        LeafLevelClip(level - 1, lo - b, hi - b, lo - b, mid - b, r);
      }
    } else {
      assert mid <= b;
      LeafLevelAt(level, mid, hi, i, r);
      if level > 0 {
        LeafLevelClip(level - 1, lo - b, hi - b, mid - b, hi - b, r);
      }
    }
  }

  // ----- one slot

  /** The level of the leaf a slot maps a page with. */
  ghost function SlotLevel(x: Slot, level: nat, r: nat): Option<nat>
    requires WfSlot(x, level) && r < Span(level)
  {
    match x
    case Empty => None
    case Leaf(_, _) => Some(level)
    case Sub(s) => var h := Find(s, level - 1, r); if h.Hit? then Some(h.level) else None
  }

  /** What `PlacedAt` says inside one slot. */
  ghost predicate SlotPlacedAt(x: Slot, x': Slot, level: nat, a: nat, b: nat, r: nat)
    requires WfSlot(x, level) && WfSlot(x', level) && r < Span(level)
  {
    var l, l' := SlotLevel(x, level, r), SlotLevel(x', level, r);
    l'.Some? ==>
      if a <= r < b
      then l'.value == if level == 0 || (a == 0 && Span(level) <= b) then level else LeafLevel(level - 1, a, b, r)
      else l.Some? && l'.value <= l.value
  }

  ghost predicate SlotPlaced(x: Slot, x': Slot, level: nat, a: nat, b: nat)
    requires WfSlot(x, level) && WfSlot(x', level)
  {
    forall r :: 0 <= r < Span(level) ==> SlotPlacedAt(x, x', level, a, b, r)
  }

  lemma LevelAt(t: Tree, level: nat, i: nat, r: nat)
    requires Wf(t, level) && i < ENTRIES && r < Span(level)
    ensures WfSlot(t.slots[i], level) && i * Span(level) + r < Span(level + 1)
    ensures var h := Find(t, level, i * Span(level) + r);
            SlotLevel(t.slots[i], level, r) == if h.Hit? then Some(h.level) else None
  {
    FindAt(t, level, i, r);
  }

  lemma UntouchedSlot(level: nat, i: nat, j: nat, r0: nat, n: nat)
    requires r0 + n <= Span(level) && r0 < Span(level) && (r0 > 0 || n > 0)
    ensures Touched(level, j, i * Span(level) + r0, i * Span(level) + r0 + n) <==> j == i
  {
    MulMono(i, j, Span(level));
    MulMono(j, i, Span(level));
  }

  lemma PlacedInSlot(t: Tree, t': Tree, level: nat, i: nat, r0: nat, n: nat, o: nat, j: nat, r: nat, w: nat)
    requires Wf(t, level) && Wf(t', level) && i < ENTRIES && r0 + n <= Span(level) && j < ENTRIES && r < Span(level)
    requires o == i * Span(level) + r0 && w == j * Span(level) + r < Span(level + 1)
    requires j != i ==> t'.slots[j] == t.slots[j]
    requires WfSlot(t.slots[i], level) && WfSlot(t'.slots[i], level)
    requires SlotPlacedAt(t.slots[i], t'.slots[i], level, r0, r0 + n, r)
    ensures PlacedAt(t, t', level, o, o + n, w)
  {
    hide Find, Wf, WfSlot;
    LevelAt(t, level, j, r);
    LevelAt(t', level, j, r);
    MulMono(i, j, Span(level));
    MulMono(j, i, Span(level));
    if j == i {
      LeafLevelAt(level, o, o + n, i, r);
    }
  }

  /** A request inside one slot, as far as the leaves go. */
  lemma PlacedSlot(t: Tree, t': Tree, level: nat, i: nat, r0: nat, n: nat, o: nat)
    requires Wf(t, level) && Wf(t', level) && i < ENTRIES && r0 + n <= Span(level) && r0 < Span(level) &&
             (r0 > 0 || n > 0)
    requires o == i * Span(level) + r0
    requires forall j :: 0 <= j < ENTRIES && j != i ==> t'.slots[j] == t.slots[j]
    requires WfSlot(t.slots[i], level) && WfSlot(t'.slots[i], level) &&
             SlotPlaced(t.slots[i], t'.slots[i], level, r0, r0 + n)
    ensures Placed(t, t', level, o, o + n)
  {
    assert |t.slots| == |t'.slots| == ENTRIES;
    hide PlacedAt, SlotPlacedAt, Touched, Wf, WfSlot, Find;
    var end := o + n;
    forall j | 0 <= j < ENTRIES && !Touched(level, j, o, end) ensures t'.slots[j] == t.slots[j] {
      UntouchedSlot(level, i, j, r0, n);
    }
    forall w | 0 <= w < Span(level + 1) ensures PlacedAt(t, t', level, o, end, w) {
      SlotOf(Span(level), w);
      PlacedInSlot(t, t', level, i, r0, n, o, w / Span(level), w % Span(level), w);
    }
  }

  /** A leaf for the whole slot. */
  lemma WholePlaced(x: Slot, x': Slot, level: nat)
    requires WfSlot(x, level) && WfSlot(x', level) && !x'.Sub?
    ensures SlotPlaced(x, x', level, 0, Span(level))
  {
  }

  /** The request passed on to the node below. */
  lemma PartPlaced(x: Slot, s0: Tree, s1: Tree, level: nat, r0: nat, n: nat)
    requires level > 0 && WfSlot(x, level) && r0 + n <= Span(level) && (r0 > 0 || n < Span(level))
    requires Wf(s0, level - 1) && Wf(s1, level - 1) && Placed(s0, s1, level - 1, r0, r0 + n)
    requires x.Sub? ==> s0 == x.tree
    requires x.Empty? ==> Void(s0, level - 1)
    ensures SlotPlaced(x, Sub(s1), level, r0, r0 + n)
  {
    hide Wf, Find, LeafLevel, PlacedAt, SlotPlacedAt;
    var b := r0 + n;
    forall r | 0 <= r < Span(level) ensures SlotPlacedAt(x, Sub(s1), level, r0, b, r) {
      PartPlacedAt(x, s0, s1, level, r0, n, r);
    }
  }

  lemma PartPlacedAt(x: Slot, s0: Tree, s1: Tree, level: nat, r0: nat, n: nat, r: nat)
    requires level > 0 && WfSlot(x, level) && r0 + n <= Span(level) && (r0 > 0 || n < Span(level)) && r < Span(level)
    requires Wf(s0, level - 1) && Wf(s1, level - 1) && PlacedAt(s0, s1, level - 1, r0, r0 + n, r)
    requires (x.Sub? ==> s0 == x.tree) && (x.Empty? ==> Find(s0, level - 1, r).Miss?)
    ensures SlotPlacedAt(x, Sub(s1), level, r0, r0 + n, r)
  {
    hide Wf, LeafLevel;
    assert x.Leaf? && Find(s1, level - 1, r).Hit? ==> Find(s1, level - 1, r).level <= level by {
      LevelBound(s1, level - 1, r);
    }
  }

  lemma {:induction false} LevelBound(t: Tree, level: nat, w: nat)
    requires Wf(t, level) && w < Span(level + 1)
    ensures Find(t, level, w).Hit? ==> Find(t, level, w).level <= level
    decreases t
  {
    SlotOf(Span(level), w);
    var i := w / Span(level);
    assert WfSlot(t.slots[i], level);
    if t.slots[i].Sub? {
      LevelBound(t.slots[i].tree, level - 1, w % Span(level));
    }
  }

  // ----- two requests that meet at a slot boundary

  lemma SameSlotFind(t: Tree, t': Tree, level: nat, i: nat, r: nat)
    requires Wf(t, level) && Wf(t', level) && i < ENTRIES && r < Span(level) && t'.slots[i] == t.slots[i]
    ensures i * Span(level) + r < Span(level + 1)
    ensures Find(t', level, i * Span(level) + r) == Find(t, level, i * Span(level) + r)
  {
    FindAt(t, level, i, r);
    FindAt(t', level, i, r);
  }

  lemma ComposeTouched(level: nat, i: nat, o: nat, m: nat, end: nat)
    requires o <= m * Span(level) <= end
    ensures !Touched(level, i, o, end) ==>
            !Touched(level, i, o, m * Span(level)) && !Touched(level, i, m * Span(level), end)
    ensures i < m ==> !Touched(level, i, m * Span(level), end)
  {
    MulMono(i, m, Span(level));
    MulMono(m, i, Span(level));
  }

  lemma ComposePlacedAt(t: Tree, t1: Tree, t2: Tree, level: nat, o: nat, m: nat, end: nat, w: nat)
    requires Wf(t, level) && Wf(t1, level) && Wf(t2, level) && w < Span(level + 1)
    requires o <= m * Span(level) <= end <= Span(level + 1)
    requires PlacedAt(t, t1, level, o, m * Span(level), w) && PlacedAt(t1, t2, level, m * Span(level), end, w)
    requires w < m * Span(level) ==> Find(t2, level, w) == Find(t1, level, w)
    ensures PlacedAt(t, t2, level, o, end, w)
  {
    hide Find, Wf;
    if o <= w < end {
      LeafLevelSide(level, o, m, end, w);
    }
  }

  lemma ComposePlaced(t: Tree, t1: Tree, t2: Tree, level: nat, o: nat, m: nat, end: nat)
    requires Wf(t, level) && Wf(t1, level) && Wf(t2, level) && o <= m * Span(level) <= end <= Span(level + 1)
    requires Placed(t, t1, level, o, m * Span(level)) && Placed(t1, t2, level, m * Span(level), end)
    ensures Placed(t, t2, level, o, end)
  {
    assert |t.slots| == |t1.slots| == |t2.slots| == ENTRIES;
    hide Wf, Find, Touched, PlacedAt;
    var s := Span(level);
    forall i | 0 <= i < ENTRIES && !Touched(level, i, o, end) ensures t2.slots[i] == t.slots[i] {
      ComposeTouched(level, i, o, m, end);
    }
    forall w | 0 <= w < Span(level + 1) ensures PlacedAt(t, t2, level, o, end, w) {
      SlotOf(s, w);
      if w < m * s {
        MulMono(m, w / s, s);
        ComposeTouched(level, w / s, o, m, end);
        SameSlotFind(t1, t2, level, w / s, w % s);
      }
      ComposePlacedAt(t, t1, t2, level, o, m, end, w);
    }
  }
}
