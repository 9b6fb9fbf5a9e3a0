/**
 How edits of single slots add up to a whole mapping request (see `PageTree.Done`).
 */
module PageEdit {
  import opened Basics
  import opened PageTree
  import opened PageLeaves

  ghost function WithSlot(t: Tree, i: nat, x: Slot): Tree
    requires i < |t.slots|
  {
    t.(slots := t.slots[i := x])
  }

  lemma WithSlotWf(t: Tree, level: nat, i: nat, x: Slot)
    requires Wf(t, level) && i < ENTRIES && WfSlot(x, level)
    ensures |t.slots| == ENTRIES && Wf(WithSlot(t, i, x), level)
  {
  }

  /** What `Expect` says inside one slot. */
  ghost function ExpectSlot(x: Slot, level: nat, r0: nat, ppn: nat, n: nat, perm: Perm, r: nat): Option<Target>
    requires WfSlot(x, level) && r0 + n <= Span(level) && r < Span(level)
  {
    if r0 <= r < r0 + n then (if perm.v then Some(Target(ppn + (r - r0), perm)) else None)
    else match x
      case Empty => None
      case Leaf(p, q) => if r0 > 0 && r0 + n <= r then None else Some(Target(p + r, q))
      case Sub(s) => Expect(s, level - 1, r0, ppn, n, perm, r)
  }

  /** A request inside slot i is straddled exactly when it is inside that slot's superpage or below it. */
  lemma StraddledInside(t: Tree, level: nat, i: nat, r0: nat, n: nat)
    requires Wf(t, level) && i < ENTRIES && r0 + n <= Span(level)
    ensures WfSlot(t.slots[i], level) && i * Span(level) + r0 + n <= Span(level + 1)
    ensures r0 == 0 ==> !Straddled(t, level, i * Span(level) + r0, n)
    ensures r0 > 0 && t.slots[i].Empty? ==> Find(t, level, i * Span(level) + r0 - 1).Miss?
    ensures r0 > 0 && t.slots[i].Leaf? ==>
              Find(t, level, i * Span(level) + r0 - 1) == Hit(level, i * Span(level), t.slots[i].ppn, t.slots[i].perm)
    ensures r0 > 0 && t.slots[i].Sub? ==>
              var h := Find(t.slots[i].tree, level - 1, r0 - 1);
              Find(t, level, i * Span(level) + r0 - 1) == if h.Miss? then Miss
                else h.(start := h.start + i * Span(level))
  {
    var s := Span(level);
    MulMono(i, ENTRIES, s);
    assert WfSlot(t.slots[i], level);
    if r0 > 0 {
      FindAt(t, level, i, r0 - 1);
    } else if i > 0 && Find(t, level, i * s - 1).Hit? {
      LeafInSlot(t, level, i * s - 1, i);
    }
  }

  lemma ExpectInside(t: Tree, level: nat, i: nat, r0: nat, ppn: nat, n: nat, perm: Perm, r: nat)
    requires Wf(t, level) && i < ENTRIES && r0 + n <= Span(level) && r < Span(level)
    ensures WfSlot(t.slots[i], level)
    ensures i * Span(level) + r0 + n <= Span(level + 1) && i * Span(level) + r < Span(level + 1)
    ensures Expect(t, level, i * Span(level) + r0, ppn, n, perm, i * Span(level) + r) ==
            ExpectSlot(t.slots[i], level, r0, ppn, n, perm, r)
  {
    LookupAt(t, level, i, r);
    StraddledInside(t, level, i, r0, n);
  }

  lemma ExpectOutside(t: Tree, level: nat, o: nat, ppn: nat, n: nat, perm: Perm, w: nat, m: nat)
    requires Wf(t, level) && w < Span(level + 1) && o + n <= Span(level + 1)
    requires o + n <= m * Span(level) && (w < o || m * Span(level) <= w)
    ensures Expect(t, level, o, ppn, n, perm, w) == Lookup(t, level, w)
  {
    if o > 0 && Find(t, level, o - 1).Hit? {
      LeafInSlot(t, level, o - 1, m);
    }
  }

  /** Replacing one slot carries out a request that lies inside the slot. */
  lemma SlotEdit(t: Tree, level: nat, i: nat, x: Slot, r0: nat, ppn: nat, n: nat, perm: Perm)
    requires Wf(t, level) && i < ENTRIES && r0 + n <= Span(level) && WfSlot(x, level)
    requires r0 < Span(level) && (r0 > 0 || n > 0)
    requires WfSlot(t.slots[i], level) && SlotPlaced(t.slots[i], x, level, r0, r0 + n)
    requires forall r :: 0 <= r < Span(level) ==>
               SlotLookup(x, level, r) == ExpectSlot(t.slots[i], level, r0, ppn, n, perm, r)
    requires Tidy(t) && n > 0 && perm.v && x.Sub? ==> !AllEmpty(x.tree) && Tidy(x.tree)
    requires Tidy(t) && n > 0 && perm.v && (forall r :: r0 <= r < r0 + n ==> SlotLookup(t.slots[i], level, r).None?)
             ==> PrunedSlot(x, level, r0, r0 + n) == t.slots[i]
    requires Fine(t, level) && n < Span(1) ==> FineSlot(x, level)
    ensures i * Span(level) + r0 + n <= Span(level + 1)
    ensures Done(t, WithSlot(t, i, x), level, i * Span(level) + r0, ppn, n, perm)
  {
    hide Find, Lookup, Expect, SlotLookup, ExpectSlot, PrunedSlot, Pruned, Placed, SlotPlaced, Unmapped;
    MulMono(i, ENTRIES, Span(level));
    var t' := WithSlot(t, i, x);
    WithSlotWf(t, level, i, x);
    var o := i * Span(level) + r0;
    forall w | 0 <= w < Span(level + 1)
      ensures Lookup(t', level, w) == Expect(t, level, o, ppn, n, perm, w)
    {
      SlotOf(Span(level), w);
      SlotEditLookup(t, level, i, x, r0, ppn, n, perm, w / Span(level), w % Span(level));
    }
    PlacedSlot(t, t', level, i, r0, n, o);
    if Tidy(t) && n > 0 && perm.v && Unmapped(t, level, o, n) {
      SlotUnmapped(t, level, i, r0, n);
      SlotEditUndone(t, level, i, x, r0, n);
    }
  }

  lemma SlotUnmapped(t: Tree, level: nat, i: nat, r0: nat, n: nat)
    requires Wf(t, level) && i < ENTRIES && r0 + n <= Span(level)
    requires i * Span(level) + r0 + n <= Span(level + 1) && Unmapped(t, level, i * Span(level) + r0, n)
    ensures WfSlot(t.slots[i], level) && forall r :: r0 <= r < r0 + n ==> SlotLookup(t.slots[i], level, r).None?
  {
    assert WfSlot(t.slots[i], level);
    hide Find, Lookup, SlotLookup;
    forall r | r0 <= r < r0 + n
      ensures SlotLookup(t.slots[i], level, r).None?
    {
      LookupAt(t, level, i, r);
      assert Lookup(t, level, i * Span(level) + r).None?;
    }
  }

  lemma SlotEditLookup(t: Tree, level: nat, i: nat, x: Slot, r0: nat, ppn: nat, n: nat, perm: Perm, j: nat, r: nat)
    requires Wf(t, level) && i < ENTRIES && r0 + n <= Span(level) && WfSlot(x, level) && j < ENTRIES && r < Span(level)
    requires WfSlot(t.slots[i], level) && i * Span(level) + r0 + n <= Span(level + 1)
    requires SlotLookup(x, level, r) == ExpectSlot(t.slots[i], level, r0, ppn, n, perm, r)
    ensures j * Span(level) + r < Span(level + 1) && Wf(WithSlot(t, i, x), level)
    ensures Lookup(WithSlot(t, i, x), level, j * Span(level) + r) ==
            Expect(t, level, i * Span(level) + r0, ppn, n, perm, j * Span(level) + r)
  {
    hide Find, Lookup, Expect, SlotLookup, ExpectSlot, Wf, WfSlot, Span;
    WithSlotWf(t, level, i, x);
    LookupAt(t, level, j, r);
    LookupAt(WithSlot(t, i, x), level, j, r);
    if j == i {
      ExpectInside(t, level, i, r0, ppn, n, perm, r);
    } else {
      MulMono(i, j, Span(level));
      MulMono(j, i, Span(level));
      ExpectOutside(t, level, i * Span(level) + r0, ppn, n, perm, j * Span(level) + r, i + 1);
    }
  }

  lemma SlotEditUndone(t: Tree, level: nat, i: nat, x: Slot, r0: nat, n: nat)
    requires Wf(t, level) && i < ENTRIES && r0 + n <= Span(level) && WfSlot(x, level) && n > 0
    requires i * Span(level) + r0 + n <= Span(level + 1) && PrunedSlot(x, level, r0, r0 + n) == t.slots[i]
    ensures Wf(WithSlot(t, i, x), level)
    ensures Pruned(WithSlot(t, i, x), level, i * Span(level) + r0, i * Span(level) + r0 + n) == t
  {
    WithSlotWf(t, level, i, x);
    hide Wf, WfSlot, Pruned;
    var s := Span(level);
    var o := i * s + r0;
    var t' := WithSlot(t, i, x);
    forall j | 0 <= j < ENTRIES
      ensures Pruned(t', level, o, o + n).slots[j] == t.slots[j]
    {
      PrunedAt(t', level, o, o + n, j);
      MulMono(i, j, s);
      MulMono(j, i, s);
    }
    assert Pruned(t', level, o, o + n).slots == t.slots;
  }

  /** Two requests that meet at a slot boundary are one request. */
  lemma Compose(t: Tree, t1: Tree, t2: Tree, level: nat, o: nat, ppn: nat, a: nat, b: nat, perm: Perm, m: nat)
    requires Wf(t, level) && o + a + b <= Span(level + 1) && a > 0 && b > 0
    requires Done(t, t1, level, o, ppn, a, perm)
    requires o + a == m * Span(level)
    requires Done(t1, t2, level, o + a, ppn + a, b, perm)
    ensures Done(t, t2, level, o, ppn, a + b, perm)
  {
    hide Fine, Tidy, Placed, Pruned, Wf, Find, Lookup, Expect;
    ComposePlaced(t, t1, t2, level, o, m, o + a + b);
    forall w | 0 <= w < Span(level + 1)
      ensures Lookup(t2, level, w) == Expect(t, level, o, ppn, a + b, perm, w)
    {
      assert Lookup(t2, level, w) == Expect(t1, level, o + a, ppn + a, b, perm, w);
      assert Lookup(t1, level, w) == Expect(t, level, o, ppn, a, perm, w);
      ComposeExpect(t, t1, level, o, ppn, a, b, perm, m, w);
    }
    if Tidy(t) && perm.v && Unmapped(t, level, o, a + b) {
      ComposeUndone(t, t1, t2, level, o, ppn, a, b, perm, m);
    }
  }

  lemma ComposeExpect(t: Tree, t1: Tree, level: nat, o: nat, ppn: nat, a: nat, b: nat, perm: Perm, m: nat, w: nat)
    requires Wf(t, level) && Wf(t1, level) && o + a + b <= Span(level + 1) && a > 0 && b > 0 && w < Span(level + 1)
    requires o + a == m * Span(level) && Lookup(t1, level, w) == Expect(t, level, o, ppn, a, perm, w)
    ensures Expect(t1, level, o + a, ppn + a, b, perm, w) == Expect(t, level, o, ppn, a + b, perm, w)
  {
    hide Wf, Find;
    if o > 0 && Find(t, level, o - 1).Hit? {
      LeafInSlot(t, level, o - 1, m);
    }
    if Find(t1, level, o + a - 1).Hit? {
      LeafInSlot(t1, level, o + a - 1, m);
    }
  }

  lemma ComposeUndone(t: Tree, t1: Tree, t2: Tree, level: nat, o: nat, ppn: nat, a: nat, b: nat, perm: Perm, m: nat)
    requires Wf(t, level) && o + a + b <= Span(level + 1) && a > 0 && b > 0
    requires Done(t, t1, level, o, ppn, a, perm)
    requires o + a == m * Span(level)
    requires Done(t1, t2, level, o + a, ppn + a, b, perm)
    requires Tidy(t) && perm.v && Unmapped(t, level, o, a + b)
    ensures Pruned(t2, level, o, o + a + b) == t
  {
    assert Unmapped(t, level, o, a);
    assert Unmapped(t1, level, o + a, b) by {
      forall w | o + a <= w < o + a + b
        ensures Lookup(t1, level, w).None?
      {
        assert Lookup(t1, level, w) == Expect(t, level, o, ppn, a, perm, w);
        assert Lookup(t, level, w).None?;
      }
    }
    PrunedSplit(t2, level, o, m, o + a + b);
  }

  /** The slot a whole-slot request stores. */
  function Stored(ppn: nat, perm: Perm): Slot {
    if perm.v then Leaf(ppn, perm) else Empty
  }

  /** In a tidy tree, a slot that is not empty maps some page. */
  lemma SlotMapsSomething(x: Slot, level: nat) returns (r: nat)
    requires WfSlot(x, level) && (x.Sub? ==> Tidy(x.tree) && !AllEmpty(x.tree))
    requires !x.Empty?
    ensures r < Span(level) && SlotLookup(x, level, r).Some?
  {
    if x.Sub? {
      r := TidyMapsSomething(x.tree, level - 1);
    } else {
      r := 0;
    }
  }

  /** Storing a leaf carries out a request for one whole slot. */
  lemma WholeSlot(t: Tree, level: nat, i: nat, ppn: nat, perm: Perm)
    requires Wf(t, level) && i < ENTRIES && perm.Coherent() && ppn + Span(level) <= PPN_LIMIT
    ensures i * Span(level) + Span(level) <= Span(level + 1)
    ensures Done(t, WithSlot(t, i, Stored(ppn, perm)), level, i * Span(level), ppn, Span(level), perm)
    ensures Tidy(t) && perm.v && Unmapped(t, level, i * Span(level), Span(level)) ==> t.slots[i].Empty?
  {
    var s := Span(level);
    var x := Stored(ppn, perm);
    MulMono(i, ENTRIES, s);
    assert WfSlot(t.slots[i], level);
    if Tidy(t) && !t.slots[i].Empty? {
      var r := SlotMapsSomething(t.slots[i], level);
      LookupAt(t, level, i, r);
      assert Lookup(t, level, i * s + r).Some?;
    }
    SpanGrows(level);
    WholePlaced(t.slots[i], x, level);
    SlotEdit(t, level, i, x, 0, ppn, s, perm);
  }

  lemma SpanGrows(level: nat)
    ensures level > 0 ==> Span(level) >= Span(1)
    decreases level
  {
    if level > 1 {
      SpanGrows(level - 1);
    }
  }

  /** The part of a broken-up superpage that is mapped again: the pages before or the pages after the request. */
  ghost predicate PushedDown(x: Slot, level: nat, s0: Tree, page: Ppn, r0: nat, n: nat)
    requires level > 0 && WfSlot(x, level) && x.Leaf? && r0 + n <= Span(level)
  {
    && Wf(Blank(page), level - 1)
    && if r0 > 0 then Done(Blank(page), s0, level - 1, 0, x.ppn, r0, x.perm)
       else Done(Blank(page), s0, level - 1, n, x.ppn + n, Span(level) - n, x.perm)
  }

  /** A request carried out on a blank node maps the request and nothing else. */
  lemma BlankDone(page: Ppn, t: Tree, level: nat, o: nat, ppn: nat, n: nat, perm: Perm, w: nat)
    requires Wf(Blank(page), level) && o + n <= Span(level + 1) && w < Span(level + 1)
    requires Done(Blank(page), t, level, o, ppn, n, perm)
    ensures Lookup(t, level, w) == if o <= w < o + n && perm.v then Some(Target(ppn + (w - o), perm)) else None
  {
    BlankMapsNothing(page, level, w);
    if o > 0 {
      BlankMapsNothing(page, level, o - 1);
    }
  }

  ghost predicate Keeps(r0: nat, n: nat, r: nat) {
    if r0 > 0 then r < r0 else n <= r
  }

  lemma PushedDownAt(x: Slot, level: nat, s0: Tree, page: Ppn, r0: nat, n: nat, r: nat)
    requires level > 0 && WfSlot(x, level) && x.Leaf? && r0 + n <= Span(level) && r < Span(level)
    requires PushedDown(x, level, s0, page, r0, n)
    ensures Wf(s0, level - 1)
    ensures Lookup(s0, level - 1, r) == if Keeps(r0, n, r) then Some(Target(x.ppn + r, x.perm)) else None
  {
    if r0 > 0 {
      BlankDone(page, s0, level - 1, 0, x.ppn, r0, x.perm, r);
    } else {
      BlankDone(page, s0, level - 1, n, x.ppn + n, Span(level) - n, x.perm, r);
    }
  }

  lemma PushedDownNotStraddled(x: Slot, level: nat, s0: Tree, page: Ppn, r0: nat, n: nat)
    requires level > 0 && WfSlot(x, level) && x.Leaf? && r0 + n <= Span(level)
    requires PushedDown(x, level, s0, page, r0, n) && Wf(s0, level - 1)
    ensures !Straddled(s0, level - 1, r0, n)
  {
    if r0 > 0 {
      var h := Find(s0, level - 1, r0 - 1);
      if h.Hit? {
        LeafCovers(s0, level - 1, r0 - 1, r0 - 1);
        if r0 + n < Span(level) {
          PushedDownAt(x, level, s0, page, r0, n, r0 + n);
          if r0 + n < h.start + Span(h.level) {
            LeafCovers(s0, level - 1, r0 - 1, r0 + n);
          }
        }
      }
    }
  }

  /** Where the node below a slot comes from before the request is passed on to it. */
  ghost predicate Entered(x: Slot, level: nat, s0: Tree, page: Ppn, r0: nat, n: nat)
    requires level > 0 && WfSlot(x, level) && r0 + n <= Span(level)
  {
    match x
    case Empty => s0 == Blank(page)
    case Leaf(_, _) => PushedDown(x, level, s0, page, r0, n)
    case Sub(s) => s0 == s
  }

  lemma PartSlotLookup(x: Slot, level: nat, s0: Tree, s1: Tree, page: Ppn, r0: nat, ppn: nat, n: nat, perm: Perm,
                       r: nat)
    requires level > 0 && WfSlot(x, level) && r0 + n <= Span(level) && r < Span(level)
    requires Entered(x, level, s0, page, r0, n)
    requires Wf(s0, level - 1) && Done(s0, s1, level - 1, r0, ppn, n, perm)
    ensures Lookup(s1, level - 1, r) == ExpectSlot(x, level, r0, ppn, n, perm, r)
  {
    assert Lookup(s1, level - 1, r) == Expect(s0, level - 1, r0, ppn, n, perm, r);
    if x.Leaf? {
      PushedDownNotStraddled(x, level, s0, page, r0, n);
      PushedDownAt(x, level, s0, page, r0, n, r);
    } else if x.Empty? {
      BlankDone(page, s1, level - 1, r0, ppn, n, perm, r);
    }
  }

  /** Passing a request on to the node below one slot carries it out. */
  lemma PartSlot(t: Tree, level: nat, i: nat, s0: Tree, s1: Tree, page: Ppn, r0: nat, ppn: nat, n: nat, perm: Perm)
    requires level > 0 && Wf(t, level) && i < ENTRIES && r0 + n <= Span(level)
    requires r0 < Span(level) && (r0 > 0 || 0 < n < Span(level))
    requires WfSlot(t.slots[i], level) && Entered(t.slots[i], level, s0, page, r0, n)
    requires Wf(s0, level - 1) && Done(s0, s1, level - 1, r0, ppn, n, perm)
    ensures i * Span(level) + r0 + n <= Span(level + 1)
    ensures Done(t, WithSlot(t, i, Sub(s1)), level, i * Span(level) + r0, ppn, n, perm)
  {
    var x := t.slots[i];
    forall r | 0 <= r < Span(level)
      ensures Lookup(s1, level - 1, r) == ExpectSlot(x, level, r0, ppn, n, perm, r)
    {
      PartSlotLookup(x, level, s0, s1, page, r0, ppn, n, perm, r);
    }
    if Tidy(t) && n > 0 && perm.v {
      PartSlotTidy(x, level, s0, s1, page, r0, ppn, n, perm);
    }
    if Fine(t, level) && n < Span(1) {
      PartSlotFine(x, level, s0, s1, page, r0, ppn, n, perm);
    }
    if x.Empty? {
      BlankVoid(page, level - 1);
    }
    PartPlaced(x, s0, s1, level, r0, n);
    hide Placed, SlotPlaced, ExpectSlot, PrunedSlot, Find, Expect, Entered;
    SlotEdit(t, level, i, Sub(s1), r0, ppn, n, perm);
  }

  lemma BlankVoid(page: Ppn, level: nat)
    ensures Wf(Blank(page), level) && Void(Blank(page), level)
  {
    BlankMapsNothing(page, level, 0);
    forall w | 0 <= w < Span(level + 1) ensures Find(Blank(page), level, w).Miss? {
      BlankMapsNothing(page, level, w);
    }
  }

  lemma PartSlotFine(x: Slot, level: nat, s0: Tree, s1: Tree, page: Ppn, r0: nat, ppn: nat, n: nat, perm: Perm)
    requires level > 0 && WfSlot(x, level) && r0 + n <= Span(level) && n < Span(1) && FineSlot(x, level)
    requires Entered(x, level, s0, page, r0, n)
    requires Wf(s0, level - 1) && Done(s0, s1, level - 1, r0, ppn, n, perm)
    ensures FineSlot(Sub(s1), level)
  {
    assert x.Empty? ==> Fine(Blank(page), level - 1);
  }

  lemma PartSlotTidy(x: Slot, level: nat, s0: Tree, s1: Tree, page: Ppn, r0: nat, ppn: nat, n: nat, perm: Perm)
    requires level > 0 && WfSlot(x, level) && r0 + n <= Span(level)
    requires Entered(x, level, s0, page, r0, n)
    requires Wf(s0, level - 1) && Done(s0, s1, level - 1, r0, ppn, n, perm)
    requires r0 > 0 || n < Span(level)
    requires n > 0 && perm.v && (x.Sub? ==> Tidy(x.tree) && !AllEmpty(x.tree))
    ensures !AllEmpty(s1) && Tidy(s1)
    ensures (forall r :: r0 <= r < r0 + n ==> SlotLookup(x, level, r).None?) ==>
            PrunedSlot(Sub(s1), level, r0, r0 + n) == x
  {
    hide Placed, Find;
    BlankMapsNothing(page, level - 1, 0);
    assert Lookup(s1, level - 1, r0) == Expect(s0, level - 1, r0, ppn, n, perm, r0);
    MappedNotEmpty(s1, level - 1, r0);
    hide Lookup;
    if x.Leaf? {
      assert SlotLookup(x, level, r0).Some?;
    } else if forall r :: r0 <= r < r0 + n ==> SlotLookup(x, level, r).None? {
      EnteredUnmapped(x, level, s0, page, r0, n);
    }
  }

  lemma EnteredUnmapped(x: Slot, level: nat, s0: Tree, page: Ppn, r0: nat, n: nat)
    requires level > 0 && WfSlot(x, level) && r0 + n <= Span(level) && Wf(s0, level - 1)
    requires if x.Sub? then s0 == x.tree else s0 == Blank(page)
    requires forall r :: r0 <= r < r0 + n ==> SlotLookup(x, level, r).None?
    ensures Unmapped(s0, level - 1, r0, n)
  {
    var below := level - 1;
    forall r | r0 <= r < r0 + n
      ensures Lookup(s0, below, r).None?
    {
      BlankMapsNothing(page, level - 1, r);
      assert SlotLookup(x, level, r).None?;
    }
  }
}
