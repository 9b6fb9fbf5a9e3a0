/**
 What the hardware makes of a page table: the Sv39 translation process of section 4.3.2 of the RISC-V Privileged
 Architecture (v1.10), and when it agrees with the kernel's own walk.
 */
module Sv39 {
  import opened Basics
  import opened PageTree
  import opened PageEdit
  import opened PageMemory
  import opened PageLeaves
  import opened PageRemove

  /**
   The hardware walk from the node in frame `table`: steps 2 to 5 of the translation process, with None for a page
   fault.  Access and dirty bits, which an implementation may maintain by itself, are not looked at.
   */
  ghost function Walk(m: Memory, table: Ppn, level: nat, vpn: nat): Option<Target>
    decreases level
  {
    if table !in m || |m[table]| != ENTRIES then None else
    var e := m[table][Index(vpn, Span(level))];
    if !e.perm.v || (!e.perm.r && e.perm.w) then None
    else if e.perm.r || e.perm.x then
      if level > 0 && e.ppn % Span(level) != 0 then None  // misaligned superpage
      else Some(Target(e.ppn - e.ppn % Span(level) + Offset(vpn, Span(level)), e.perm))
    else if level == 0 then None
    else Walk(m, e.ppn, level - 1, vpn)
  }

  /** A leaf the hardware accepts: its frame aligned to its size, and no write-only permission. */
  ghost predicate Accepted(h: Hit) {
    h.Miss? || (h.ppn % Span(h.level) == 0 && (h.perm.r || !h.perm.w))
  }

  /** The hardware accepts the leaf page w of a whole table is mapped with. */
  ghost predicate AcceptedAt(t: Tree, w: nat)
    requires Wf(t, 2) && w < Span(3)
  {
    Accepted(Find(t, 2, w))
  }

  /** The hardware translates as the kernel does, except that it faults at leaves it does not accept. */
  lemma {:induction false} HardwareWalk(m: Memory, t: Tree, level: nat, vpn: nat)
    requires Good(m, t, level)
    ensures Offset(vpn, Span(level + 1)) < Span(level + 1)
    ensures var o := Offset(vpn, Span(level + 1));
            Walk(m, t.page, level, vpn) == if Accepted(Find(t, level, o)) then Lookup(t, level, o) else None
    decreases t
  {
    TablePosition(vpn, level);
    var i, r := Index(vpn, Span(level)), Offset(vpn, Span(level));
    ReadEntry(m, t, level, i);
    FindAt(t, level, i, r);
    if t.slots[i].Sub? {
      HardwareWalk(m, t.slots[i].tree, level - 1, vpn);
    } else if t.slots[i].Leaf? && level == 0 {
      assert Span(0) == 1;
    }
  }

  /** Kernel and hardware agree on a page exactly when the leaf found for it is one the hardware accepts. */
  lemma HardwareAgreesIff(m: Memory, t: Tree, vpn: nat)
    requires Good(m, t, 2) && Offset(vpn, Span(3)) < Span(3)
    ensures Walk(m, t.page, 2, vpn) == Lookup(t, 2, Offset(vpn, Span(3))) <==>
            Accepted(Find(t, 2, Offset(vpn, Span(3))))
  {
    HardwareWalk(m, t, 2, vpn);
  }

  // ----- what a mapping request has to look like for the hardware

  /** Some slot of a level lies in [lo, hi): the first that begins at or after lo. */
  predicate Fills(level: nat, lo: nat, hi: nat) { Base(lo + Span(level) - 1, Span(level)) + Span(level) <= hi }

  /** Page and frame are congruent modulo every size of leaf the request makes. */
  ghost predicate Congruent(vpn: nat, ppn: nat, n: nat) {
    forall level :: 0 <= level <= 2 && Fills(level, vpn, vpn + n) ==> ppn % Span(level) == vpn % Span(level)
  }

  lemma ModAdd(a: int, c: int, s: nat)
    requires s > 0
    ensures (a + c * s) % s == a % s && (a + c * s) / s == a / s + c
  {
    var q, r := a / s, a % s;
    assert a + c * s == (q + c) * s + r;
    Locate(s, q + c, r);
  }

  lemma ModSub(x: int, y: int, s: nat)
    requires s > 0
    ensures (x - y) % s == 0 <==> x % s == y % s
  {
    var q, p := x / s, y / s;
    ModAdd(x % s - y % s, q - p, s);
    WholeParts(x, s);
    WholeParts(y, s);
    MulMinus(q, p, s);
    SmallMultiple(x % s - y % s, s);
  }

  lemma MulMinus(q: int, p: int, s: int)
    ensures (q - p) * s == q * s - p * s
  {
  }

  lemma SmallMultiple(d: int, s: int)
    requires -s < d < s
    ensures d % s == 0 <==> d == 0
  {
    if d < 0 {
      Locate(s, -1, d + s);
    } else {
      Locate(s, 0, d);
    }
  }

  lemma StartCongruent(start: nat, x: int, y: int, s: nat)
    requires s > 0 && start % s == 0
    ensures (x - y + start) % s == 0 <==> x % s == y % s
  {
    ModAdd(x - y, start / s, s);
    assert start == start / s * s;
    ModSub(x, y, s);
  }

  lemma SpanTimes(k: nat, level: nat)
    requires k <= level
    ensures Span(level) == Span(level - k) * Span(k)
    decreases level
  {
    if k < level {
      SpanTimes(k, level - 1);
      assert ENTRIES * (Span(level - 1 - k) * Span(k)) == (ENTRIES * Span(level - 1 - k)) * Span(k);
    }
  }

  lemma MulAssoc(a: int, b: int, c: int)
    ensures a * (b * c) == (a * b) * c
  {
  }

  lemma Multiples(x: int, c: nat, s: nat)
    requires c * s > 0 && s > 0 && x % (c * s) == 0
    ensures x % s == 0
  {
    var q := x / (c * s);
    WholeParts(x, c * s);
    MulAssoc(q, c, s);
    ModAdd(0, q * c, s);
  }

  lemma WholeParts(x: int, d: nat)
    requires d > 0
    ensures x == x / d * d + x % d
  {
  }

  /** A multiple of a larger span is one of a smaller. */
  lemma MultipleDown(x: int, k: nat, level: nat)
    requires k <= level && x % Span(level) == 0
    ensures x % Span(k) == 0
  {
    SpanTimes(k, level);
    Multiples(x, Span(level - k), Span(k));
  }

  lemma BaseMore(c: nat, r: nat, s: nat)
    requires s > 0
    ensures Base(c * s + r, s) == c * s + Base(r, s)
  {
    ModAdd(r, c, s);
    assert (r / s + c) * s == r / s * s + c * s;
  }

  lemma BaseShift(i: nat, r: nat, k: nat, level: nat)
    requires k <= level
    ensures Base(i * Span(level) + r, Span(k)) == i * Span(level) + Base(r, Span(k))
  {
    hide Base;
    SpanTimes(k, level);
    MulAssoc(i, Span(level - k), Span(k));
    BaseMore(i * Span(level - k), r, Span(k));
  }

  /** Leaves begin at multiples of their size. */
  lemma {:induction false} LeafAligned(t: Tree, level: nat, w: nat)
    requires Wf(t, level) && w < Span(level + 1) && Find(t, level, w).Hit?
    ensures var h := Find(t, level, w);
            h.level <= level && h.start == Base(w, Span(h.level)) && h.start % Span(h.level) == 0
    decreases t
  {
    var s := Span(level);
    SlotOf(s, w);
    var i, r := w / s, w % s;
    FindAt(t, level, i, r);
    assert WfSlot(t.slots[i], level);
    if t.slots[i].Sub? {
      LeafAligned(t.slots[i].tree, level - 1, r);
      BaseShift(i, r, Find(t.slots[i].tree, level - 1, r).level, level);
    }
    BaseMultiple(w, Span(Find(t, level, w).level));
  }

  lemma BaseMultiple(w: nat, s: nat)
    requires s > 0
    ensures Base(w, s) % s == 0
  {
    ModAdd(0, w / s, s);
  }

  /** The leaf of a page in the request lies in the request. */
  lemma {:induction false} LeafInside(level: nat, lo: int, hi: int, w: nat)
    requires lo <= w < hi && w < Span(level + 1)
    ensures var s := Span(LeafLevel(level, lo, hi, w)); lo <= Base(w, s) && Base(w, s) + s <= hi
    decreases level
  {
    var s := Span(level);
    BaseOf(s, w);
    var b, r := Base(w, s), w % s;
    if level > 0 && !(lo <= b && b + s <= hi) {
      LeafInside(level - 1, lo - b, hi - b, r);
      BaseShift(w / s, r, LeafLevel(level - 1, lo - b, hi - b, r), level);
    }
  }

  /** A slot in the request is mapped by a leaf at least as large. */
  lemma {:induction false} LeafAtLeast(level: nat, lo: int, hi: int, w: nat, k: nat)
    requires k <= level && w < Span(level + 1) && lo <= Base(w, Span(k)) && Base(w, Span(k)) + Span(k) <= hi
    ensures LeafLevel(level, lo, hi, w) >= k
    decreases level
  {
    var s := Span(level);
    BaseOf(s, w);
    var b, r := Base(w, s), w % s;
    if k < level {
      BaseShift(w / s, r, k, level);
      LeafAtLeast(level - 1, lo - b, hi - b, r, k);
    }
  }

  lemma FirstSlot(lo: nat, s: nat)
    requires s > 0
    ensures var b := Base(lo + s - 1, s); lo <= b < lo + s && Base(b, s) == b
    ensures forall w: nat :: lo <= Base(w, s) ==> Base(lo + s - 1, s) <= Base(w, s)
  {
    WholeParts(lo + s - 1, s);
    Locate(s, (lo + s - 1) / s, 0);
    forall w: nat | lo <= Base(w, s) ensures Base(lo + s - 1, s) <= Base(w, s) {
      SlotAbove(lo, s, w / s);
    }
  }

  lemma SlotAbove(lo: nat, s: nat, c: nat)
    requires s > 0 && lo <= c * s
    ensures (lo + s - 1) / s * s <= c * s
  {
    var q := (lo + s - 1) / s;
    WholeParts(lo + s - 1, s);
    MulMono(c, q, s);
    MulMono(q, c, s);
  }

  lemma RequestFound(t: Tree, t': Tree, o: nat, ppn: nat, n: nat, perm: Perm, w: nat)
    requires Wf(t, 2) && o + n <= Span(3) && Done(t, t', 2, o, ppn, n, perm) && perm.v && o <= w < o + n
    ensures Wf(t', 2)
    ensures var h := Find(t', 2, w);
            h.Hit? && h.perm == perm && h.level == LeafLevel(2, o, o + n, w) && h.ppn == ppn - o + h.start
  {
    assert Lookup(t', 2, w) == Expect(t, 2, o, ppn, n, perm, w);
    assert PlacedAt(t, t', 2, o, o + n, w);
    hide Wf, Find, Span, LeafLevel, Tidy, Unmapped, Pruned, Fine, Placed, Done;
  }

  lemma DoneWf(t: Tree, t': Tree, o: nat, ppn: nat, n: nat, perm: Perm)
    requires Wf(t, 2) && o + n <= Span(3) && Done(t, t', 2, o, ppn, n, perm)
    ensures Wf(t', 2)
  {
  }

  /** A leaf of the request is aligned exactly if page and frame are congruent modulo its size. */
  lemma RequestLeaf(t: Tree, t': Tree, o: nat, ppn: nat, n: nat, perm: Perm, w: nat)
    requires Wf(t, 2) && o + n <= Span(3) && Done(t, t', 2, o, ppn, n, perm) && perm.v && o <= w < o + n
    ensures var h := Find(t', 2, w);
            && h.Hit? && h.perm == perm && h.level == LeafLevel(2, o, o + n, w)
            && (h.ppn % Span(h.level) == 0 <==> ppn % Span(h.level) == o % Span(h.level))
  {
    DoneWf(t, t', o, ppn, n, perm);
    RequestFound(t, t', o, ppn, n, perm, w);
    hide Done, Wf, Find, Span, LeafLevel, Base;
    LeafAligned(t', 2, w);
    var h := Find(t', 2, w);
    StartCongruent(h.start, ppn, o, Span(h.level));
  }

  lemma LeafCongruent(o: nat, ppn: nat, n: nat, w: nat)
    requires o + n <= Span(3) && o <= w < o + n && Congruent(o, ppn, n)
    ensures var s := Span(LeafLevel(2, o, o + n, w)); ppn % s == o % s
  {
    hide LeafLevel, Base, Span;
    LeafInside(2, o, o + n, w);
    var level := LeafLevel(2, o, o + n, w);
    FirstSlot(o, Span(level));
    assert Fills(level, o, o + n);
  }

  lemma CongruentAccepted(t: Tree, t': Tree, o: nat, ppn: nat, n: nat, perm: Perm, w: nat)
    requires Wf(t, 2) && o + n <= Span(3) && Done(t, t', 2, o, ppn, n, perm) && perm.v && o <= w < o + n
    requires (perm.r || !perm.w) && Congruent(o, ppn, n)
    ensures Wf(t', 2) && AcceptedAt(t', w)
  {
    DoneWf(t, t', o, ppn, n, perm);
    hide Done, Wf, Find, LeafLevel, Base, Span, Congruent;
    RequestLeaf(t, t', o, ppn, n, perm, w);
    LeafCongruent(o, ppn, n, w);
  }

  lemma AcceptedCongruent(t: Tree, t': Tree, o: nat, ppn: nat, n: nat, perm: Perm, level: nat)
    requires Wf(t, 2) && o + n <= Span(3) && Done(t, t', 2, o, ppn, n, perm) && perm.v
    requires forall w :: o <= w < o + n ==> AcceptedAt(t', w)
    requires level <= 2 && Fills(level, o, o + n)
    ensures ppn % Span(level) == o % Span(level)
  {
    assert Wf(t', 2);
    hide Done, Wf, Find, LeafLevel, Base, Span;
    FirstSlot(o, Span(level));
    var w := Base(o + Span(level) - 1, Span(level));
    RequestLeaf(t, t', o, ppn, n, perm, w);
    LeafAtLeast(2, o, o + n, w, level);
    var h := Find(t', 2, w);
    assert AcceptedAt(t', w);
    ModSub(ppn, o, Span(h.level));
    MultipleDown(ppn - o, level, h.level);
    ModSub(ppn, o, Span(level));
  }

  /** The hardware accepts the leaves of a request exactly if page and frame are congruent and it is not write-only. */
  lemma RequestAccepted(t: Tree, t': Tree, o: nat, ppn: nat, n: nat, perm: Perm)
    requires Wf(t, 2) && o + n <= Span(3) && Done(t, t', 2, o, ppn, n, perm) && perm.v && n > 0
    ensures (forall w :: o <= w < o + n ==> AcceptedAt(t', w)) <==>
            (perm.r || !perm.w) && Congruent(o, ppn, n)
  {
    assert Wf(t', 2);
    hide Done, Wf, Find, LeafLevel, Base, Span, Fills;
    RequestLeaf(t, t', o, ppn, n, perm, o);
    assert AcceptedAt(t', o) ==> perm.r || !perm.w;
    hide AcceptedAt;
    if Congruent(o, ppn, n) && (perm.r || !perm.w) {
      forall w | o <= w < o + n ensures AcceptedAt(t', w) {
        CongruentAccepted(t, t', o, ppn, n, perm, w);
      }
    }
    if forall w :: o <= w < o + n ==> AcceptedAt(t', w) {
      assert AcceptedAt(t', o);
      var end := o + n;
      forall level | 0 <= level <= 2 && Fills(level, o, end) ensures ppn % Span(level) == o % Span(level) {
        AcceptedCongruent(t, t', o, ppn, n, perm, level);
      }
    }
  }

  /** Outside the request leaves are parts of old leaves, and parts of aligned leaves are aligned. */
  lemma OtherLeaf(t: Tree, t': Tree, o: nat, ppn: nat, n: nat, perm: Perm, w: nat)
    requires Wf(t, 2) && o + n <= Span(3) && Done(t, t', 2, o, ppn, n, perm) && w < Span(3) && !(o <= w < o + n)
    requires AcceptedAt(t, w)
    ensures AcceptedAt(t', w)
  {
    assert Lookup(t', 2, w) == Expect(t, 2, o, ppn, n, perm, w);
    assert PlacedAt(t, t', 2, o, o + n, w);
    hide Done, Placed, Wf, Find;
    var h, h' := Find(t, 2, w), Find(t', 2, w);
    if h'.Hit? {
      LeafAligned(t, 2, w);
      LeafAligned(t', 2, w);
      PartAligned(h.ppn, h.start, h.level, h'.start, h'.level);
    }
  }

  lemma PartAligned(ppn: int, start: int, level: nat, start': int, level': nat)
    requires level' <= level && ppn % Span(level) == 0 && start % Span(level) == 0 && start' % Span(level') == 0
    ensures (ppn - start + start') % Span(level') == 0
  {
    MultipleDown(ppn, level', level);
    MultipleDown(start, level', level);
    var s := Span(level');
    ModSub(ppn, start, s);
    ModAdd(ppn - start, start' / s, s);
    assert start' == start' / s * s;
  }

  /** The hardware translates every page as the kernel does. */
  ghost predicate HardwareAgrees(m: Memory, t: Tree)
    requires Wf(t, 2)
  {
    forall w :: 0 <= w < Span(3) ==> Walk(m, t.page, 2, w) == Lookup(t, 2, w)
  }

  lemma PageAgreesIff(m: Memory, t: Tree, w: nat)
    requires Good(m, t, 2) && w < Span(3) && w % Span(3) == w
    ensures Wf(t, 2) && (Walk(m, t.page, 2, w) == Lookup(t, 2, w) <==> AcceptedAt(t, w))
  {
    HardwareAgreesIff(m, t, w);
  }

  lemma AgreesIfAccepted(m: Memory, t: Tree)
    requires Good(m, t, 2)
    ensures HardwareAgrees(m, t) <==> forall w :: 0 <= w < Span(3) ==> AcceptedAt(t, w)
  {
    hide Walk, Lookup, Find, Wf, Holds, Distinct, Accepted, AcceptedAt;
    GoodWf(m, t, 2);
    forall w | 0 <= w < Span(3)
      ensures Walk(m, t.page, 2, w) == Lookup(t, 2, w) <==> AcceptedAt(t, w)
    {
      Locate(Span(3), 0, w);
      PageAgreesIff(m, t, w);
    }
    if forall w :: 0 <= w < Span(3) ==> AcceptedAt(t, w) {
      forall w | 0 <= w < Span(3) ensures Walk(m, t.page, 2, w) == Lookup(t, 2, w) {
        assert AcceptedAt(t, w);
      }
      assert HardwareAgrees(m, t);
    }
    if HardwareAgrees(m, t) {
      forall w | 0 <= w < Span(3) ensures AcceptedAt(t, w) {
        assert Walk(m, t.page, 2, w) == Lookup(t, 2, w);
      }
    }
  }

  /**
   Mapping a range in a table on which hardware and kernel agree keeps that exactly if the request is for nothing, or is
   not write-only and its first page and frame are congruent modulo the size of every leaf it makes.
   */
  lemma MapAgreesIff(m: Memory, m': Memory, t: Tree, t': Tree, vpn: nat, ppn: nat, n: nat, perm: Perm)
    requires Good(m, t, 2) && Good(m', t', 2) && vpn + n <= Span(3) && Done(t, t', 2, vpn, ppn, n, perm)
    requires HardwareAgrees(m, t)
    ensures HardwareAgrees(m', t') <==> n == 0 || !perm.v || ((perm.r || !perm.w) && Congruent(vpn, ppn, n))
  {
    hide HardwareAgrees, Good, AcceptedAt, Congruent;
    GoodWf(m, t, 2);
    GoodWf(m', t', 2);
    AgreesIfAccepted(m, t);
    AgreesIfAccepted(m', t');
    forall w | 0 <= w < Span(3) && !(vpn <= w < vpn + n) ensures AcceptedAt(t', w) {
      OtherLeaf(t, t', vpn, ppn, n, perm, w);
    }
    if perm.v && n > 0 {
      RequestAccepted(t, t', vpn, ppn, n, perm);
    } else {
      forall w | vpn <= w < vpn + n ensures AcceptedAt(t', w) {
        NothingThere(t, t', vpn, ppn, n, perm, w);
      }
    }
  }

  lemma NothingThere(t: Tree, t': Tree, o: nat, ppn: nat, n: nat, perm: Perm, w: nat)
    requires Wf(t, 2) && o + n <= Span(3) && Done(t, t', 2, o, ppn, n, perm) && !perm.v && o <= w < o + n
    ensures Wf(t', 2) && AcceptedAt(t', w)
  {
    assert Lookup(t', 2, w) == Expect(t, 2, o, ppn, n, perm, w);
  }

  /** Hardware and kernel agree on the pages outside [lo, hi). */
  ghost predicate AgreesOutside(m: Memory, t: Tree, lo: nat, hi: nat)
    requires Wf(t, 2)
  {
    forall w :: 0 <= w < Span(3) && !(lo <= w < hi) ==> Walk(m, t.page, 2, w) == Lookup(t, 2, w)
  }

  /**
   After a range is unmapped hardware and kernel agree exactly if they agreed on the pages outside it.  So unmapping
   keeps agreement, and restores it if all they disagreed on is unmapped.
   */
  lemma UnmapAgreesIff(m: Memory, f: set<Ppn>, m': Memory, f': set<Ppn>, t: Tree, t': Tree, lo: nat, hi: nat)
    requires Good(m, t, 2) && Wf(t, 2) && lo <= hi <= Span(3) && Clean(t, 2, lo, hi)
    requires Removed(m, f, m', f', t, t', 2, lo, hi)
    ensures Wf(t', 2) && (HardwareAgrees(m', t') <==> AgreesOutside(m, t, lo, hi))
    ensures HardwareAgrees(m, t) ==> HardwareAgrees(m', t')
  {
    hide *;
    RemovedGood(m, f, m', f', t, t', lo, hi);
    GoodWf(m', t', 2);
    AgreesIfAccepted(m', t');
    OutsideIff(m, t, lo, hi);
    forall w | 0 <= w < Span(3) ensures AcceptedAt(t', w) <==> lo <= w < hi || AcceptedAt(t, w) {
      PrunedAccepted(t, lo, hi, w);
    }
  }

  lemma RemovedGood(m: Memory, f: set<Ppn>, m': Memory, f': set<Ppn>, t: Tree, t': Tree, lo: nat, hi: nat)
    requires Good(m, t, 2) && lo <= hi && Removed(m, f, m', f', t, t', 2, lo, hi)
    ensures Wf(t, 2) && t' == Pruned(t, 2, lo, hi) && Good(m', t', 2)
  {
    hide Wf, Holds, Distinct, Pruned;
  }

  lemma PrunedAccepted(t: Tree, lo: nat, hi: nat, w: nat)
    requires Wf(t, 2) && lo <= hi <= Span(3) && Clean(t, 2, lo, hi) && w < Span(3)
    ensures Wf(Pruned(t, 2, lo, hi), 2) && (AcceptedAt(Pruned(t, 2, lo, hi), w) <==> lo <= w < hi || AcceptedAt(t, w))
  {
    hide Wf, Find, Pruned, Span, CutAt;
    PrunedFind(t, 2, lo, hi, w);
  }

  lemma OutsideIff(m: Memory, t: Tree, lo: nat, hi: nat)
    requires Good(m, t, 2) && Wf(t, 2)
    ensures AgreesOutside(m, t, lo, hi) <==> forall w :: 0 <= w < Span(3) && !(lo <= w < hi) ==> AcceptedAt(t, w)
    ensures HardwareAgrees(m, t) ==> AgreesOutside(m, t, lo, hi)
  {
    hide Good, Wf, Walk, Lookup, Span, AcceptedAt;
    forall w | 0 <= w < Span(3) ensures Walk(m, t.page, 2, w) == Lookup(t, 2, w) <==> AcceptedAt(t, w) {
      Locate(Span(3), 0, w);
      PageAgreesIff(m, t, w);
    }
  }

  /** A gigabyte page loses everything past a page remapped inside it. */
  lemma LostPages(page: Ppn)
    ensures var rw := Perm(true, true, true, false, false, false, false, false);
            var t := WithSlot(Blank(page), 0, Leaf(0, rw));
            && Wf(t, 2) && Straddled(t, 2, 1, 1)
            && Lookup(t, 2, 2) == Some(Target(2, rw)) && Expect(t, 2, 1, 7, 1, rw, 2) == None
  {
    var rw := Perm(true, true, true, false, false, false, false, false);
    var t := WithSlot(Blank(page), 0, Leaf(0, rw));
    assert Span(2) == ENTRIES * Span(1) && Span(1) == ENTRIES * Span(0);
    FindAt(t, 2, 0, 0);
    FindAt(t, 2, 0, 2);
  }
}
