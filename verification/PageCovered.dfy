/**
 The nodes whose whole span a mapping request covers.  Creating a mapping stores leaves over the entries that point to
 them and does not give them back.
 */
module PageCovered {
  import opened PageTree

  /** The frames of the nodes below slot i that lie wholly in [lo, hi), positions relative to the node. */
  ghost function CoveredAt(t: Tree, level: nat, lo: int, hi: int, i: nat): set<Ppn>
    requires i < |t.slots|
    decreases t, 0
  {
    var x, a, b := t.slots[i], lo - i * Span(level), hi - i * Span(level);
    if !x.Sub? || level == 0 then {}
    else if a <= 0 && Span(level) <= b then Pages(x.tree)
    else Covered(x.tree, level - 1, a, b)
  }

  ghost function Covered(t: Tree, level: nat, lo: int, hi: int): set<Ppn>
    decreases t, 1
  {
    set i, p | 0 <= i < |t.slots| && p in CoveredAt(t, level, lo, hi, i) :: p
  }

  // ----- the same, by position

  /** Below t, at position b, there is a node of level l in frame p. */
  ghost predicate NodeAt(t: Tree, level: nat, p: Ppn, b: int, l: nat)
    decreases t, 1
  {
    level > 0 && exists i :: 0 <= i < |t.slots| && NodeUnder(t, level, p, b, l, i)
  }

  /** In slot i. */
  ghost predicate NodeUnder(t: Tree, level: nat, p: Ppn, b: int, l: nat, i: nat)
    requires i < |t.slots| && level > 0
    decreases t, 0
  {
    var x, c := t.slots[i], b - i * Span(level);
    x.Sub? && ((x.tree.page == p && c == 0 && l == level - 1) || NodeAt(x.tree, level - 1, p, c, l))
  }

  /** It lies in [lo, hi). */
  predicate Within(b: int, l: nat, lo: int, hi: int) { lo <= b && b + Span(l + 1) <= hi }

  /** Nodes lie inside the span of the node they are below. */
  lemma {:induction false} NodeInside(t: Tree, level: nat, p: Ppn, b: int, l: nat)
    requires Wf(t, level) && NodeAt(t, level, p, b, l)
    ensures 0 <= b && b + Span(l + 1) <= Span(level + 1) && p in Pages(t) && l < level
    decreases t
  {
    var i :| 0 <= i < |t.slots| && NodeUnder(t, level, p, b, l, i);
    var x, c := t.slots[i], b - i * Span(level);
    assert WfSlot(x, level);
    MulMono(i, ENTRIES, Span(level));
    if NodeAt(x.tree, level - 1, p, c, l) {
      NodeInside(x.tree, level - 1, p, c, l);
    }
    assert p in SlotPages(x);
  }

  /** Every frame below the root is a node's. */
  lemma {:induction false} NodeOf(t: Tree, level: nat, p: Ppn) returns (b: int, l: nat)
    requires Wf(t, level) && p in Pages(t) && p != t.page
    ensures NodeAt(t, level, p, b, l)
    decreases t
  {
    var i :| 0 <= i < |t.slots| && p in SlotPages(t.slots[i]);
    var x := t.slots[i];
    assert WfSlot(x, level);
    if p == x.tree.page {
      b, l := i * Span(level), level - 1;
    } else {
      var c;
      c, l := NodeOf(x.tree, level - 1, p);
      b := c + i * Span(level);
    }
    assert NodeUnder(t, level, p, b, l, i);
  }

  /** A covered frame holds a node that lies in the request. */
  lemma {:induction false} CoveredNode(t: Tree, level: nat, lo: int, hi: int, p: Ppn) returns (b: int, l: nat)
    requires Wf(t, level) && p in Covered(t, level, lo, hi)
    ensures NodeAt(t, level, p, b, l) && Within(b, l, lo, hi)
    decreases t
  {
    var i :| 0 <= i < |t.slots| && p in CoveredAt(t, level, lo, hi, i);
    var x, k := t.slots[i], i * Span(level);
    assert WfSlot(x, level);
    var c := 0;
    if lo - k <= 0 && Span(level) <= hi - k {
      l := level - 1;
      if p != x.tree.page {
        c, l := NodeOf(x.tree, level - 1, p);
        NodeInside(x.tree, level - 1, p, c, l);
      }
    } else {
      c, l := CoveredNode(x.tree, level - 1, lo - k, hi - k, p);
    }
    b := c + k;
    assert NodeUnder(t, level, p, b, l, i);
  }

  lemma {:induction false} NodeCovered(t: Tree, level: nat, lo: int, hi: int, p: Ppn, b: int, l: nat)
    requires Wf(t, level) && NodeAt(t, level, p, b, l) && Within(b, l, lo, hi)
    ensures p in Covered(t, level, lo, hi)
    decreases t
  {
    var i :| 0 <= i < |t.slots| && NodeUnder(t, level, p, b, l, i);
    var x, k := t.slots[i], i * Span(level);
    assert WfSlot(x, level);
    if NodeAt(x.tree, level - 1, p, b - k, l) {
      NodeInside(x.tree, level - 1, p, b - k, l);
      if !(lo - k <= 0 && Span(level) <= hi - k) {
        NodeCovered(x.tree, level - 1, lo - k, hi - k, p, b - k, l);
      }
    }
    assert p in CoveredAt(t, level, lo, hi, i);
  }

  /** The covered frames are exactly those of the nodes below the root that lie wholly in the request. */
  lemma CoveredIff(t: Tree, level: nat, lo: int, hi: int, p: Ppn)
    requires Wf(t, level)
    ensures p in Covered(t, level, lo, hi) <==> exists b, l :: NodeAt(t, level, p, b, l) && Within(b, l, lo, hi)
  {
    hide Covered, NodeAt;
    if p in Covered(t, level, lo, hi) {
      var b, l := CoveredNode(t, level, lo, hi, p);
    }
    if b, l :| NodeAt(t, level, p, b, l) && Within(b, l, lo, hi) {
      NodeCovered(t, level, lo, hi, p, b, l);
    }
  }

  // ----- what a request covers

  lemma CoveredPages(t: Tree, level: nat, lo: int, hi: int)
    requires Wf(t, level)
    ensures Covered(t, level, lo, hi) <= Pages(t)
  {
    hide Covered, NodeAt, Pages;
    forall p | p in Covered(t, level, lo, hi) ensures p in Pages(t) {
      var b, l := CoveredNode(t, level, lo, hi, p);
      NodeInside(t, level, p, b, l);
    }
  }

  /** Ranges outside the node cover nothing. */
  lemma CoveredOutside(t: Tree, level: nat, lo: int, hi: int)
    requires Wf(t, level) && (hi <= 0 || Span(level + 1) <= lo)
    ensures Covered(t, level, lo, hi) == {}
  {
    hide Covered, NodeAt, Pages;
    if p :| p in Covered(t, level, lo, hi) {
      var b, l := CoveredNode(t, level, lo, hi, p);
      NodeInside(t, level, p, b, l);
    }
  }

  /** Neither do ranges shorter than a node's span. */
  lemma CoveredShort(t: Tree, level: nat, lo: int, hi: int)
    requires Wf(t, level) && hi - lo < Span(1)
    ensures Covered(t, level, lo, hi) == {}
  {
    hide Covered, NodeAt, Pages;
    if p :| p in Covered(t, level, lo, hi) {
      var b, l := CoveredNode(t, level, lo, hi, p);
      SpanAtLeast(l);
    }
  }

  lemma SpanAtLeast(l: nat)
    ensures Span(l + 1) >= Span(1)
    decreases l
  {
    if l > 0 {
      SpanAtLeast(l - 1);
    }
  }

  /** A slot that lies outside the range has nothing covered below it. */
  lemma SlotOutside(t: Tree, level: nat, lo: int, hi: int, i: nat)
    requires Wf(t, level) && i < ENTRIES && (hi <= i * Span(level) || i * Span(level) + Span(level) <= lo)
    ensures CoveredAt(t, level, lo, hi, i) == {}
  {
    assert WfSlot(t.slots[i], level);
    if t.slots[i].Sub? {
      CoveredOutside(t.slots[i].tree, level - 1, lo - i * Span(level), hi - i * Span(level));
    }
  }

  /** A range inside one slot covers what it covers below that slot. */
  lemma OneSlot(t: Tree, level: nat, lo: int, hi: int, i: nat)
    requires Wf(t, level) && i < ENTRIES && i * Span(level) <= lo && hi <= i * Span(level) + Span(level)
    ensures Covered(t, level, lo, hi) == CoveredAt(t, level, lo, hi, i)
  {
    hide CoveredAt;
    forall j, p | 0 <= j < |t.slots| && p in CoveredAt(t, level, lo, hi, j) ensures j == i {
      MulMono(i, j, Span(level));
      MulMono(j, i, Span(level));
      if j != i {
        SlotOutside(t, level, lo, hi, j);
      }
    }
  }

  /** A range that is a whole slot covers every node below it. */
  lemma CoveredWhole(t: Tree, level: nat, i: nat)
    requires Wf(t, level) && i < ENTRIES
    ensures Covered(t, level, i * Span(level), i * Span(level) + Span(level)) == SlotPages(t.slots[i])
  {
    OneSlot(t, level, i * Span(level), i * Span(level) + Span(level), i);
    assert WfSlot(t.slots[i], level);
  }

  /** Any other range inside a slot covers nodes below the node there. */
  lemma CoveredPart(t: Tree, level: nat, i: nat, r0: nat, n: nat)
    requires level > 0 && Wf(t, level) && i < ENTRIES && r0 + n <= Span(level) && (r0 > 0 || n < Span(level))
    ensures Covered(t, level, i * Span(level) + r0, i * Span(level) + r0 + n) ==
            if t.slots[i].Sub? then Covered(t.slots[i].tree, level - 1, r0, r0 + n) else {}
  {
    OneSlot(t, level, i * Span(level) + r0, i * Span(level) + r0 + n, i);
  }

  /** Nodes do not lie across a slot boundary. */
  lemma NodeInSlot(t: Tree, level: nat, p: Ppn, b: int, l: nat, m: nat)
    requires Wf(t, level) && NodeAt(t, level, p, b, l)
    ensures b + Span(l + 1) <= m * Span(level) || m * Span(level) <= b
  {
    var i :| 0 <= i < |t.slots| && NodeUnder(t, level, p, b, l, i);
    var x, c := t.slots[i], b - i * Span(level);
    assert WfSlot(x, level);
    if NodeAt(x.tree, level - 1, p, c, l) {
      NodeInside(x.tree, level - 1, p, c, l);
    }
    MulMono(i, m, Span(level));
    MulMono(m, i, Span(level));
  }

  /** Two ranges that meet at a slot boundary cover what the whole does. */
  lemma CoveredSplit(t: Tree, level: nat, lo: int, m: nat, hi: int)
    requires Wf(t, level) && lo <= m * Span(level) <= hi
    ensures Covered(t, level, lo, hi) == Covered(t, level, lo, m * Span(level)) + Covered(t, level, m * Span(level), hi)
  {
    hide Covered, NodeAt;
    var mid := m * Span(level);
    forall p | p in Covered(t, level, lo, hi) ensures p in Covered(t, level, lo, mid) + Covered(t, level, mid, hi) {
      var b, l := CoveredNode(t, level, lo, hi, p);
      NodeInSlot(t, level, p, b, l, m);
      if b + Span(l + 1) <= mid {
        NodeCovered(t, level, lo, mid, p, b, l);
      } else {
        NodeCovered(t, level, mid, hi, p, b, l);
      }
    }
    forall p | p in Covered(t, level, lo, mid) ensures p in Covered(t, level, lo, hi) {
      var b, l := CoveredNode(t, level, lo, mid, p);
      NodeCovered(t, level, lo, hi, p, b, l);
    }
    forall p | p in Covered(t, level, mid, hi) ensures p in Covered(t, level, lo, hi) {
      var b, l := CoveredNode(t, level, mid, hi, p);
      NodeCovered(t, level, lo, hi, p, b, l);
    }
  }

  /** Slots before a range do not matter. */
  lemma CoveredSame(t: Tree, t': Tree, level: nat, m: nat, hi: int)
    requires Wf(t, level) && Wf(t', level) && forall i :: m <= i < ENTRIES ==> t'.slots[i] == t.slots[i]
    ensures Covered(t', level, m * Span(level), hi) == Covered(t, level, m * Span(level), hi)
  {
    assert |t.slots| == |t'.slots| == ENTRIES;
    var lo := m * Span(level);
    forall i | 0 <= i < ENTRIES ensures CoveredAt(t', level, lo, hi, i) == CoveredAt(t, level, lo, hi, i) {
      if i < m {
        MulMono(i, m, Span(level));
        SlotOutside(t, level, lo, hi, i);
        SlotOutside(t', level, lo, hi, i);
      }
    }
    hide CoveredAt;
  }

  /** A node of a tidy tree maps some page of its span. */
  lemma {:induction false} NodeMaps(t: Tree, level: nat, p: Ppn, b: int, l: nat) returns (w: nat)
    requires Wf(t, level) && Tidy(t) && NodeAt(t, level, p, b, l)
    ensures b <= w < b + Span(l + 1) && w < Span(level + 1) && Lookup(t, level, w).Some?
    decreases t
  {
    var i :| 0 <= i < |t.slots| && NodeUnder(t, level, p, b, l, i);
    var x, c := t.slots[i], b - i * Span(level);
    assert WfSlot(x, level);
    var r;
    if NodeAt(x.tree, level - 1, p, c, l) {
      r := NodeMaps(x.tree, level - 1, p, c, l);
    } else {
      r := TidyMapsSomething(x.tree, level - 1);
    }
    LookupAt(t, level, i, r);
    w := i * Span(level) + r;
  }

  /** Where a tidy tree maps nothing, no node is covered. */
  lemma CoveredUnmapped(t: Tree, level: nat, o: nat, n: nat)
    requires Wf(t, level) && Tidy(t) && o + n <= Span(level + 1) && Unmapped(t, level, o, n)
    ensures Covered(t, level, o, o + n) == {}
  {
    hide Covered, NodeAt, Tidy, Wf;
    var end := o + n;
    if p :| p in Covered(t, level, o, end) {
      var b, l := CoveredNode(t, level, o, end, p);
      var w := NodeMaps(t, level, p, b, l);
    }
  }
}
