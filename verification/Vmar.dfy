/**
 An address space: an ordered set of mappings of memory objects, and the page table that shows their pages.

 Only paged objects are mapped here, so every request hands out single pages and the page table holds no superpages.
 */
module Vmar {
  import opened Basics
  import opened PageTree
  import opened PageMemory
  import opened PageCovered
  import opened PageCreate
  import opened PageRemove
  import opened Paging
  import opened Physical
  import V = Vmo

  /** Pages [vpn, vpn + len) show pages [offset, offset + len) of an object. */
  datatype Mapping = Mapping(vpn: nat, len: nat, offset: nat, vmo: nat, perm: Perm, system: bool, shared: bool) {
    function End(): nat { vpn + len }

    predicate Contains(w: nat) { vpn <= w < End() }

    /** The part of the mapping in [l, r). */
    function Slice(l: nat, r: nat): Mapping
      requires vpn <= l <= r
    {
      this.(vpn := l, len := r - l, offset := offset + (l - vpn))
    }
  }

  /** The mapping can be made: it lies in the address space, and the object has the pages. */
  ghost predicate Fits(s: V.Store, m: Mapping) {
    && m.len > 0 && m.End() <= Span(3) && m.perm.Coherent() && m.vmo in s.objects
    && m.offset + m.len <= |s.objects[m.vmo].pages|
  }

  /** In order of address, without overlap. */
  ghost predicate Ordered(ms: seq<Mapping>) {
    forall i, j :: 0 <= i < j < |ms| ==> ms[i].End() <= ms[j].vpn
  }

  /** The translation of page w is the page and the permission that mapping m gives it. */
  ghost predicate Backs(s: V.Store, m: Mapping, w: nat, t: Target) {
    && m.Contains(w) && t.perm == m.perm && V.Loaded(s, m.vmo, m.offset + (w - m.vpn))
    && s.objects[m.vmo].pages[m.offset + (w - m.vpn)] == Some(t.ppn)
  }

  /** What page w of mapping m translates to once it is populated. */
  ghost predicate Shown(s: V.Store, m: Mapping, w: nat, r: Option<Target>) {
    if m.perm.v then r.Some? && Backs(s, m, w, r.value) else r.None?
  }

  /** No page but w is translated differently. */
  ghost predicate SameBut(t: Tree, t': Tree, w: nat) {
    Wf(t, 2) && Wf(t', 2) && forall u: nat :: u < Span(3) && u != w ==> Lookup(t', 2, u) == Lookup(t, 2, u)
  }

  /** Every translation is that of the mapping it lies in. */
  ghost predicate Agrees(s: V.Store, ms: seq<Mapping>, t: Tree) {
    && Wf(t, 2)
    && forall w: nat :: w < Span(3) && Lookup(t, 2, w).Some? ==>
         exists i :: 0 <= i < |ms| && Backs(s, ms[i], w, Lookup(t, 2, w).value)
  }

  lemma QuietBacks(s: V.Store, s': V.Store, m: Mapping, w: nat, t: Target)
    requires V.Quiet(s, s') && Backs(s, m, w, t)
    ensures Backs(s', m, w, t)
  {
    hide V.Sound, V.Peek;
    assert V.Extends(s.objects[m.vmo], s'.objects[m.vmo]);
  }

  lemma QuietFits(s: V.Store, s': V.Store, m: Mapping)
    requires V.Quiet(s, s') && Fits(s, m)
    ensures Fits(s', m)
  {
    hide V.Sound, V.Peek;
    assert V.Extends(s.objects[m.vmo], s'.objects[m.vmo]);
  }

  /** The nodes in memory, the tree of one table, and all frames that are nodes, free, or hold data. */
  datatype View = View(mem: Memory, tree: Tree, all: set<nat>)

  /**
   Only nodes of this table have changed, new ones were free before, and none has been lost: apart from this table's
   nodes, the same frames hold nodes as before.
   */
  ghost predicate Local(a: View, b: View) {
    && Untouched(a.mem, b.mem, a.tree, b.tree) && b.all == a.all
    && b.mem.Keys - Pages(b.tree) == a.mem.Keys - Pages(a.tree)
  }

  /** The frames that hold data, are nodes, or are free. */
  ghost function All(data: set<nat>, m: Memory, f: set<Ppn>): set<nat> { data + AllFrames(m, f) }

  /** Nodes have been made in free frames, or given back. */
  lemma NodesChanged(data: set<nat>, m: Memory, f: set<Ppn>, m': Memory, f': set<Ppn>)
    requires V.Kinds(data, f, m.Keys) && AllFrames(m', f') == AllFrames(m, f) && f' !! m'.Keys
    ensures V.Kinds(data, f', m'.Keys) && All(data, m', f') == All(data, m, f)
  {
  }

  /** Free frames have been filled. */
  lemma DataChanged(data: set<nat>, m: Memory, f: set<Ppn>, data': set<nat>, f': set<Ppn>)
    requires data' + f' == data + f
    ensures All(data', m, f') == All(data, m, f)
  {
  }

  lemma KindsApart(data: set<nat>, f: set<Ppn>, m: Memory)
    requires V.Kinds(data, f, m.Keys)
    ensures f !! m.Keys
  {
  }

  lemma OneSpan()
    ensures Span(3) > 0
  {
  }

  /** One page mapped in a table without superpages: nothing is lost, and only that page translates otherwise. */
  lemma OneFine(a: View, b: View, w: nat, ppn: nat, perm: Perm)
    requires Good(a.mem, a.tree, 2) && Wf(a.tree, 2) && Fine(a.tree, 2) && w < Span(3)
    requires Carried(a.mem, b.mem, a.tree, b.tree, 2, w, ppn, 1, perm)
    ensures Fine(b.tree, 2)
  {
    hide Good, Fine, Carried, Pages, Covered, Lookup, Wf, Untouched, Tidy, Pruned, Placed, Unmapped;
    OneIsShort();
    CarriedIs(a.mem, b.mem, a.tree, b.tree, 2, w, ppn, 1, perm);
  }

  lemma OnePage(a: View, b: View, w: nat, ppn: nat, perm: Perm)
    requires Good(a.mem, a.tree, 2) && Fine(a.tree, 2) && w < Span(3)
    requires Carried(a.mem, b.mem, a.tree, b.tree, 2, w, ppn, 1, perm)
    ensures Wf(b.tree, 2) && Fine(b.tree, 2) && !Straddled(a.tree, 2, w, 1)
    ensures b.mem.Keys - Pages(b.tree) == a.mem.Keys - Pages(a.tree)
    ensures forall u: nat :: u < Span(3) ==>
              Overwritten(a.tree, w, ppn, 1, perm, u) ==
              if u == w then (if perm.v then Some(Target(ppn, perm)) else None) else Lookup(a.tree, 2, u)
  {
    hide Good, Fine, Carried, Done, Pages, Covered, Lookup, Wf, Untouched, Span;
    GoodWf(a.mem, a.tree, 2);
    OneIsShort();
    OneFine(a, b, w, ppn, perm);
    CarriedDone(a.mem, b.mem, a.tree, b.tree, 2, w, ppn, 1, perm);
    FineUncut(a.tree, 2, w, 1);
    CoveredShort(a.tree, 2, w, w + 1);
    CarriedFrames(a.mem, b.mem, a.tree, b.tree, 2, w, ppn, 1, perm);
  }

  lemma OneIsShort()
    ensures 1 < Span(1)
  {
  }

  lemma RemovedFine(m: Memory, f: set<Ppn>, m': Memory, f': set<Ppn>, t: Tree, t': Tree, lo: nat, hi: nat)
    requires Good(m, t, 2) && lo <= hi && Removed(m, f, m', f', t, t', 2, lo, hi) && Fine(t, 2)
    ensures Fine(t', 2)
  {
    GoodWf(m, t, 2);
    FinePruned(t, 2, lo, hi);
  }

  lemma LocalIs(a: View, b: View)
    requires Untouched(a.mem, b.mem, a.tree, b.tree) && b.all == a.all
    requires b.mem.Keys - Pages(b.tree) == a.mem.Keys - Pages(a.tree)
    ensures Local(a, b)
  {
  }

  /** Frames that showing one page takes at most: two for its data, and those of a mapping request. */
  const PER_PAGE: nat := 12

  /** Enough free frames for a number of pages make an operation succeed, and it takes no more. */
  ghost predicate Paid(before: nat, after: nat, pages: nat, ok: bool) {
    (before > PER_PAGE * pages ==> ok) && (ok ==> after + PER_PAGE * pages >= before)
  }

  /** The pages of all mappings, and of those that overlap [l, r]. */
  function Total(ms: seq<Mapping>): nat { if ms == [] then 0 else Total(ms[..|ms| - 1]) + ms[|ms| - 1].len }

  function Overlapped(ms: seq<Mapping>, l: nat, r: nat): nat {
    if ms == [] then 0
    else Overlapped(ms[..|ms| - 1], l, r) + if Overlaps(ms[|ms| - 1], l, r) then ms[|ms| - 1].len else 0
  }

  lemma TotalNone(ms: seq<Mapping>, l: nat, r: nat)
    ensures Total(ms[..0]) == 0 == Overlapped(ms[..0], l, r)
  {
  }

  lemma {:induction false} TotalMore(ms: seq<Mapping>, j: nat, l: nat, r: nat)
    requires j < |ms|
    ensures Total(ms[..j + 1]) == Total(ms[..j]) + ms[j].len <= Total(ms)
    ensures Overlapped(ms[..j + 1], l, r) ==
            Overlapped(ms[..j], l, r) + (if Overlaps(ms[j], l, r) then ms[j].len else 0)
    ensures Overlapped(ms[..j + 1], l, r) <= Overlapped(ms, l, r)
    decreases |ms|
  {
    assert ms[..j + 1][..j] == ms[..j] && ms[..j + 1][j] == ms[j];
    var front := ms[..|ms| - 1];
    if j < |ms| - 1 {
      assert front[..j + 1] == ms[..j + 1] && front[..j] == ms[..j] && front[j] == ms[j];
      TotalMore(front, j, l, r);
    } else {
      assert ms[..j + 1] == ms;
    }
  }

  lemma LocalTrans(a: View, b: View, c: View)
    requires Local(a, b) && Local(b, c)
    ensures Local(a, c)
  {
    UntouchedTrans(a.mem, b.mem, c.mem, a.tree, b.tree, c.tree);
  }

  lemma LocalRefl(a: View)
    ensures Local(a, a)
  {
    UntouchedRefl(a.mem, a.tree);
  }

  /** A table with nodes of its own is not affected. */
  lemma LocalOther(a: View, b: View, u: Tree)
    requires Local(a, b) && Good(a.mem, u, 2) && Pages(u) !! Pages(a.tree)
    ensures Good(b.mem, u, 2) && Pages(u) !! Pages(b.tree)
  {
    OtherTable(a.mem, b.mem, a.tree, b.tree, u, 2);
  }

  class AddressSpace {
    const pt: PageTable
    const objs: V.Objects
    var mappings: seq<Mapping>

    /** The page table has no superpages, the objects are in order, and both take their frames from the same memory. */
    ghost predicate Ready()
      reads pt, pt.phys, objs, objs.phys
    {
      objs.phys == pt.phys && pt.Valid() && Wf(pt.tree, 2) && Fine(pt.tree, 2) && objs.Ready()
    }

    ghost function Now(): View
      reads pt, pt.phys, objs
    {
      View(pt.phys.mem, pt.tree, All(objs.s.frames.Keys, pt.phys.mem, pt.phys.free))
    }

    /** The translation of a page. */
    ghost function At(w: nat): Option<Target>
      requires Wf(pt.tree, 2) && w < Span(3)
      reads pt
    {
      Lookup(pt.tree, 2, w)
    }

    ghost predicate Valid()
      reads this, pt, pt.phys, objs, objs.phys
    {
      && Ready() && Ordered(mappings) && (forall i :: 0 <= i < |mappings| ==> Fits(objs.s, mappings[i]))
      && Agrees(objs.s, mappings, pt.tree)
    }

    constructor (pt: PageTable, objs: V.Objects)
      requires objs.phys == pt.phys && pt.Valid() && pt.tree == Blank(pt.root) && objs.Ready()
      ensures Valid() && this.pt == pt && this.objs == objs && mappings == []
    {
      this.pt, this.objs, mappings := pt, objs, [];
      new;
      forall w: nat | w < Span(3) ensures At(w).None? {
        BlankMapsNothing(pt.root, 2, w);
      }
      assert Fine(Blank(pt.root), 2);
    }

    /** Shows one page. */
    method MapPage(w: nat, ppn: nat, perm: Perm) returns (ok: bool)
      requires Ready() && w < Span(3) && perm.Coherent() && ppn < PPN_LIMIT
      modifies pt, pt.phys
      ensures (|old(pt.phys.free)| > Need(2) ==> ok) && |pt.phys.free| + Need(2) >= |old(pt.phys.free)|
      ensures ok ==> Ready() && Local(old(Now()), Now()) && forall u: nat :: u < Span(3) ==>
                At(u) == if u == w then (if perm.v then Some(Target(ppn, perm)) else None) else old(At(u))
    {
      hide Good, Fine, Wf, Carried, Done, Lookup, Straddled, Overwritten, Tidy, Pages, Covered, Untouched, Local, All,
        AllFrames, V.Kinds, V.Sound, Need, Span;
      GoodWf(pt.phys.mem, pt.tree, 2);
      OneSpan();
      ok := pt.Map(w, ppn, 1, perm);
      if ok {
        GoodWf(pt.phys.mem, pt.tree, 2);
        OnePage(old(Now()), Now(), w, ppn, perm);
        NodesChanged(objs.s.frames.Keys, old(pt.phys.mem), old(pt.phys.free), pt.phys.mem, pt.phys.free);
        LocalIs(old(Now()), Now());
      }
    }

    /** Clears a range of pages; this cannot fail. */
    method Clear(vpn: nat, len: nat)
      requires Ready() && vpn + len <= Span(3) && vpn < Span(3)
      modifies pt, pt.phys
      ensures Ready() && Local(old(Now()), Now()) && |pt.phys.free| >= |old(pt.phys.free)|
      ensures forall u: nat :: u < Span(3) ==> At(u) == if vpn <= u < vpn + len then None else old(At(u))
    {
      hide Good, Fine, Wf, Removed, Clean, Lookup, Tidy, Pages, Pruned, Untouched, Local, All, AllFrames, V.Kinds,
           V.Sound, Span;
      GoodWf(pt.phys.mem, pt.tree, 2);
      FineUncut(pt.tree, 2, vpn, len);
      var _ := pt.Unmap(vpn, len);
      GoodWf(pt.phys.mem, pt.tree, 2);
      RemovedFine(old(pt.phys.mem), old(pt.phys.free), pt.phys.mem, pt.phys.free, old(pt.tree), pt.tree, vpn, vpn +
        len);
      LargerSet(old(pt.phys.free), pt.phys.free);
      NodesChanged(objs.s.frames.Keys, old(pt.phys.mem), old(pt.phys.free), pt.phys.mem, pt.phys.free);
      LocalIs(old(Now()), Now());
    }

    /** The frame of a page of an object; no translation changes. */
    method ReqPage(v: nat, i: nat) returns (r: Option<nat>)
      requires Ready() && v in objs.s.objects && i < |objs.s.objects[v].pages|
      modifies objs, pt.phys
      ensures (|old(pt.phys.free)| >= 2 ==> r.Some?) && |pt.phys.free| + 2 >= |old(pt.phys.free)|
      ensures Ready() && Now() == old(Now()) && V.Quiet(old(objs.s), objs.s)
      ensures r.Some? ==> r.value < PPN_LIMIT && V.Loaded(objs.s, v, i) && objs.s.objects[v].pages[i] == r
    {
      hide Good, Fine, Pages, Local, All, AllFrames, V.Kinds, V.Sound, V.Quiet, V.Peek;
      r := objs.Req(v, i);
      KindsApart(objs.s.frames.Keys, pt.phys.free, pt.phys.mem);
      DataChanged(old(objs.s).frames.Keys, pt.phys.mem, old(pt.phys.free), objs.s.frames.Keys, pt.phys.free);
    }

    /** Shows all pages of a mapping, loading each. */
    method Populate(m: Mapping) returns (ok: bool)
      requires Ready() && Fits(objs.s, m)
      modifies pt, objs, pt.phys
      ensures Paid(|old(pt.phys.free)|, |pt.phys.free|, m.len, ok)
      ensures ok ==>
                Ready() && Local(old(Now()), Now()) && V.Quiet(old(objs.s), objs.s) && PagesLoaded(objs.s, m, m.len)
      ensures ok ==> forall w: nat :: w < Span(3) ==>
                if m.Contains(w) then Shown(objs.s, m, w, At(w)) else At(w) == old(At(w))
    {
      hide Wf, Good, Pages, All, V.Kinds, V.Sound, V.Quiet, V.Peek, Fine, Lookup, Backs, Span, Local;
      ghost var s0 := objs.s;
      V.QuietRefl(s0);
      LocalRefl(Now());
      var i := 0;
      while i < m.len
        invariant Local(old(Now()), Now()) && |pt.phys.free| + PER_PAGE * i >= |old(pt.phys.free)|
        invariant 0 <= i <= m.len && Ready() && Fits(objs.s, m) && V.Quiet(s0, objs.s) && PagesLoaded(objs.s, m, i)
        invariant forall w: nat :: w < Span(3) ==>
          if m.vpn <= w < m.vpn + i then Shown(objs.s, m, w, At(w)) else At(w) == old(At(w))
      {
        ghost var s1, now := objs.s, Now();
        var r := ReqPage(m.vmo, m.offset + i);
        if r.None? {
          return false;
        }
        var f := r.value;
        ghost var s2 := objs.s;
        V.QuietTrans(s0, s1, s2);
        QuietFits(s1, s2, m);
        assert forall w: nat :: w < Span(3) && m.vpn <= w < m.vpn + i ==> Shown(s2, m, w, At(w)) by {
          forall w: nat | w < Span(3) && m.vpn <= w < m.vpn + i ensures Shown(s2, m, w, At(w)) {
            QuietShown(s1, s2, m, w, At(w));
          }
        }
        NowShown(s2, m, i, f);
        QuietLoaded(s1, s2, m, i);
        ok := MapPage(m.vpn + i, f, m.perm);
        if !ok {
          return;
        }
        LocalTrans(old(Now()), now, Now());
        i := i + 1;
      }
      ok := true;
    }

    /** The ordered set's insert: before the first mapping with a higher page. */
    method Insert(m: Mapping)
      requires Ordered(mappings) && forall i :: 0 <= i < |mappings| ==> Apart(mappings[i], m) && mappings[i].len > 0
      requires m.len > 0
      modifies `mappings
      ensures Ordered(mappings)
      ensures exists k :: 0 <= k <= |old(mappings)| && mappings == old(mappings)[..k] + [m] + old(mappings)[k..]
    {
      var k := UpperBound(m.vpn);
      InsertedOrdered(mappings, m, k);
      mappings := mappings[..k] + [m] + mappings[k..];
    }

    /** The first mapping that starts above a page. */
    method UpperBound(w: nat) returns (k: nat)
      requires Ordered(mappings) && forall i :: 0 <= i < |mappings| ==> mappings[i].len > 0
      ensures k <= |mappings| && (forall i :: 0 <= i < k ==> mappings[i].vpn <= w)
      ensures forall i :: k <= i < |mappings| ==> w < mappings[i].vpn
    {
      k := 0;
      while k < |mappings| && mappings[k].vpn <= w
        invariant k <= |mappings| && forall i :: 0 <= i < k ==> mappings[i].vpn <= w
      {
        k := k + 1;
      }
    }

    /** The mapping a page lies in, by order: the last one that starts at or below it. */
    method FindMapping(w: nat) returns (r: Option<nat>)
      requires Valid() && mappings != []
      ensures r.Some? ==> r.value < |mappings| && mappings[r.value].Contains(w)
      ensures r.Some? <==> exists i :: 0 <= i < |mappings| && mappings[i].Contains(w)
    {
      hide Agrees, Ready;
      var k := UpperBound(w);
      FoundLast(mappings, w, k);
      if k != 0 {
        k := k - 1;
      }
      r := if mappings[k].Contains(w) then Some(k) else None;
    }

    /** The same question answered by looking at every mapping. */
    method Contains(w: nat) returns (b: bool)
      ensures b <==> exists i :: 0 <= i < |mappings| && mappings[i].Contains(w)
    {
      var i := 0;
      while i < |mappings|
        invariant 0 <= i <= |mappings| && forall j :: 0 <= j < i ==> !mappings[j].Contains(w)
      {
        if mappings[i].Contains(w) {
          return true;
        }
        i := i + 1;
      }
      b := false;
    }

    /** Adds a mapping that overlaps no other; unless it is on demand, its pages are shown at once. */
    method Map(m: Mapping, ondemand: bool) returns (ok: bool)
      requires Valid() && Fits(objs.s, m) && forall i :: 0 <= i < |mappings| ==> Apart(mappings[i], m)
      modifies this, pt, objs, pt.phys
      ensures ok ==> Valid() && V.Quiet(old(objs.s), objs.s) && (!ondemand ==> PagesLoaded(objs.s, m, m.len))
      ensures ok ==> Local(old(Now()), Now())
      ensures Paid(|old(pt.phys.free)|, |pt.phys.free|, if ondemand then 0 else m.len, ok) && (ondemand ==> ok)
      ensures ok ==> exists k :: 0 <= k <= |old(mappings)| && mappings == old(mappings)[..k] + [m] + old(mappings)[k..]
      ensures ok ==> forall w: nat :: w < Span(3) ==>
                if m.Contains(w) && !ondemand then Shown(objs.s, m, w, At(w)) else At(w) == old(At(w))
    {
      hide Wf, Good, Pages, All, V.Kinds, V.Sound, V.Quiet, V.Peek, Fine, Lookup, Backs, Span, Local, Fits, Agrees;
      ghost var s0, ms, t0 := objs.s, mappings, pt.tree;
      FitsLen(s0, ms, m);
      Insert(m);
      ghost var k :| 0 <= k <= |ms| && mappings == ms[..k] + [m] + ms[k..];
      ok := true;
      V.QuietRefl(s0);
      LocalRefl(Now());
      if !ondemand {
        ok := Populate(m);
      }
      if ok {
        MapFits(s0, objs.s, ms, m, k);
        MapAgrees(s0, objs.s, ms, m, k, t0, pt.tree);
      }
    }

    /** A page fault: shows the page of the mapping the address lies in. */
    method PageFault(w: nat) returns (ok: bool)
      requires Valid() && w < Span(3) && exists i :: 0 <= i < |mappings| && mappings[i].Contains(w)
      modifies pt, objs, pt.phys
      ensures Paid(|old(pt.phys.free)|, |pt.phys.free|, 1, ok)
      ensures ok ==> Valid() && Local(old(Now()), Now()) && V.Quiet(old(objs.s), objs.s)
      ensures ok ==> forall i :: 0 <= i < |mappings| && mappings[i].Contains(w) ==> Shown(objs.s, mappings[i], w, At(w))
      ensures ok ==> SameBut(old(pt.tree), pt.tree, w)
    {
      ghost var s0, t0 := objs.s, pt.tree;
      hide Wf, Good, Pages, All, V.Kinds, V.Sound, V.Quiet, V.Peek, Fine, Lookup, Backs, Span, Local, Agrees, Ordered,
        Shown, Fits, Paid, SameBut;
      var r := FindMapping(w);
      var k := r.value;
      OnlyOne(mappings, w, k);
      ok := ShowPage(mappings[k], w);
      if ok {
        FaultAgrees(s0, objs.s, mappings, k, t0, pt.tree, w);
      }
    }

    /** Shows one page of a mapping. */
    method ShowPage(m: Mapping, w: nat) returns (ok: bool)
      requires Ready() && Fits(objs.s, m) && m.Contains(w)
      modifies pt, objs, pt.phys
      ensures Paid(|old(pt.phys.free)|, |pt.phys.free|, 1, ok)
      ensures ok ==> Ready() && Local(old(Now()), Now()) && V.Quiet(old(objs.s), objs.s)
      ensures ok ==> w < Span(3) && Shown(objs.s, m, w, At(w))
      ensures ok ==> SameBut(old(pt.tree), pt.tree, w)
    {
      hide Wf, Good, Pages, All, V.Kinds, V.Sound, V.Quiet, V.Peek, Fine, Lookup, Backs, Span, Local;
      var r := ReqPage(m.vmo, m.offset + (w - m.vpn));
      if r.None? {
        return false;
      }
      NowShown(objs.s, m, w - m.vpn, r.value);
      ghost var t := pt.tree;
      ok := MapPage(w, r.value, m.perm);
      if ok {
        forall u: nat | u < Span(3) && u != w ensures Lookup(pt.tree, 2, u) == Lookup(t, 2, u) {
          assert At(u) == old(At(u));
        }
      }
    }

    /**
     Unmaps the pages from l to r, both included.  Of a mapping that overlaps them the part above r stays mapped,
     without being shown; the part below l is lost.
     */
    method Unmap(l: nat, r: nat) returns (ok: bool)
      requires Valid()
      modifies this, pt, objs, pt.phys
      ensures Paid(|old(pt.phys.free)|, |pt.phys.free|, Overlapped(old(mappings), l, r), ok)
      ensures ok ==> Valid() && Local(old(Now()), Now()) && V.Quiet(old(objs.s), objs.s)
      ensures ok ==> mappings == Cut(old(mappings), l, r)
      ensures ok ==> Remains(old(mappings), mappings, l, r) && Hidden(old(pt.tree), pt.tree, old(mappings), l, r)
      ensures ok ==> AllRefreshed(objs.s, old(mappings), l, r)
      ensures ok ==> NothingIn(mappings, pt.tree, l, r)
    {
      hide Wf, Good, Pages, All, V.Kinds, V.Sound, V.Quiet, V.Peek, Fine, Lookup, Span, Local, Agrees, Ordered, Cut,
        Fits, Piece, Overlaps, Overlapped, NothingIn, Unmapping, PageTable.Valid, Remains, Hidden, AllRefreshed,
        Cutting;
      ghost var start, s0, ms := Now(), objs.s, mappings;
      UnmappingStart(start, s0, ms, l, r);
      hide Ready, Now;
      CuttingStart(ms, l, r);
      TotalNone(ms, l, r);
      var k: nat := 0;
      ghost var j: nat := 0;
      while k < |mappings|
        invariant Ready() && Unmapping(start, Now(), s0, objs.s, ms, j, l, r) && Cutting(mappings, k, ms, j, l, r)
        invariant j <= |ms| && |pt.phys.free| + PER_PAGE * Overlapped(ms[..j], l, r) >= |old(pt.phys.free)|
        decreases |ms| - j
      {
        CuttingMore(mappings, k, ms, j, l, r);
        TotalMore(ms, j, l, r);
        ok, k := UnmapNext(k, l, r, start, s0, ms, j);
        if !ok {
          return;
        }
        j := j + 1;
      }
      CuttingEnds(mappings, k, ms, j, l, r);
      Unmappings(start, Now(), s0, objs.s, ms, l, r);
      ok := true;
    }

    /** Goes past the mapping at place k, or takes it out; what stays of it takes its place. */
    method UnmapNext(k: nat, l: nat, r: nat, ghost start: View, ghost s0: V.Store, ghost ms: seq<Mapping>, ghost j: nat)
      returns (ok: bool, next: nat)
      requires Ready() && k < |mappings| && j < |ms| && mappings[k] == ms[j]
      requires Unmapping(start, Now(), s0, objs.s, ms, j, l, r) && Cutting(mappings, k, ms, j, l, r)
      modifies this`mappings, pt, objs, pt.phys
      ensures Paid(|old(pt.phys.free)|, |pt.phys.free|, if Overlaps(ms[j], l, r) then ms[j].len else 0, ok)
      ensures ok ==> Ready() && Unmapping(start, Now(), s0, objs.s, ms, j + 1, l, r)
      ensures ok ==> Cutting(mappings, next, ms, j + 1, l, r)
    {
      hide Wf, Good, Pages, All, V.Kinds, V.Sound, V.Quiet, V.Peek, Fine, Lookup, Span, Local, Fits, Piece, Overlaps,
        ShownWithout, Unmapping, PageTable.Valid, Refreshed, Cutting, Ready;
      CuttingMore(mappings, k, ms, j, l, r);
      UnmappingFits(start, Now(), s0, objs.s, ms, j, l, r);
      ghost var s1, now := objs.s, Now();
      var m := mappings[k];
      ok, next := true, k + 1;
      if Overlaps(m, l, r) {
        ok := TakeOut(m, l, r);
        if !ok {
          return;
        }
        // the slice above the region takes the mapping's place, and the loop passes over it
        var rest := Piece(m, l, r);
        mappings := mappings[..k] + rest + mappings[k + 1..];
        next := k + |rest|;
      }
      UnmappingMore(start, now, Now(), s0, s1, objs.s, ms, j, l, r);
    }

    /** Takes out every mapping but the system's. */
    method Reset()
      requires Valid()
      modifies this, pt, pt.phys
      ensures Valid() && Local(old(Now()), Now()) && mappings == Systems(old(mappings))
      ensures forall w: nat :: w < Span(3) ==> At(w) == if UserPage(old(mappings), w) then None else old(At(w))
    {
      hide Wf, Good, Pages, All, V.Kinds, V.Sound, Fine, Lookup, Backs, Span, Local, Agrees, Ordered, Fits, Systems,
           UserPage;
      ghost var ms, t0 := mappings, pt.tree;
      SystemsNone(ms);
      LocalRefl(Now());
      var k := 0;
      ghost var j := 0;
      while k < |mappings|
        invariant 0 <= j <= |ms| && k <= |mappings| && Ready() && Local(old(Now()), Now()) && objs.s == old(objs.s)
        invariant k == |Systems(ms[..j])| && mappings == Systems(ms[..j]) + ms[j..]
        invariant forall w: nat :: w < Span(3) ==> At(w) == if UserPage(ms[..j], w) then None else old(At(w))
        decreases |ms| - j
      {
        var m := mappings[k];
        assert m == ms[j];
        SystemsMore(ms, j);
        FitsBounds(objs.s, m);
        Spliced(Systems(ms[..j]), ms, j, if m.system then [m] else []);
        if !m.system {
          ghost var now := Now();
          Clear(m.vpn, m.len);
          LocalTrans(old(Now()), now, Now());
          mappings := mappings[..k] + [] + mappings[k + 1..];
        } else {
          k := k + 1;
        }
        j := j + 1;
      }
      assert ms[..j] == ms && ms[j..] == [];
      assert mappings == Systems(ms);
      forall w: nat | w < Span(3) ensures Lookup(pt.tree, 2, w) == if UserPage(ms, w) then None else Lookup(t0, 2, w) {
        assert At(w) == if UserPage(ms[..j], w) then None else old(At(w));
      }
      SystemsAgree(objs.s, ms, t0, pt.tree);
    }

    /** Adds the copy of a mapping that lies above all those there are. */
    method CopyMapping(m: Mapping) returns (ok: bool)
      requires Valid() && Fits(objs.s, m) && forall j :: 0 <= j < |mappings| ==> mappings[j].End() <= m.vpn
      modifies this, pt, objs, pt.phys
      ensures Paid(|old(pt.phys.free)|, |pt.phys.free|, m.len, ok)
      ensures ok ==> Valid() && Local(old(Now()), Now()) && V.Quiet(old(objs.s), objs.s)
      ensures ok ==> exists c :: mappings == old(mappings) + [c] && Copied(old(objs.s), objs.s, m, c)
    {
      hide Wf, Good, Pages, All, V.Kinds, V.Sound, V.Quiet, V.Peek, Fine, Lookup, Backs, Span, Local, Agrees, Fits,
        Shown, Copied, PagesLoaded;
      ghost var s1, before := objs.s, mappings;
      FitsBounds(s1, m);
      V.QuietRefl(s1);
      var c := m;
      if !m.shared {
        var w := objs.Clone(m.vmo);
        c := m.(vmo := w);
      }
      ghost var s2 := objs.s;
      V.QuietSound(s1, s2);
      CloneFits(s1, s2, m, c);
      QuietKeeps(s1, s2, mappings, pt.tree);
      ok := Map(c, false);
      if ok {
        ghost var k :| 0 <= k <= |before| && mappings == before[..k] + [c] + before[k..];
        InsertedLast(before, c, k);
        CopiedNow(s1, s2, objs.s, m, c);
        V.QuietTrans(s1, s2, objs.s);
      }
    }

    /** Makes this empty address space a copy: shared mappings show the same objects, private ones clones of them. */
    method CopyFrom(other: AddressSpace) returns (ok: bool)
      requires Valid() && mappings == [] && other.Valid() && other.objs == objs && other.pt != pt && other != this
      requires Pages(other.pt.tree) !! Pages(pt.tree)
      modifies this, pt, objs, pt.phys
      ensures Paid(|old(pt.phys.free)|, |pt.phys.free|, Total(other.mappings), ok)
      ensures ok ==> Valid() && Local(old(Now()), Now()) && V.Quiet(old(objs.s), objs.s)
      ensures ok ==> other.Valid() && other.mappings == old(other.mappings) && Pages(other.pt.tree) !! Pages(pt.tree)
      ensures ok ==> |mappings| == |other.mappings|
      ensures ok ==> forall i :: 0 <= i < |mappings| ==> Copied(old(objs.s), objs.s, other.mappings[i], mappings[i])
    {
      hide Wf, Good, Pages, All, V.Kinds, V.Sound, V.Quiet, V.Peek, Fine, Lookup, Backs, Span, Local, Agrees, Fits,
           Copied, PagesLoaded, Total;
      ghost var s0 := objs.s;
      V.QuietRefl(s0);
      LocalRefl(Now());
      var ms := other.mappings;
      var i := 0;
      forall j | 0 <= j < |ms| ensures ms[j].vmo in s0.objects {
        FitsBounds(s0, ms[j]);
      }
      TotalNone(ms, 0, 0);
      while i < |ms|
        invariant 0 <= i <= |ms| && Valid() && other.Valid() && V.Quiet(s0, objs.s) && other.mappings == ms &&
                  |mappings| == i
        invariant Local(old(Now()), Now()) && Pages(other.pt.tree) !! Pages(pt.tree)
        invariant |pt.phys.free| + PER_PAGE * Total(ms[..i]) >= |old(pt.phys.free)|
        invariant forall j :: 0 <= j < i ==> Copied(s0, objs.s, ms[j], mappings[j])
      {
        ghost var s1, before, now := objs.s, mappings, Now();
        CopiedPlaces(s0, s1, ms, mappings, i);
        TotalMore(ms, i, 0, 0);
        ok := CopyMapping(ms[i]);
        if !ok {
          return;
        }
        LocalTrans(old(Now()), now, Now());
        LocalOther(now, Now(), other.pt.tree);
        ghost var s2 := objs.s;
        V.QuietTrans(s0, s1, s2);
        QuietKeeps(s1, s2, ms, other.pt.tree);
        ghost var c :| mappings == before + [c] && Copied(s1, s2, ms[i], c);
        CopiedSince(s0, s1, s2, ms[i], c);
        forall j | 0 <= j < i ensures Copied(s0, s2, ms[j], before[j]) {
          CopiedQuiet(s0, s1, s2, ms[j], before[j]);
        }
        i := i + 1;
      }
      assert ms[..i] == ms;
      ok := true;
    }

    /** Removes what is shown of a mapping; on the way, the parts outside [l, r] are shown once more. */
    method TakeOut(m: Mapping, l: nat, r: nat) returns (ok: bool)
      requires Ready() && Fits(objs.s, m) && Overlaps(m, l, r)
      modifies pt, objs, pt.phys
      ensures Paid(|old(pt.phys.free)|, |pt.phys.free|, m.len, ok)
      ensures ok ==> Ready() && Local(old(Now()), Now()) && V.Quiet(old(objs.s), objs.s)
      ensures ok ==> ShownWithout(old(pt.tree), pt.tree, m) && Refreshed(objs.s, m, l, r)
    {
      hide Wf, Good, Pages, All, V.Kinds, V.Sound, V.Quiet, V.Peek, Fine, Lookup, Backs, Span, Local, Shown,
        PagesLoaded, Refreshed;
      ghost var s0, t0 := objs.s, pt.tree;
      V.QuietRefl(s0);
      LocalRefl(Now());
      ok := true;
      if m.vpn < l {
        ok := Populate(m.Slice(m.vpn, l));
        if !ok {
          return;
        }
      }
      ghost var s1, now := objs.s, Now();
      QuietFits(s0, s1, m);
      if m.End() - 1 > r {
        ok := Populate(m.Slice(r + 1, m.End()));
        if !ok {
          return;
        }
        V.QuietTrans(s0, s1, objs.s);
        LocalTrans(old(Now()), now, Now());
        if m.vpn < l {
          QuietLoaded(s1, objs.s, m.Slice(m.vpn, l), l - m.vpn);
        }
      }
      PartsRefreshed(objs.s, m, l, r);
      now := Now();
      Clear(m.vpn, m.len);
      LocalTrans(old(Now()), now, Now());
      forall w: nat | w < Span(3)
        ensures Lookup(pt.tree, 2, w) == if m.Contains(w) then None else Lookup(t0, 2, w)
      {
        assert At(w) == if m.Contains(w) then None else old(At(w));
      }
    }
  }

  // ----- what a translation shows

  /** Every page shown is a frame that holds data: neither a page-table node, of any table, nor a free frame. */
  lemma ShowsData(a: AddressSpace, w: nat)
    requires a.Valid() && w < Span(3) && a.At(w).Some?
    ensures var f := a.At(w).value.ppn; f in a.objs.s.frames && f !in a.pt.phys.mem && f !in a.pt.phys.free
  {
    hide Lookup, Span, Wf, Fits, Fine;
    var i :| 0 <= i < |a.mappings| && Backs(a.objs.s, a.mappings[i], w, a.At(w).value);
    var m := a.mappings[i];
    V.LoadedFrame(a.objs.s, m.vmo, m.offset + (w - m.vpn));
  }

  /** Pages that show the same frame, in one address space or two, are the same page of the same pager. */
  lemma SameFrame(a: AddressSpace, b: AddressSpace, w: nat, u: nat) returns (i: nat, j: nat)
    requires a.Valid() && b.Valid() && a.objs == b.objs && w < Span(3) && u < Span(3)
    requires a.At(w).Some? && b.At(u).Some? && a.At(w).value.ppn == b.At(u).value.ppn
    ensures i < |a.mappings| && j < |b.mappings| && a.mappings[i].Contains(w) && b.mappings[j].Contains(u)
    ensures var m, n, s := a.mappings[i], b.mappings[j], a.objs.s;
            && m.vmo in s.objects && n.vmo in s.objects && s.objects[m.vmo].pager == s.objects[n.vmo].pager
            && m.offset + (w - m.vpn) == n.offset + (u - n.vpn)
  {
    hide Lookup, Span, Wf, Fits, Fine, V.Sound;
    var s := a.objs.s;
    i :| 0 <= i < |a.mappings| && Backs(s, a.mappings[i], w, a.At(w).value);
    j :| 0 <= j < |b.mappings| && Backs(s, b.mappings[j], u, b.At(u).value);
    var m, n := a.mappings[i], b.mappings[j];
    V.LoadedFrame(s, m.vmo, m.offset + (w - m.vpn));
    V.LoadedFrame(s, n.vmo, n.offset + (u - n.vpn));
    var f := a.At(w).value.ppn;
    V.HeldOnce(s, s.objects[m.vmo].pager, m.offset + (w - m.vpn), s.objects[n.vmo].pager, n.offset + (u - n.vpn), f);
  }

  /** Two mappings do not overlap. */
  ghost predicate Apart(a: Mapping, b: Mapping) { a.End() <= b.vpn || b.End() <= a.vpn }

  // ----- unmapping

  predicate Overlaps(m: Mapping, l: nat, r: nat) { l <= r && m.vpn <= r && l < m.End() }

  /** What stays of a mapping. */
  function Piece(m: Mapping, l: nat, r: nat): seq<Mapping> {
    if !Overlaps(m, l, r) then [m] else if m.End() - 1 > r then [m.Slice(r + 1, m.End())] else []
  }

  function Cut(ms: seq<Mapping>, l: nat, r: nat): seq<Mapping> {
    if ms == [] then [] else Cut(ms[..|ms| - 1], l, r) + Piece(ms[|ms| - 1], l, r)
  }

  /** The mapping has a page of the region. */
  ghost predicate Meets(m: Mapping, l: nat, r: nat) { exists u: nat :: l <= u <= r && m.Contains(u) }

  lemma MeetsIff(m: Mapping, l: nat, r: nat)
    requires m.len > 0
    ensures Overlaps(m, l, r) <==> Meets(m, l, r)
  {
    if Overlaps(m, l, r) {
      var u := if l < m.vpn then m.vpn else l;
      assert l <= u <= r && m.Contains(u);
    }
  }

  ghost predicate Maps(ms: seq<Mapping>, w: nat) { exists i :: 0 <= i < |ms| && ms[i].Contains(w) }

  /** Of the mappings that have a page of the region the part above it stays; the others stay whole. */
  ghost predicate Stays(m: Mapping, l: nat, r: nat, w: nat) { m.Contains(w) && (!Meets(m, l, r) || w > r) }

  /** Both mappings give a page the same page of the same object, and in the same way. */
  ghost predicate Same(m: Mapping, x: Mapping) {
    x == m.(vpn := x.vpn, len := x.len, offset := x.offset) && x.offset - x.vpn == m.offset - m.vpn
  }

  /** Page by page, what mappings are left after a region has been unmapped. */
  ghost predicate Remains(ms: seq<Mapping>, ms': seq<Mapping>, l: nat, r: nat) {
    && (forall w: nat :: Maps(ms', w) <==> exists i :: 0 <= i < |ms| && Stays(ms[i], l, r, w))
    && (forall i, j, w: nat :: 0 <= i < |ms| && 0 <= j < |ms'| && ms[i].Contains(w) && ms'[j].Contains(w) ==>
          Same(ms[i], ms'[j]))
  }

  /** Translations change exactly at the pages of mappings that have a page of the region. */
  ghost predicate Hidden(t: Tree, t': Tree, ms: seq<Mapping>, l: nat, r: nat) {
    && Wf(t, 2) && Wf(t', 2)
    && forall w: nat :: w < Span(3) ==>
         Lookup(t', 2, w) ==
         if exists i :: 0 <= i < |ms| && Meets(ms[i], l, r) && ms[i].Contains(w) then None else Lookup(t, 2, w)
  }

  /** The pages of a mapping outside the region have been loaded. */
  ghost predicate Refreshed(s: V.Store, m: Mapping, l: nat, r: nat) {
    forall w: nat :: m.Contains(w) && !(l <= w <= r) ==> V.Loaded(s, m.vmo, m.offset + (w - m.vpn))
  }

  lemma PartsRefreshed(s: V.Store, m: Mapping, l: nat, r: nat)
    requires m.vpn < l ==> PagesLoaded(s, m.Slice(m.vpn, l), l - m.vpn)
    requires r < m.End() - 1 && m.vpn <= r ==> PagesLoaded(s, m.Slice(r + 1, m.End()), m.End() - (r + 1))
    requires Overlaps(m, l, r)
    ensures Refreshed(s, m, l, r)
  {
  }

  /** And so for all mappings that have a page of the region. */
  ghost predicate AllRefreshed(s: V.Store, ms: seq<Mapping>, l: nat, r: nat) {
    forall i :: 0 <= i < |ms| && Meets(ms[i], l, r) ==> Refreshed(s, ms[i], l, r)
  }

  lemma RefreshedMore(s: V.Store, s': V.Store, ms: seq<Mapping>, j: nat, l: nat, r: nat)
    requires j < |ms| && ms[j].len > 0 && AllRefreshed(s, ms[..j], l, r)
    requires if Overlaps(ms[j], l, r) then V.Quiet(s, s') && Refreshed(s', ms[j], l, r) else s' == s
    ensures AllRefreshed(s', ms[..j + 1], l, r)
  {
    hide V.Quiet, Refreshed, Meets, Overlaps;
    MeetsIff(ms[j], l, r);
    forall i | 0 <= i < j && Meets(ms[i], l, r) ensures Refreshed(s', ms[i], l, r) {
      assert ms[..j][i] == ms[i];
      if Overlaps(ms[j], l, r) {
        QuietRefreshed(s, s', ms[i], l, r);
      }
    }
  }

  lemma QuietRefreshed(s: V.Store, s': V.Store, m: Mapping, l: nat, r: nat)
    requires V.Quiet(s, s') && Refreshed(s, m, l, r)
    ensures Refreshed(s', m, l, r)
  {
    hide V.Sound, V.Peek;
    forall w: nat | m.Contains(w) && !(l <= w <= r) ensures V.Loaded(s', m.vmo, m.offset + (w - m.vpn)) {
      assert V.Loaded(s, m.vmo, m.offset + (w - m.vpn));
    }
  }

  /** The page was in a mapping that overlaps [l, r]. */
  ghost predicate Lost(ms: seq<Mapping>, l: nat, r: nat, w: nat) {
    exists i :: 0 <= i < |ms| && Overlaps(ms[i], l, r) && ms[i].Contains(w)
  }

  /** The pages of a mapping are not translated any more; all others are as they were. */
  ghost predicate ShownWithout(t: Tree, t': Tree, m: Mapping) {
    && Wf(t, 2) && Wf(t', 2)
    && forall w: nat :: w < Span(3) ==> Lookup(t', 2, w) == if m.Contains(w) then None else Lookup(t, 2, w)
  }

  /** And so for all mappings that overlap a region. */
  ghost predicate ShownAfter(t: Tree, t': Tree, ms: seq<Mapping>, l: nat, r: nat) {
    && Wf(t, 2) && Wf(t', 2)
    && forall w: nat :: w < Span(3) ==> Lookup(t', 2, w) == if Lost(ms, l, r, w) then None else Lookup(t, 2, w)
  }

  /** No page from l to r is mapped or translated. */
  ghost predicate NothingIn(ms: seq<Mapping>, t: Tree, l: nat, r: nat) {
    && Wf(t, 2)
    && (forall w: nat :: l <= w <= r && w < Span(3) ==> Lookup(t, 2, w).None?)
    && (forall i, w: nat :: 0 <= i < |ms| && l <= w <= r ==> !ms[i].Contains(w))
  }

  lemma AfterNone(t: Tree, ms: seq<Mapping>, l: nat, r: nat)
    requires Wf(t, 2)
    ensures ShownAfter(t, t, ms[..0], l, r)
  {
    hide Lookup, Span, Wf;
  }

  lemma AfterMore(t: Tree, t1: Tree, t2: Tree, ms: seq<Mapping>, j: nat, l: nat, r: nat)
    requires j < |ms| && ShownAfter(t, t1, ms[..j], l, r)
    requires if Overlaps(ms[j], l, r) then ShownWithout(t1, t2, ms[j]) else t2 == t1
    ensures ShownAfter(t, t2, ms[..j + 1], l, r)
  {
    hide Lookup, Span, Wf, Lost, Cut, Piece;
    CutMore(ms, j, l, r);
  }

  /** The first j mappings have been gone through. */
  ghost predicate Unmapping(a: View, b: View, s: V.Store, s': V.Store, ms: seq<Mapping>, j: nat, l: nat, r: nat) {
    && j <= |ms| && Local(a, b) && V.Quiet(s, s') && (forall i :: 0 <= i < |ms| ==> Fits(s', ms[i]))
    && ShownAfter(a.tree, b.tree, ms[..j], l, r) && AllRefreshed(s', ms[..j], l, r)
  }

  lemma UnmappingStart(a: View, s: V.Store, ms: seq<Mapping>, l: nat, r: nat)
    requires Wf(a.tree, 2) && V.Sound(s) && forall i :: 0 <= i < |ms| ==> Fits(s, ms[i])
    ensures Unmapping(a, a, s, s, ms, 0, l, r)
  {
    hide Wf, Local, V.Sound, V.Quiet, Fits, ShownAfter;
    V.QuietRefl(s);
    LocalRefl(a);
    AfterNone(a.tree, ms, l, r);
  }

  lemma UnmappingFits(a: View, b: View, s: V.Store, s': V.Store, ms: seq<Mapping>, j: nat, l: nat, r: nat)
    requires Unmapping(a, b, s, s', ms, j, l, r) && j < |ms|
    ensures Fits(s', ms[j])
  {
  }

  lemma UnmappingMore(a: View, b: View, c: View, s: V.Store, s1: V.Store, s2: V.Store, ms: seq<Mapping>, j: nat, l: nat,
                      r: nat)
    requires Unmapping(a, b, s, s1, ms, j, l, r) && j < |ms|
    requires if Overlaps(ms[j], l, r)
             then Local(b, c) && V.Quiet(s1, s2) && ShownWithout(b.tree, c.tree, ms[j]) && Refreshed(s2, ms[j], l, r)
             else c == b && s2 == s1
    ensures Unmapping(a, c, s, s2, ms, j + 1, l, r)
  {
    FitsBounds(s1, ms[j]);
    hide Local, V.Quiet, Fits, ShownAfter, ShownWithout, Overlaps, Refreshed, AllRefreshed;
    RefreshedMore(s1, s2, ms, j, l, r);
    AfterMore(a.tree, b.tree, c.tree, ms, j, l, r);
    if Overlaps(ms[j], l, r) {
      LocalTrans(a, b, c);
      V.QuietTrans(s, s1, s2);
      QuietFitsAll(s1, s2, ms);
    }
  }

  /** The mappings up to place k are what the first j have been cut down to, and the rest are as they were. */
  ghost predicate Cutting(now: seq<Mapping>, k: nat, ms: seq<Mapping>, j: nat, l: nat, r: nat) {
    j <= |ms| && k == |Cut(ms[..j], l, r)| && now == Cut(ms[..j], l, r) + ms[j..]
  }

  lemma CuttingStart(ms: seq<Mapping>, l: nat, r: nat)
    ensures Cutting(ms, 0, ms, 0, l, r)
  {
    CutNone(ms, l, r);
  }

  lemma CuttingMore(now: seq<Mapping>, k: nat, ms: seq<Mapping>, j: nat, l: nat, r: nat)
    requires Cutting(now, k, ms, j, l, r) && k < |now|
    ensures j < |ms| && now[k] == ms[j]
    ensures var rest := Piece(ms[j], l, r);
            && Cutting(now[..k] + rest + now[k + 1..], k + |rest|, ms, j + 1, l, r)
            && (!Overlaps(ms[j], l, r) ==> Cutting(now, k + 1, ms, j + 1, l, r))
  {
    hide Cut, Piece, Overlaps;
    CutMore(ms, j, l, r);
    Spliced(Cut(ms[..j], l, r), ms, j, Piece(ms[j], l, r));
    PieceOf(ms[j], l, r);
  }

  lemma CuttingEnds(now: seq<Mapping>, k: nat, ms: seq<Mapping>, j: nat, l: nat, r: nat)
    requires Cutting(now, k, ms, j, l, r) && k >= |now|
    ensures j == |ms| && ms[..j] == ms && now == Cut(ms, l, r)
  {
    hide Cut;
    assert ms[..j] == ms && ms[j..] == [];
  }

  lemma Unmappings(a: View, b: View, s: V.Store, s': V.Store, ms: seq<Mapping>, l: nat, r: nat)
    requires Unmapping(a, b, s, s', ms, |ms|, l, r) && Agrees(s, ms, a.tree) && Ordered(ms)
    ensures Local(a, b) && V.Quiet(s, s') && Hidden(a.tree, b.tree, ms, l, r)
    ensures var ms' := Cut(ms, l, r);
            && Ordered(ms') && Agrees(s', ms', b.tree) && (forall i :: 0 <= i < |ms'| ==> Fits(s', ms'[i]))
            && NothingIn(ms', b.tree, l, r) && Remains(ms, ms', l, r)
    ensures AllRefreshed(s', ms, l, r)
  {
    hide AllRefreshed, Wf, Local, V.Quiet, Fits, Agrees, Ordered, Cut, NothingIn, Lookup, Lost, Remains, Hidden, Span;
    assert ms[..|ms|] == ms;
    CutAgrees(s, s', ms, l, r, a.tree, b.tree);
    forall i | 0 <= i < |ms| ensures ms[i].len > 0 {
      FitsBounds(s', ms[i]);
    }
    CutRemains(ms, l, r);
    AfterHidden(a.tree, b.tree, ms, l, r);
  }

  lemma CutNone(ms: seq<Mapping>, l: nat, r: nat)
    ensures Cut(ms[..0], l, r) == [] && ms[0..] == ms && forall w :: !Lost(ms[..0], l, r, w)
  {
  }

  lemma Spliced(c: seq<Mapping>, ms: seq<Mapping>, j: nat, p: seq<Mapping>)
    requires j < |ms|
    ensures var all := c + ms[j..];
            all[..|c|] + p + all[|c| + 1..] == c + p + ms[j + 1..] && (p == [ms[j]] ==> all == c + p + ms[j + 1..])
  {
    var all := c + ms[j..];
    assert all[|c| + 1..] == ms[j + 1..] && all[..|c|] == c;
    assert ms[j..] == [ms[j]] + ms[j + 1..];
  }

  lemma PieceOf(m: Mapping, l: nat, r: nat)
    ensures !Overlaps(m, l, r) ==> Piece(m, l, r) == [m]
  {
  }

  lemma CutMore(ms: seq<Mapping>, j: nat, l: nat, r: nat)
    requires j < |ms|
    ensures Cut(ms[..j + 1], l, r) == Cut(ms[..j], l, r) + Piece(ms[j], l, r)
    ensures forall w :: Lost(ms[..j + 1], l, r, w) <==>
            Lost(ms[..j], l, r, w) || (Overlaps(ms[j], l, r) && ms[j].Contains(w))
  {
    var a, b := ms[..j], ms[..j + 1];
    assert b[..j] == a && b[j] == ms[j];
    forall w ensures Lost(b, l, r, w) <==> Lost(a, l, r, w) || (Overlaps(ms[j], l, r) && ms[j].Contains(w)) {
      if Lost(a, l, r, w) {
        var i :| 0 <= i < |a| && Overlaps(a[i], l, r) && a[i].Contains(w);
        assert b[i] == a[i];
      }
      if Lost(b, l, r, w) {
        var i :| 0 <= i < |b| && Overlaps(b[i], l, r) && b[i].Contains(w);
        assert i < j ==> a[i] == b[i];
      }
    }
  }

  /** Each mapping that stays is the upper part of one that was there, outside [l, r]. */
  ghost predicate UpperPart(x: Mapping, m: Mapping, l: nat, r: nat) {
    && m.vpn <= x.vpn && x.End() == m.End() && x.len > 0 && x.offset == m.offset + (x.vpn - m.vpn)
    && x == m.(vpn := x.vpn, len := x.len, offset := x.offset) && !Overlaps(x, l, r)
  }

  ghost predicate Derived(x: Mapping, ms: seq<Mapping>, l: nat, r: nat) {
    exists i :: 0 <= i < |ms| && UpperPart(x, ms[i], l, r)
  }

  lemma {:induction false} CutParts(ms: seq<Mapping>, l: nat, r: nat)
    requires Ordered(ms) && forall i :: 0 <= i < |ms| ==> ms[i].len > 0
    ensures Ordered(Cut(ms, l, r))
    ensures forall x :: x in Cut(ms, l, r) ==> Derived(x, ms, l, r)
  {
    if ms != [] {
      var n := |ms| - 1;
      var front, c := ms[..n], Cut(ms[..n], l, r);
      OrderedFront(ms);
      hide Ordered, Overlaps, Piece, UpperPart;
      CutParts(front, l, r);
      forall x | x in c ensures x.End() <= ms[n].vpn && Derived(x, ms, l, r) {
        assert Derived(x, front, l, r);
        var i :| 0 <= i < |front| && UpperPart(x, front[i], l, r);
        assert front[i] == ms[i];
        PartPlace(x, ms[i], l, r);
      }
      CutLast(ms[n], l, r);
      forall x | x in Piece(ms[n], l, r) ensures ms[n].vpn <= x.vpn && Derived(x, ms, l, r) {
        PartPlace(x, ms[n], l, r);
      }
      OrderedPush(c, Piece(ms[n], l, r), ms[n].vpn);
    }
  }

  lemma {:induction false} CutKeeps(ms: seq<Mapping>, l: nat, r: nat, m: Mapping)
    requires m in ms && !Overlaps(m, l, r)
    ensures m in Cut(ms, l, r)
  {
    var n := |ms| - 1;
    if m != ms[n] {
      assert m in ms[..n];
      CutKeeps(ms[..n], l, r, m);
    }
  }

  lemma {:induction false} CutHas(ms: seq<Mapping>, l: nat, r: nat, i: nat, x: Mapping)
    requires i < |ms| && x in Piece(ms[i], l, r)
    ensures x in Cut(ms, l, r)
  {
    var n := |ms| - 1;
    if i < n {
      assert ms[..n][i] == ms[i];
      CutHas(ms[..n], l, r, i, x);
    }
  }

  /** What a mapping is cut down to, page by page. */
  lemma PieceStays(m: Mapping, l: nat, r: nat, w: nat)
    requires m.len > 0
    ensures Stays(m, l, r, w) <==> exists x :: x in Piece(m, l, r) && x.Contains(w)
  {
    MeetsIff(m, l, r);
    if Stays(m, l, r, w) {
      var x := if Overlaps(m, l, r) then m.Slice(r + 1, m.End()) else m;
      assert x in Piece(m, l, r) && x.Contains(w);
    }
  }

  lemma PartStays(x: Mapping, m: Mapping, l: nat, r: nat, w: nat)
    requires m.len > 0 && UpperPart(x, m, l, r) && x.Contains(w)
    ensures Stays(m, l, r, w) && Same(m, x)
  {
    MeetsIff(m, l, r);
  }

  lemma CutRemains(ms: seq<Mapping>, l: nat, r: nat)
    requires Ordered(ms) && forall i :: 0 <= i < |ms| ==> ms[i].len > 0
    ensures Remains(ms, Cut(ms, l, r), l, r)
  {
    var ms' := Cut(ms, l, r);
    CutParts(ms, l, r);
    hide Cut, Piece, UpperPart, Stays, Same, Overlaps;
    forall w: nat ensures Maps(ms', w) <==> exists i :: 0 <= i < |ms| && Stays(ms[i], l, r, w) {
      if j :| 0 <= j < |ms'| && ms'[j].Contains(w) {
        var i := PartOf(ms, ms'[j], l, r);
        PartStays(ms'[j], ms[i], l, r, w);
      }
      if i :| 0 <= i < |ms| && Stays(ms[i], l, r, w) {
        PieceStays(ms[i], l, r, w);
        var x :| x in Piece(ms[i], l, r) && x.Contains(w);
        CutHas(ms, l, r, i, x);
      }
    }
    forall i, j, w: nat | 0 <= i < |ms| && 0 <= j < |ms'| && ms[i].Contains(w) && ms'[j].Contains(w)
      ensures Same(ms[i], ms'[j])
    {
      var k := PartOf(ms, ms'[j], l, r);
      PartPlace(ms'[j], ms[k], l, r);
      assert k == i;
      PartStays(ms'[j], ms[k], l, r, w);
    }
  }

  lemma PartOf(ms: seq<Mapping>, x: Mapping, l: nat, r: nat) returns (i: nat)
    requires Derived(x, ms, l, r)
    ensures i < |ms| && UpperPart(x, ms[i], l, r)
  {
    i :| 0 <= i < |ms| && UpperPart(x, ms[i], l, r);
  }

  lemma AfterHidden(t: Tree, t': Tree, ms: seq<Mapping>, l: nat, r: nat)
    requires ShownAfter(t, t', ms, l, r) && forall i :: 0 <= i < |ms| ==> ms[i].len > 0
    ensures Hidden(t, t', ms, l, r)
  {
    hide Lookup, Wf, Span, Overlaps, Meets;
    forall w: nat ensures Lost(ms, l, r, w) <==> exists i :: 0 <= i < |ms| && Meets(ms[i], l, r) && ms[i].Contains(w) {
      forall i | 0 <= i < |ms| ensures Overlaps(ms[i], l, r) <==> Meets(ms[i], l, r) {
        MeetsIff(ms[i], l, r);
      }
    }
  }

  lemma OrderedFront(ms: seq<Mapping>)
    requires Ordered(ms) && ms != []
    ensures Ordered(ms[..|ms| - 1]) && forall i :: 0 <= i < |ms| - 1 ==> ms[i].End() <= ms[|ms| - 1].vpn
  {
  }

  lemma OrderedPush(c: seq<Mapping>, p: seq<Mapping>, at: nat)
    requires Ordered(c) && |p| <= 1 && (forall x :: x in c ==> x.End() <= at) && (forall x :: x in p ==> at <= x.vpn)
    ensures Ordered(c + p)
  {
  }

  lemma PartPlace(x: Mapping, m: Mapping, l: nat, r: nat)
    requires UpperPart(x, m, l, r)
    ensures m.vpn <= x.vpn && x.End() == m.End()
  {
  }

  lemma CutLast(m: Mapping, l: nat, r: nat)
    requires m.len > 0
    ensures forall x :: x in Piece(m, l, r) ==> UpperPart(x, m, l, r)
    ensures |Piece(m, l, r)| <= 1 && (!Overlaps(m, l, r) ==> m in Piece(m, l, r))
  {
  }

  lemma CutAgrees(s: V.Store, s': V.Store, ms: seq<Mapping>, l: nat, r: nat, t: Tree, t': Tree)
    requires Agrees(s, ms, t) && V.Quiet(s, s') && Wf(t', 2) && Ordered(ms)
    requires forall i :: 0 <= i < |ms| ==> Fits(s', ms[i])
    requires ShownAfter(t, t', ms, l, r)
    ensures var ms' := Cut(ms, l, r);
            && Ordered(ms') && Agrees(s', ms', t') && (forall i :: 0 <= i < |ms'| ==> Fits(s', ms'[i]))
            && NothingIn(ms', t', l, r)
  {
    hide Lookup, Span, V.Quiet, Wf, Cut, Ordered;
    CutParts(ms, l, r);
    var ms' := Cut(ms, l, r);
    forall i | 0 <= i < |ms'| ensures Fits(s', ms'[i]) && !Overlaps(ms'[i], l, r) {
      assert ms'[i] in ms' && Derived(ms'[i], ms, l, r);
      var k :| 0 <= k < |ms| && UpperPart(ms'[i], ms[k], l, r);
    }
    forall w: nat | w < Span(3) && Lookup(t', 2, w).Some?
      ensures !(l <= w <= r) && exists i :: 0 <= i < |ms'| && Backs(s', ms'[i], w, Lookup(t', 2, w).value)
    {
      var k :| 0 <= k < |ms| && Backs(s, ms[k], w, Lookup(t, 2, w).value);
      assert !Overlaps(ms[k], l, r);
      CutKeeps(ms, l, r, ms[k]);
      QuietBacks(s, s', ms[k], w, Lookup(t, 2, w).value);
      var i :| 0 <= i < |ms'| && ms'[i] == ms[k];
    }
    forall i, w: nat | 0 <= i < |ms'| && l <= w <= r ensures !ms'[i].Contains(w) {
      assert !Overlaps(ms'[i], l, r);
    }
  }

  lemma QuietFitsAll(s: V.Store, s': V.Store, ms: seq<Mapping>)
    requires V.Quiet(s, s') && forall i :: 0 <= i < |ms| ==> Fits(s, ms[i])
    ensures forall i :: 0 <= i < |ms| ==> Fits(s', ms[i])
  {
    hide V.Quiet;
    forall i | 0 <= i < |ms| ensures Fits(s', ms[i]) {
      QuietFits(s, s', ms[i]);
    }
  }

  // ----- resetting

  /** The mappings of the system. */
  function Systems(ms: seq<Mapping>): seq<Mapping> {
    if ms == [] then [] else Systems(ms[..|ms| - 1]) + if ms[|ms| - 1].system then [ms[|ms| - 1]] else []
  }

  /** The page is in a mapping that is not the system's. */
  ghost predicate UserPage(ms: seq<Mapping>, w: nat) { exists i :: 0 <= i < |ms| && !ms[i].system && ms[i].Contains(w) }

  lemma SystemsNone(ms: seq<Mapping>)
    ensures Systems(ms[..0]) == [] && ms[0..] == ms && forall w :: !UserPage(ms[..0], w)
  {
  }

  lemma SystemsMore(ms: seq<Mapping>, j: nat)
    requires j < |ms|
    ensures Systems(ms[..j + 1]) == Systems(ms[..j]) + if ms[j].system then [ms[j]] else []
    ensures forall w :: UserPage(ms[..j + 1], w) <==> UserPage(ms[..j], w) || (!ms[j].system && ms[j].Contains(w))
  {
    var a, b := ms[..j], ms[..j + 1];
    assert b[..j] == a && b[j] == ms[j];
    forall w ensures UserPage(b, w) <==> UserPage(a, w) || (!ms[j].system && ms[j].Contains(w)) {
      if UserPage(a, w) {
        var i :| 0 <= i < |a| && !a[i].system && a[i].Contains(w);
        assert b[i] == a[i];
      }
      if UserPage(b, w) {
        var i :| 0 <= i < |b| && !b[i].system && b[i].Contains(w);
        assert i < j ==> a[i] == b[i];
      }
    }
  }

  lemma {:induction false} SystemsParts(ms: seq<Mapping>)
    requires Ordered(ms)
    ensures Ordered(Systems(ms)) && forall x :: x in Systems(ms) <==> x in ms && x.system
  {
    if ms != [] {
      var n := |ms| - 1;
      SystemsParts(ms[..n]);
      var some := Systems(ms[..n]);
      assert forall x :: x in some ==> x.End() <= ms[n].vpn;
      LastOrdered(some, ms[n]);
      assert ms == ms[..n] + [ms[n]];
      assert Systems(ms) == some + if ms[n].system then [ms[n]] else [];
      hide Ordered, Systems;
    }
  }

  lemma LastOrdered(ms: seq<Mapping>, m: Mapping)
    requires Ordered(ms) && forall x :: x in ms ==> x.End() <= m.vpn
    ensures Ordered(ms + [m])
  {
    var all := ms + [m];
    assert forall i :: 0 <= i < |ms| ==> all[i] == ms[i] && ms[i] in ms;
  }

  lemma SystemsAgree(s: V.Store, ms: seq<Mapping>, t: Tree, t': Tree)
    requires Agrees(s, ms, t) && Wf(t', 2) && Ordered(ms) && forall i :: 0 <= i < |ms| ==> Fits(s, ms[i])
    requires forall w: nat :: w < Span(3) ==> Lookup(t', 2, w) == if UserPage(ms, w) then None else Lookup(t, 2, w)
    ensures var ms' := Systems(ms);
            Ordered(ms') && Agrees(s, ms', t') && forall i :: 0 <= i < |ms'| ==> Fits(s, ms'[i])
  {
    hide Lookup, Span, Wf, Ordered, Systems, Backs, Fits;
    SystemsParts(ms);
    var ms' := Systems(ms);
    forall i | 0 <= i < |ms'| ensures Fits(s, ms'[i]) {
      assert ms'[i] in ms' && ms'[i] in ms;
    }
    forall w: nat | w < Span(3) && Lookup(t', 2, w).Some?
      ensures exists i :: 0 <= i < |ms'| && Backs(s, ms'[i], w, Lookup(t', 2, w).value)
    {
      var k :| 0 <= k < |ms| && Backs(s, ms[k], w, Lookup(t, 2, w).value);
      BacksContains(s, ms[k], w, Lookup(t, 2, w).value);
      assert ms[k] in ms && ms[k] in ms';
      var i :| 0 <= i < |ms'| && ms'[i] == ms[k];
    }
  }

  lemma BacksContains(s: V.Store, m: Mapping, w: nat, t: Target)
    requires Backs(s, m, w, t)
    ensures m.Contains(w)
  {
  }

  lemma FitsBounds(s: V.Store, m: Mapping)
    requires Fits(s, m)
    ensures m.vpn + m.len <= Span(3) && m.vpn < Span(3) && m.len > 0 && m.vmo in s.objects
  {
  }

  // ----- copying

  /** c is the copy of m: the same object if it is shared, otherwise a loaded private clone of what it held in s0. */
  ghost predicate Copied(s0: V.Store, s: V.Store, m: Mapping, c: Mapping) {
    && c == m.(vmo := c.vmo)
    && if m.shared then c.vmo == m.vmo
       else
         && V.Sound(s0) && V.Sound(s) && m.vmo in s0.objects && c.vmo !in s0.objects && c.vmo in s.objects
         && V.Private(s, c.vmo) && s.objects[c.vmo].pager >= s0.nextPager
         && V.Contents(s, c.vmo) == V.Contents(s0, m.vmo) && PagesLoaded(s, c, c.len)
  }

  /**
   Fork isolation, for the copy: whatever anyone does afterwards, a page of a private mapping of the copy holds what the
   original's page held at the time of the copy, or the last thing written to it through the copy.
   */
  lemma ForkIsolated(s0: V.Store, ss: seq<V.Store>, es: seq<V.Step>, m: Mapping, c: Mapping, j: nat)
    requires V.Run(ss, es) && Copied(s0, ss[0], m, c) && !m.shared && m.offset <= j < m.offset + m.len
    ensures V.Sound(ss[|es|]) && V.Loaded(ss[0], c.vmo, j) && V.Loaded(ss[|es|], c.vmo, j) &&
            j < |V.Contents(s0, m.vmo)|
    ensures V.Contents(ss[|es|], c.vmo)[j] == V.Replay(V.Contents(s0, m.vmo)[j], {c.vmo}, j, es)
  {
    hide V.Sound, V.Peek;
    assert V.Loaded(ss[0], c.vmo, j);
    V.Isolated(ss, es, c.vmo, j);
  }

  /**
   Fork isolation, for the original: a page it had loaded holds what it held at the time of the copy, or the last thing
   written to it through an object on the same pager, and the copy's object is none of these.
   */
  lemma OriginalIsolated(s0: V.Store, ss: seq<V.Store>, es: seq<V.Step>, m: Mapping, c: Mapping, j: nat)
    requires V.Run(ss, es) && V.Quiet(s0, ss[0]) && Copied(s0, ss[0], m, c) && !m.shared && V.Loaded(s0, m.vmo, j)
    ensures V.Sound(s0) && V.Sound(ss[|es|]) && V.Loaded(ss[|es|], m.vmo, j)
    ensures V.Contents(ss[|es|], m.vmo)[j] == V.Replay(V.Contents(s0, m.vmo)[j], V.Sharers(ss[|es|], m.vmo), j, es)
    ensures c.vmo !in V.Sharers(ss[|es|], m.vmo)
  {
    hide V.Sound, V.Quiet, V.Contents;
    V.QuietSound(s0, ss[0]);
    V.QuietContents(s0, ss[0], m.vmo);
    CopiedYounger(s0, ss[0], m, c);
    V.RunKeeps(ss, es, |es|, m.vmo);
    V.RunKeeps(ss, es, |es|, c.vmo);
    V.History(ss, es, |es|, m.vmo, j, V.Sharers(ss[|es|], m.vmo));
    assert es[..|es|] == es;
  }

  /**
   And at no time does a write through the copy change a page of the original's object, whether that is loaded or not.
   */
  lemma CopyInvisible(s0: V.Store, ss: seq<V.Store>, es: seq<V.Step>, m: Mapping, c: Mapping, k: nat)
    requires V.Run(ss, es) && V.Quiet(s0, ss[0]) && Copied(s0, ss[0], m, c) && !m.shared
    requires k < |es| && es[k].Written? && es[k].v == c.vmo
    ensures V.Sound(ss[k]) && V.Sound(ss[k + 1]) && m.vmo in ss[k].objects && m.vmo in ss[k + 1].objects
    ensures V.Contents(ss[k + 1], m.vmo) == V.Contents(ss[k], m.vmo)
  {
    hide V.Sound, V.Quiet, V.Contents;
    CopiedYounger(s0, ss[0], m, c);
    V.OlderUnaffected(ss, es, k, c.vmo, m.vmo);
  }

  lemma CopiedYounger(s0: V.Store, s: V.Store, m: Mapping, c: Mapping)
    requires V.Quiet(s0, s) && Copied(s0, s, m, c) && !m.shared
    ensures m.vmo in s.objects && c.vmo in s.objects && s.objects[m.vmo].pager < s.objects[c.vmo].pager
  {
    V.ObjectPager(s0, m.vmo);
    assert V.Extends(s0.objects[m.vmo], s.objects[m.vmo]);
  }

  lemma CopiedPlaces(s0: V.Store, s: V.Store, ms: seq<Mapping>, cs: seq<Mapping>, i: nat)
    requires Ordered(ms) && i < |ms| && |cs| == i && forall j :: 0 <= j < i ==> Copied(s0, s, ms[j], cs[j])
    ensures forall j :: 0 <= j < i ==> cs[j].End() <= ms[i].vpn
  {
    forall j | 0 <= j < i ensures cs[j].End() <= ms[i].vpn {
      assert Copied(s0, s, ms[j], cs[j]);
    }
  }

  lemma CloneFits(s: V.Store, s': V.Store, m: Mapping, c: Mapping)
    requires V.Quiet(s, s') && Fits(s, m) && c == m.(vmo := c.vmo)
    requires c.vmo == m.vmo || (c.vmo in s'.objects && |s'.objects[c.vmo].pages| == |s.objects[m.vmo].pages|)
    ensures Fits(s', c)
  {
    QuietFits(s, s', m);
  }

  lemma QuietKeeps(s: V.Store, s': V.Store, ms: seq<Mapping>, t: Tree)
    requires V.Quiet(s, s') && Agrees(s, ms, t) && forall i :: 0 <= i < |ms| ==> Fits(s, ms[i])
    ensures Agrees(s', ms, t) && forall i :: 0 <= i < |ms| ==> Fits(s', ms[i])
  {
    hide V.Quiet, Lookup, Span, Wf;
    QuietFitsAll(s, s', ms);
    forall w: nat | w < Span(3) && Lookup(t, 2, w).Some?
      ensures exists i :: 0 <= i < |ms| && Backs(s', ms[i], w, Lookup(t, 2, w).value)
    {
      var i :| 0 <= i < |ms| && Backs(s, ms[i], w, Lookup(t, 2, w).value);
      QuietBacks(s, s', ms[i], w, Lookup(t, 2, w).value);
    }
  }

  lemma InsertedLast(ms: seq<Mapping>, m: Mapping, k: nat)
    requires k <= |ms| && m.len > 0 && Ordered(ms[..k] + [m] + ms[k..]) &&
             forall i :: 0 <= i < |ms| ==> ms[i].End() <= m.vpn
    ensures ms[..k] + [m] + ms[k..] == ms + [m]
  {
    if k < |ms| {
      NotBefore(ms, m, k);
    }
  }

  lemma NotBefore(ms: seq<Mapping>, m: Mapping, k: nat)
    requires k < |ms| && m.len > 0 && ms[k].End() <= m.vpn
    ensures !Ordered(ms[..k] + [m] + ms[k..])
  {
    var r := ms[..k] + [m] + ms[k..];
    assert r[k] == m && r[k + 1] == ms[k] && r[k].End() > r[k + 1].vpn;
  }

  lemma CopiedNow(s1: V.Store, s2: V.Store, s3: V.Store, m: Mapping, c: Mapping)
    requires V.Quiet(s1, s2) && V.Quiet(s2, s3) && m.vmo in s1.objects && c == m.(vmo := c.vmo)
    requires if m.shared then c.vmo == m.vmo
             else c.vmo !in s1.objects && c.vmo in s2.objects && V.Private(s2, c.vmo) &&
                  s2.objects[c.vmo].pager >= s1.nextPager && V.Contents(s2, c.vmo) == V.Contents(s1, m.vmo)
    requires PagesLoaded(s3, c, c.len)
    ensures Copied(s1, s3, m, c)
  {
    V.QuietSound(s1, s2);
    V.QuietSound(s2, s3);
    if !m.shared {
      V.QuietContents(s2, s3, c.vmo);
      V.QuietPrivate(s2, s3, c.vmo);
      QuietPager(s2, s3, c.vmo);
    }
  }

  lemma CopiedSince(s0: V.Store, s1: V.Store, s2: V.Store, m: Mapping, c: Mapping)
    requires V.Quiet(s0, s1) && Copied(s1, s2, m, c) && m.vmo in s0.objects
    ensures Copied(s0, s2, m, c)
  {
    V.QuietSound(s0, s1);
    V.QuietContents(s0, s1, m.vmo);
    if !m.shared {
      QuietObject(s0, s1, c.vmo);
    }
  }

  lemma QuietPager(s: V.Store, s': V.Store, v: nat)
    requires V.Quiet(s, s') && v in s.objects
    ensures v in s'.objects && s'.objects[v].pager == s.objects[v].pager && s.nextPager <= s'.nextPager
  {
    assert V.Extends(s.objects[v], s'.objects[v]);
  }

  lemma QuietObject(s: V.Store, s': V.Store, v: nat)
    requires V.Quiet(s, s') && v !in s'.objects
    ensures v !in s.objects
  {
  }

  lemma CopiedQuiet(s0: V.Store, s: V.Store, s': V.Store, m: Mapping, c: Mapping)
    requires V.Quiet(s, s') && Copied(s0, s, m, c)
    ensures Copied(s0, s', m, c)
  {
    if !m.shared {
      V.QuietSound(s, s');
      V.QuietContents(s, s', c.vmo);
      V.QuietPrivate(s, s', c.vmo);
      QuietPager(s, s', c.vmo);
      QuietLoaded(s, s', c, c.len);
    }
  }

  lemma OnlyOne(ms: seq<Mapping>, w: nat, k: nat)
    requires Ordered(ms) && k < |ms| && ms[k].Contains(w)
    ensures forall i :: 0 <= i < |ms| && ms[i].Contains(w) ==> i == k
  {
  }

  lemma FaultAgrees(s: V.Store, s': V.Store, ms: seq<Mapping>, k: nat, t: Tree, t': Tree, w: nat)
    requires Agrees(s, ms, t) && V.Quiet(s, s') && Wf(t', 2) && w < Span(3) && k < |ms| && ms[k].Contains(w)
    requires SameBut(t, t', w)
    requires Shown(s', ms[k], w, Lookup(t', 2, w)) && forall i :: 0 <= i < |ms| ==> Fits(s, ms[i])
    ensures Agrees(s', ms, t') && forall i :: 0 <= i < |ms| ==> Fits(s', ms[i])
  {
    hide Lookup, Span, V.Quiet, Wf;
    forall u: nat | u < Span(3) && Lookup(t', 2, u).Some?
      ensures exists i :: 0 <= i < |ms| && Backs(s', ms[i], u, Lookup(t', 2, u).value)
    {
      if u != w {
        var i :| 0 <= i < |ms| && Backs(s, ms[i], u, Lookup(t, 2, u).value);
        QuietBacks(s, s', ms[i], u, Lookup(t, 2, u).value);
      }
    }
    forall i | 0 <= i < |ms| ensures Fits(s', ms[i]) {
      QuietFits(s, s', ms[i]);
    }
  }

  lemma InsertedOrdered(ms: seq<Mapping>, m: Mapping, k: nat)
    requires Ordered(ms) && k <= |ms| && m.len > 0 && forall i :: 0 <= i < |ms| ==> Apart(ms[i], m) && ms[i].len > 0
    requires (forall i :: 0 <= i < k ==> ms[i].vpn <= m.vpn) && (forall i :: k <= i < |ms| ==> m.vpn < ms[i].vpn)
    ensures Ordered(ms[..k] + [m] + ms[k..])
  {
    var r := ms[..k] + [m] + ms[k..];
    forall i, j | 0 <= i < j < |r| ensures r[i].End() <= r[j].vpn {
      assert i < k ==> r[i] == ms[i] && Apart(ms[i], m);
      assert j > k ==> r[j] == ms[j - 1] && Apart(ms[j - 1], m);
      assert i > k ==> r[i] == ms[i - 1];
      assert j < k ==> r[j] == ms[j];
    }
  }

  lemma FoundLast(ms: seq<Mapping>, w: nat, k: nat)
    requires Ordered(ms) && k <= |ms| && ms != []
    requires (forall i :: 0 <= i < k ==> ms[i].vpn <= w) && (forall i :: k <= i < |ms| ==> w < ms[i].vpn)
    ensures forall i :: 0 <= i < |ms| && ms[i].Contains(w) ==> k > 0 && i == k - 1
  {
    assert forall i :: 0 <= i < k - 1 ==> ms[i].End() <= ms[k - 1].vpn;
  }

  lemma MapFits(s: V.Store, s': V.Store, ms: seq<Mapping>, m: Mapping, k: nat)
    requires V.Quiet(s, s') && Fits(s, m) && k <= |ms| && forall i :: 0 <= i < |ms| ==> Fits(s, ms[i])
    ensures forall i :: 0 <= i <= |ms| ==> Fits(s', (ms[..k] + [m] + ms[k..])[i])
  {
    var r := ms[..k] + [m] + ms[k..];
    forall i | 0 <= i <= |ms| ensures Fits(s', r[i]) {
      assert r[i] == if i < k then ms[i] else if i == k then m else ms[i - 1];
      QuietFits(s, s', r[i]);
    }
  }

  lemma MapAgrees(s: V.Store, s': V.Store, ms: seq<Mapping>, m: Mapping, k: nat, t: Tree, t': Tree)
    requires Agrees(s, ms, t) && V.Quiet(s, s') && k <= |ms| && Wf(t', 2)
    requires forall w: nat :: w < Span(3) ==>
               (m.Contains(w) && Shown(s', m, w, Lookup(t', 2, w))) || Lookup(t', 2, w) == Lookup(t, 2, w)
    ensures Agrees(s', ms[..k] + [m] + ms[k..], t')
  {
    hide Lookup, Span, V.Quiet, Wf;
    var r := ms[..k] + [m] + ms[k..];
    forall w: nat | w < Span(3) && Lookup(t', 2, w).Some?
      ensures exists i :: 0 <= i < |r| && Backs(s', r[i], w, Lookup(t', 2, w).value)
    {
      if Lookup(t', 2, w) == Lookup(t, 2, w) {
        var i :| 0 <= i < |ms| && Backs(s, ms[i], w, Lookup(t, 2, w).value);
        QuietBacks(s, s', ms[i], w, Lookup(t, 2, w).value);
        assert r[if i < k then i else i + 1] == ms[i];
      } else {
        assert r[k] == m;
      }
    }
  }

  lemma FitsLen(s: V.Store, ms: seq<Mapping>, m: Mapping)
    requires Fits(s, m) && forall i :: 0 <= i < |ms| ==> Fits(s, ms[i])
    ensures m.len > 0 && forall i :: 0 <= i < |ms| ==> ms[i].len > 0
  {
  }

  /** The first n pages of a mapping are loaded. */
  ghost predicate PagesLoaded(s: V.Store, m: Mapping, n: nat) {
    forall j: nat :: m.offset <= j < m.offset + n ==> V.Loaded(s, m.vmo, j)
  }

  lemma QuietLoaded(s: V.Store, s': V.Store, m: Mapping, n: nat)
    requires V.Quiet(s, s') && PagesLoaded(s, m, n)
    ensures PagesLoaded(s', m, n)
  {
    hide V.Sound, V.Peek;
    forall j: nat | m.offset <= j < m.offset + n ensures V.Loaded(s', m.vmo, j) {
      assert V.Loaded(s, m.vmo, j);
      assert V.Extends(s.objects[m.vmo], s'.objects[m.vmo]);
    }
  }

  lemma QuietShown(s: V.Store, s': V.Store, m: Mapping, w: nat, r: Option<Target>)
    requires V.Quiet(s, s') && Shown(s, m, w, r)
    ensures Shown(s', m, w, r)
  {
    if m.perm.v {
      QuietBacks(s, s', m, w, r.value);
    }
  }

  lemma NowShown(s: V.Store, m: Mapping, i: nat, f: nat)
    requires i < m.len && V.Loaded(s, m.vmo, m.offset + i) && s.objects[m.vmo].pages[m.offset + i] == Some(f)
    ensures Shown(s, m, m.vpn + i, if m.perm.v then Some(Target(f, m.perm)) else None)
  {
  }
}
