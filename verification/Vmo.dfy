/**
 Paged memory objects and the pagers behind them.

 A pager holds pages by offset and can produce the ones it does not hold: a vnode pager from its file, a swap pager
 from the pager below it.  `Peek` is what a page of a pager holds, or would hold if it were loaded now.  Pagers, memory
 objects and frames are numbered; a swap pager is always younger than the one below it.
 */
module Vmo {
  import opened Basics
  import opened Physical
  import P = PageTree

  const PAGE: nat := 4096

  type Page = p: seq<Byte> | |p| == PAGE witness seq(PAGE, _ => 0)

  /** A file's pages, or a stretch of bytes [l, r) of the pager below. */
  datatype Pager =
    | Vnode(file: seq<Page>, pages: map<nat, nat>)
    | Swap(backing: Option<nat>, l: nat, r: nat, pages: map<nat, nat>)

  datatype Object = Object(pages: seq<Option<nat>>, pager: nat)

  /** The frames that hold data, pagers and memory objects; the counters are the next unused numbers. */
  datatype Store = Store(frames: map<nat, Page>, pagers: map<nat, Pager>, objects: map<nat, Object>,
                         nextPager: nat, nextObject: nat)

  function ZeroPage(): Page { seq(PAGE, _ => 0) }

  /** The bytes of a backing page that lie outside [l, r), cleared. */
  function Trimmed(p: Page, off: nat, at: nat, l: nat, r: nat): Page {
    seq(PAGE, k requires 0 <= k < PAGE =>
      if (off == 0 && at * PAGE + k < l) || (at == r / PAGE && r <= at * PAGE + k) then 0 else p[k])
  }

  // ----- well-formed stores

  /** A pager slot holds a frame. */
  predicate Holds(s: Store, p: nat, off: nat, f: nat) {
    p in s.pagers && off in s.pagers[p].pages && s.pagers[p].pages[off] == f
  }

  ghost predicate Sound(s: Store) {
    && (forall p :: p in s.pagers && s.pagers[p].Swap? && s.pagers[p].backing.Some? ==>
          s.pagers[p].backing.value < p && s.pagers[p].backing.value in s.pagers)
    && (forall p, off, f :: Holds(s, p, off, f) ==> f in s.frames)
    && (forall p, off, q, off', f :: Holds(s, p, off, f) && Holds(s, q, off', f) ==> p == q && off == off')
    && (forall p :: p in s.pagers ==> p < s.nextPager)
    && (forall v :: v in s.objects ==> v < s.nextObject && s.objects[v].pager in s.pagers)
    && (forall v, i :: v in s.objects && 0 <= i < |s.objects[v].pages| && s.objects[v].pages[i].Some? ==>
          Holds(s, s.objects[v].pager, i, s.objects[v].pages[i].value))
  }

  /** What page off of pager p holds, or would hold once loaded. */
  ghost function Peek(s: Store, p: nat, off: nat): Page
    requires Sound(s) && p in s.pagers
    decreases p
  {
    var g := s.pagers[p];
    if off in g.pages then
      assert Holds(s, p, off, g.pages[off]);
      s.frames[g.pages[off]]
    else match g
      case Vnode(file, _) => if off < |file| then file[off] else ZeroPage()
      case Swap(backing, l, r, _) =>
        var at := l / PAGE + off;
        if backing.Some? && at <= r / PAGE then Trimmed(Peek(s, backing.value, at), off, at, l, r) else ZeroPage()
  }

  /** The contents of a memory object. */
  ghost function Contents(s: Store, v: nat): (c: seq<Page>)
    requires Sound(s) && v in s.objects
    ensures |c| == |s.objects[v].pages|
  {
    seq(|s.objects[v].pages|, i requires 0 <= i < |s.objects[v].pages| => Peek(s, s.objects[v].pager, i))
  }

  /** Page i of an object is loaded. */
  ghost predicate Loaded(s: Store, v: nat, i: nat) {
    v in s.objects && i < |s.objects[v].pages| && s.objects[v].pages[i].Some?
  }

  // ----- steps that change no contents

  /**
   The pagers and objects of s are in s' with the same contents, and what was loaded stays where it was.  New objects
   have new pagers, or the pager of a file.
   */
  ghost predicate Quiet(s: Store, s': Store) {
    && Sound(s) && Sound(s') && s.nextPager <= s'.nextPager
    && (forall p :: p in s.pagers ==> p in s'.pagers && s'.pagers[p].Vnode? == s.pagers[p].Vnode?)
    && (forall p, off: nat :: p in s.pagers ==> Peek(s', p, off) == Peek(s, p, off))
    && (forall p, off, f :: Holds(s, p, off, f) ==> Holds(s', p, off, f))
    && (forall v :: v in s.objects ==> v in s'.objects && Extends(s.objects[v], s'.objects[v]))
    && (forall v :: v in s'.objects && v !in s.objects ==> Unshared(s, s'.objects[v].pager))
  }

  /** A pager that a new object may have. */
  ghost predicate Unshared(s: Store, p: nat) { p !in s.pagers || s.pagers[p].Vnode? }

  /** The same object, with possibly more pages loaded. */
  ghost predicate Extends(o: Object, o': Object) {
    && o'.pager == o.pager && |o'.pages| == |o.pages|
    && (forall i :: 0 <= i < |o.pages| && o.pages[i].Some? ==> o'.pages[i] == o.pages[i])
  }

  lemma QuietTrans(a: Store, b: Store, c: Store)
    requires Quiet(a, b) && Quiet(b, c)
    ensures Quiet(a, c)
  {
    hide Sound;
    forall v | v in a.objects ensures v in c.objects && Extends(a.objects[v], c.objects[v]) {
      assert Extends(a.objects[v], b.objects[v]) && Extends(b.objects[v], c.objects[v]);
    }
    forall p, off: nat | p in a.pagers ensures Peek(c, p, off) == Peek(a, p, off) {
      assert Peek(b, p, off) == Peek(a, p, off);
    }
    hide Peek;
    forall v | v in c.objects && v !in a.objects ensures Unshared(a, c.objects[v].pager) {
      if v in b.objects {
        assert Unshared(a, b.objects[v].pager) && Extends(b.objects[v], c.objects[v]);
      } else {
        assert Unshared(b, c.objects[v].pager);
      }
    }
  }

  lemma QuietContents(s: Store, s': Store, v: nat)
    requires Quiet(s, s') && v in s.objects
    ensures v in s'.objects && Contents(s', v) == Contents(s, v) && forall i :: Loaded(s, v, i) ==> Loaded(s', v, i)
  {
    ObjectPager(s, v);
    hide Sound, Peek;
    assert Extends(s.objects[v], s'.objects[v]);
  }

  lemma ObjectPager(s: Store, v: nat)
    requires Sound(s) && v in s.objects
    ensures s.objects[v].pager in s.pagers
  {
  }

  // ----- loading a page

  /** One more frame, with some contents. */
  function WithFrame(s: Store, f: nat, c: Page): Store { s.(frames := s.frames[f := c]) }

  /** Page off of pager p is frame f. */
  function WithPage(s: Store, p: nat, off: nat, f: nat): Store
    requires p in s.pagers
  {
    s.(pagers := s.pagers[p := s.pagers[p].(pages := s.pagers[p].pages[off := f])])
  }

  lemma FrameSound(s: Store, f: nat, c: Page)
    requires Sound(s) && f !in s.frames
    ensures Sound(WithFrame(s, f, c))
  {
    var s' := WithFrame(s, f, c);
    assert forall p, off, f :: Holds(s', p, off, f) <==> Holds(s, p, off, f);
  }

  lemma {:induction false} FramePeek(s: Store, f: nat, c: Page, p: nat, off: nat)
    requires Sound(s) && Sound(WithFrame(s, f, c)) && p in s.pagers && f !in s.frames
    ensures Peek(WithFrame(s, f, c), p, off) == Peek(s, p, off)
    decreases p
  {
    var g := s.pagers[p];
    if off in g.pages {
      assert Holds(s, p, off, g.pages[off]);
    } else if g.Swap? && g.backing.Some? {
      FramePeek(s, f, c, g.backing.value, g.l / PAGE + off);
    }
  }

  /** Taking a frame changes nothing that is held. */
  lemma FrameQuiet(s: Store, f: nat, c: Page)
    requires Sound(s) && f !in s.frames
    ensures Quiet(s, WithFrame(s, f, c))
  {
    FrameSound(s, f, c);
    var s' := WithFrame(s, f, c);
    forall p, off: nat | p in s.pagers ensures Peek(s', p, off) == Peek(s, p, off) {
      FramePeek(s, f, c, p, off);
    }
    hide Sound, Peek;
  }

  /** No slot holds the frame. */
  ghost predicate Spare(s: Store, f: nat) { f in s.frames && forall p, off :: !Holds(s, p, off, f) }

  lemma PageSound(s: Store, p: nat, off: nat, f: nat)
    requires Sound(s) && p in s.pagers && off !in s.pagers[p].pages && Spare(s, f)
    ensures Sound(WithPage(s, p, off, f))
  {
    var s' := WithPage(s, p, off, f);
    assert forall q, o, g :: Holds(s', q, o, g) <==> Holds(s, q, o, g) || (q == p && o == off && g == f);
    forall v, i | v in s'.objects && 0 <= i < |s'.objects[v].pages| && s'.objects[v].pages[i].Some?
      ensures Holds(s', s'.objects[v].pager, i, s'.objects[v].pages[i].value)
    {
      assert Holds(s, s.objects[v].pager, i, s.objects[v].pages[i].value);
    }
  }

  lemma {:induction false} PagePeek(s: Store, p: nat, off: nat, f: nat, q: nat, o: nat)
    requires Sound(s) && p in s.pagers && off !in s.pagers[p].pages && Spare(s, f) && Sound(WithPage(s, p, off, f))
    requires s.frames[f] == Peek(s, p, off) && q in s.pagers
    ensures Peek(WithPage(s, p, off, f), q, o) == Peek(s, q, o)
    decreases q
  {
    var g := s.pagers[q];
    if o in g.pages {
      assert Holds(s, q, o, g.pages[o]);
    } else if g.Swap? && g.backing.Some? && !(q == p && o == off) {
      PagePeek(s, p, off, f, g.backing.value, g.l / PAGE + o);
    }
  }

  /** Entering a frame that holds what the pager would produce. */
  lemma PageQuiet(s: Store, p: nat, off: nat, f: nat)
    requires Sound(s) && p in s.pagers && off !in s.pagers[p].pages && Spare(s, f) && s.frames[f] == Peek(s, p, off)
    ensures Quiet(s, WithPage(s, p, off, f)) && Holds(WithPage(s, p, off, f), p, off, f)
  {
    hide Sound, Peek;
    var s' := WithPage(s, p, off, f);
    PageSound(s, p, off, f);
    forall q, o: nat | q in s.pagers ensures Peek(s', q, o) == Peek(s, q, o) {
      PagePeek(s, p, off, f, q, o);
    }
  }

  /** Page i of object v is frame f. */
  function WithObjectPage(s: Store, v: nat, i: nat, f: nat): Store
    requires v in s.objects && i < |s.objects[v].pages|
  {
    s.(objects := s.objects[v := s.objects[v].(pages := s.objects[v].pages[i := Some(f)])])
  }

  lemma {:induction false} ObjectPeek(s: Store, s': Store, p: nat, off: nat)
    requires Sound(s) && Sound(s') && s'.frames == s.frames && p in s.pagers
    requires forall q :: q in s.pagers ==> q in s'.pagers && s'.pagers[q] == s.pagers[q]
    ensures Peek(s', p, off) == Peek(s, p, off)
    decreases p
  {
    var g := s.pagers[p];
    if off !in g.pages && g.Swap? && g.backing.Some? {
      ObjectPeek(s, s', g.backing.value, g.l / PAGE + off);
    }
  }

  lemma ObjectPageQuiet(s: Store, v: nat, i: nat, f: nat)
    requires Sound(s) && v in s.objects && i < |s.objects[v].pages| && s.objects[v].pages[i].None?
    requires Holds(s, s.objects[v].pager, i, f)
    ensures Quiet(s, WithObjectPage(s, v, i, f))
  {
    var s' := WithObjectPage(s, v, i, f);
    assert forall p, off, g :: Holds(s', p, off, g) <==> Holds(s, p, off, g);
    assert Sound(s');
    forall p, off: nat | p in s.pagers ensures Peek(s', p, off) == Peek(s, p, off) {
      ObjectPeek(s, s', p, off);
    }
    hide Sound, Peek;
  }

  // ----- new objects

  /** A new object of n pages on a pager that is there. */
  function Attached(s: Store, p: nat, n: nat): Store {
    s.(objects := s.objects[s.nextObject := Object(seq(n, _ => None), p)], nextObject := s.nextObject + 1)
  }

  /** A new object of n pages on a new pager over bytes [l, r) of another one. */
  function Shadowed(s: Store, backing: Option<nat>, l: nat, r: nat, n: nat): Store {
    Attached(s.(pagers := s.pagers[s.nextPager := Swap(backing, l, r, map[])], nextPager := s.nextPager + 1),
      s.nextPager, n)
  }

  /** A clone: a new object of the same length, backed by a new pager over the old one's. */
  function Cloned(s: Store, v: nat): Store
    requires v in s.objects
  {
    var o := s.objects[v];
    Shadowed(s, Some(o.pager), 0, |o.pages| * PAGE, |o.pages|)
  }

  lemma AttachedQuiet(s: Store, p: nat, n: nat)
    requires Sound(s) && p in s.pagers && s.pagers[p].Vnode?
    ensures Quiet(s, Attached(s, p, n)) && s.nextObject !in s.objects
  {
    var s' := Attached(s, p, n);
    assert s.nextObject !in s.objects;
    assert forall q, off, f :: Holds(s', q, off, f) <==> Holds(s, q, off, f);
    ObjectsSound(s, s', s.nextObject);
    forall q, off: nat | q in s.pagers ensures Peek(s', q, off) == Peek(s, q, off) {
      ObjectPeek(s, s', q, off);
    }
    hide Sound, Peek;
  }

  /** One more object, nothing of it loaded. */
  lemma ObjectsSound(s: Store, s': Store, w: nat)
    requires Sound(s) && w !in s.objects && w in s'.objects && s'.objects == s.objects[w := s'.objects[w]]
    requires forall q, off, f :: Holds(s', q, off, f) <==> Holds(s, q, off, f)
    requires s'.objects[w].pager in s'.pagers &&
             forall i :: 0 <= i < |s'.objects[w].pages| ==> s'.objects[w].pages[i].None?
    requires s'.frames == s.frames && w < s'.nextObject && s.nextObject <= s'.nextObject &&
             s.pagers.Keys <= s'.pagers.Keys
    requires forall p :: p in s'.pagers && s'.pagers[p].Swap? && s'.pagers[p].backing.Some? ==>
               s'.pagers[p].backing.value < p && s'.pagers[p].backing.value in s'.pagers
    requires forall p :: p in s'.pagers ==> p < s'.nextPager
    ensures Sound(s')
  {
    forall u, i | u in s'.objects && 0 <= i < |s'.objects[u].pages| && s'.objects[u].pages[i].Some?
      ensures Holds(s', s'.objects[u].pager, i, s'.objects[u].pages[i].value)
    {
      assert u in s.objects && Holds(s, s.objects[u].pager, i, s.objects[u].pages[i].value);
    }
  }

  lemma ShadowedSound(s: Store, backing: Option<nat>, l: nat, r: nat, n: nat)
    requires Sound(s) && (backing.Some? ==> backing.value in s.pagers)
    ensures Sound(Shadowed(s, backing, l, r, n)) && s.nextPager !in s.pagers && s.nextObject !in s.objects
  {
    var s' := Shadowed(s, backing, l, r, n);
    assert s.nextPager !in s.pagers && s.nextObject !in s.objects;
    assert forall p, off, f :: Holds(s', p, off, f) <==> Holds(s, p, off, f);
    ObjectsSound(s, s', s.nextObject);
  }

  lemma ShadowedQuiet(s: Store, backing: Option<nat>, l: nat, r: nat, n: nat)
    requires Sound(s) && (backing.Some? ==> backing.value in s.pagers)
    ensures Quiet(s, Shadowed(s, backing, l, r, n)) && s.nextPager !in s.pagers && s.nextObject !in s.objects
  {
    hide Sound, Peek;
    ShadowedSound(s, backing, l, r, n);
    var s' := Shadowed(s, backing, l, r, n);
    forall p, off: nat | p in s.pagers ensures Peek(s', p, off) == Peek(s, p, off) {
      ObjectPeek(s, s', p, off);
    }
  }

  /** Byte k of page i of an object over bytes [l, r) of a pager: the pager's byte at that address, or 0 outside. */
  ghost predicate Windowed(s: Store, backing: Option<nat>, l: nat, r: nat, c: seq<Page>)
    requires Sound(s) && (backing.Some? ==> backing.value in s.pagers)
  {
    forall i, k :: 0 <= i < |c| && 0 <= k < PAGE ==>
      var at := l / PAGE + i;
      c[i][k] == if backing.Some? && l <= at * PAGE + k < r then Peek(s, backing.value, at)[k] else 0
  }

  /** The address of a byte and the ends of the region, in pages. */
  lemma Edges(l: nat, r: nat, i: nat, k: nat)
    requires k < PAGE
    ensures var at := l / PAGE + i;
            && (at > r / PAGE ==> r <= at * PAGE + k) && (at < r / PAGE ==> at * PAGE + k < r)
            && (i > 0 ==> l <= at * PAGE + k)
  {
  }

  lemma ShadowWindow(s: Store, backing: Option<nat>, l: nat, r: nat, n: nat)
    requires Sound(s) && (backing.Some? ==> backing.value in s.pagers)
    ensures var s' := Shadowed(s, backing, l, r, n);
            && Sound(s') && s.nextObject in s'.objects
            && |Contents(s', s.nextObject)| == n && Windowed(s, backing, l, r, Contents(s', s.nextObject))
  {
    var s' := Shadowed(s, backing, l, r, n);
    ShadowedQuiet(s, backing, l, r, n);
    var c := Contents(s', s.nextObject);
    assert |c| == n;
    forall i, k | 0 <= i < n && 0 <= k < PAGE
      ensures var at := l / PAGE + i;
              c[i][k] == if backing.Some? && l <= at * PAGE + k < r then Peek(s, backing.value, at)[k] else 0
    {
      ShadowByte(s, backing, l, r, n, i, k);
    }
  }

  lemma ShadowByte(s: Store, backing: Option<nat>, l: nat, r: nat, n: nat, i: nat, k: nat)
    requires Sound(s) && (backing.Some? ==> backing.value in s.pagers) && i < n && k < PAGE
    ensures var s' := Shadowed(s, backing, l, r, n);
            && Sound(s') && s.nextPager in s'.pagers
            && var at := l / PAGE + i;
               Peek(s', s.nextPager, i)[k] ==
               if backing.Some? && l <= at * PAGE + k < r then Peek(s, backing.value, at)[k] else 0
  {
    hide Sound, Peek, Quiet;
    var s' := Shadowed(s, backing, l, r, n);
    ShadowedQuiet(s, backing, l, r, n);
    QuietSound(s, s');
    PeekIs(s', s.nextPager, i);
    Edges(l, r, i, k);
    if backing.Some? {
      QuietPeek(s, s', backing.value, l / PAGE + i);
    }
  }

  /** Over a file of which that page is not loaded: the file's byte at that address, 0 past the region or the file. */
  lemma FileWindow(s: Store, p: nat, l: nat, r: nat, n: nat, i: nat, k: nat)
    requires Sound(s) && p in s.pagers && s.pagers[p].Vnode? && i < n && k < PAGE
    requires l / PAGE + i !in s.pagers[p].pages
    ensures var s', a, file := Shadowed(s, Some(p), l, r, n), (l / PAGE + i) * PAGE + k, s.pagers[p].file;
            && Sound(s') && s.nextObject in s'.objects && |Contents(s', s.nextObject)| == n
            && Contents(s', s.nextObject)[i][k] ==
               if l <= a < r && a / PAGE < |file| then file[a / PAGE][a % PAGE] else 0
  {
    ShadowWindow(s, Some(p), l, r, n);
    ShadowByte(s, Some(p), l, r, n, i, k);
    var a := (l / PAGE + i) * PAGE + k;
    assert a / PAGE == l / PAGE + i && a % PAGE == k;
  }

  lemma TrimmedWhole(p: Page, off: nat, n: nat)
    requires off < n
    ensures Trimmed(p, off, off, 0, n * PAGE) == p
  {
    assert n * PAGE / PAGE == n;
  }

  /** The clone holds what the original holds, and nothing else changes. */
  lemma ClonedQuiet(s: Store, v: nat)
    requires Sound(s) && v in s.objects
    ensures Quiet(s, Cloned(s, v)) && s.nextObject in Cloned(s, v).objects
    ensures Contents(Cloned(s, v), s.nextObject) == Contents(s, v)
  {
    var s', n := Cloned(s, v), |s.objects[v].pages|;
    ShadowedQuiet(s, Some(s.objects[v].pager), 0, n * PAGE, n);
    forall i: nat | i < n ensures Peek(s', s.nextPager, i) == Peek(s, s.objects[v].pager, i) {
      TrimmedWhole(Peek(s', s.objects[v].pager, i), i, n);
      assert n * PAGE / PAGE == n;
    }
    hide Sound, Peek, Trimmed, Quiet;
    assert Contents(s', s.nextObject) == Contents(s, v);
  }

  // ----- filling a frame nobody holds

  function Filled(s: Store, f: nat, c: Page): Store { s.(frames := s.frames[f := c]) }

  lemma {:induction false} FilledPeek(s: Store, f: nat, c: Page, p: nat, off: nat)
    requires Sound(s) && Spare(s, f) && Sound(Filled(s, f, c)) && p in s.pagers
    ensures Peek(Filled(s, f, c), p, off) == Peek(s, p, off)
    decreases p
  {
    var g := s.pagers[p];
    if off in g.pages {
      assert Holds(s, p, off, g.pages[off]);
    } else if g.Swap? && g.backing.Some? {
      FilledPeek(s, f, c, g.backing.value, g.l / PAGE + off);
    }
  }

  lemma FilledQuiet(s: Store, f: nat, c: Page)
    requires Sound(s) && Spare(s, f)
    ensures Quiet(s, Filled(s, f, c)) && Spare(Filled(s, f, c), f)
  {
    var s' := Filled(s, f, c);
    assert forall p, off, g :: Holds(s', p, off, g) <==> Holds(s, p, off, g);
    assert Sound(s');
    forall p, off: nat | p in s.pagers ensures Peek(s', p, off) == Peek(s, p, off) {
      FilledPeek(s, f, c, p, off);
    }
    hide Sound, Peek;
  }

  lemma FrameSpare(s: Store, f: nat, c: Page)
    requires Sound(s) && f !in s.frames
    ensures Spare(WithFrame(s, f, c), f) && forall g :: Spare(s, g) ==> Spare(WithFrame(s, f, c), g) && g != f
  {
    var s' := WithFrame(s, f, c);
    assert forall p, off, g :: Holds(s', p, off, g) <==> Holds(s, p, off, g);
  }

  lemma PageSpare(s: Store, p: nat, off: nat, f: nat, g: nat)
    requires p in s.pagers && off !in s.pagers[p].pages && Spare(s, g) && g != f
    ensures Spare(WithPage(s, p, off, f), g)
  {
    var s' := WithPage(s, p, off, f);
    assert forall q, o, h :: Holds(s', q, o, h) ==> Holds(s, q, o, h) || h == f;
  }

  /** A frame holds data, is free, or is a page-table node, but only one of these. */
  ghost predicate Kinds(data: set<nat>, free: set<nat>, nodes: set<nat>) {
    data !! free && data !! nodes && free !! nodes
  }

  class Objects {
    const phys: Frames
    var s: Store

    /** The store is in order, and every frame is free, holds data or is a page-table node, but only one of these. */
    ghost predicate Ready()
      reads this, phys
    {
      && Sound(s) && Kinds(s.frames.Keys, phys.free, phys.mem.Keys)
      && forall f :: f in s.frames ==> f < P.PPN_LIMIT
    }

    /** The frames that are free or hold data. */
    ghost function Pool(): set<nat>
      reads this, phys
    {
      s.frames.Keys + phys.free
    }

    constructor (phys: Frames)
      requires phys.free !! phys.mem.Keys
      ensures Ready() && this.phys == phys && s == Store(map[], map[], map[], 0, 0)
    {
      this.phys, s := phys, Store(map[], map[], map[], 0, 0);
    }

    /** A frame from the allocator; without one the kernel panics. */
    method TakeFrame(c: Page) returns (r: Option<nat>)
      requires Ready()
      modifies `s, phys`free
      ensures Ready() && Pool() == old(Pool()) && Quiet(old(s), s) && (r.None? <==> old(phys.free) == {})
      ensures r.None? ==> s == old(s) && phys.free == old(phys.free)
      ensures |phys.free| + 1 >= |old(phys.free)|
      ensures r.Some? ==>
                && r.value in old(phys.free) && phys.free == old(phys.free) - {r.value}
                && r.value !in old(s).frames && s == WithFrame(old(s), r.value, c)
    {
      hide Sound, Quiet;
      if phys.free == {} {
        QuietRefl(s);
        return None;
      }
      var f: nat :| f in phys.free;
      FrameQuiet(s, f, c);
      QuietSound(s, WithFrame(s, f, c));
      phys.free := phys.free - {f};
      s := WithFrame(s, f, c);
      r := Some(f);
    }

    /** Page off of a vnode pager: read from the file the first time. */
    method LoadVnode(p: nat, off: nat, ghost spare: nat) returns (r: Option<nat>)
      requires Ready() && p in s.pagers && s.pagers[p].Vnode? && Spare(s, spare)
      modifies `s, phys`free
      ensures Ready() && Pool() == old(Pool()) && Quiet(old(s), s) && Spare(s, spare) && s.objects == old(s).objects
      ensures s.frames[spare] == old(s).frames[spare] && s.pagers.Keys == old(s).pagers.Keys
      ensures forall q :: q in s.pagers && q != p ==> s.pagers[q] == old(s).pagers[q]
      ensures (r.Some? ==> Holds(s, p, off, r.value)) && (old(phys.free) != {} ==> r.Some?)
      ensures |phys.free| + 1 >= |old(phys.free)|
    {
      hide Sound, Quiet, Peek;
      ghost var a := s;
      if off !in s.pagers[p].pages {
        var c := if off < |s.pagers[p].file| then s.pagers[p].file[off] else ZeroPage();
        r := TakeFrame(c);
        if r.None? {
          return;
        }
        var f := r.value;
        ghost var b := s;
        VnodePeek(a, p, off);
        FrameSpare(a, f, c);
        QuietPeek(a, b, p, off);
        PageQuiet(b, p, off, f);
        PageSpare(b, p, off, f, spare);
        QuietTrans(a, b, WithPage(b, p, off, f));
        QuietSound(b, WithPage(b, p, off, f));
        s := WithPage(s, p, off, f);
      } else {
        r := Some(s.pagers[p].pages[off]);
        QuietRefl(s);
      }
    }

    /** Fills frame f with page off of a pager, going down the pagers below. */
    method LoadTo(p: nat, off: nat, f: nat) returns (ok: bool)
      requires Ready() && p in s.pagers && Spare(s, f)
      modifies `s, phys`free
      ensures Ready() && Pool() == old(Pool()) && Quiet(old(s), s) && Spare(s, f) && s.objects == old(s).objects
      ensures s.pagers.Keys == old(s).pagers.Keys
      ensures forall q :: q in s.pagers && old(s).pagers[q].Swap? ==> s.pagers[q] == old(s).pagers[q]
      ensures (ok ==> s.frames[f] == Peek(old(s), p, off)) && (old(phys.free) != {} ==> ok)
      ensures |phys.free| + 1 >= |old(phys.free)|
      decreases p
    {
      hide Quiet, Sound, Peek, Trimmed;
      ghost var a := s;
      ok := true;
      PeekIs(a, p, off);
      if s.pagers[p].Vnode? {
        var g := LoadVnode(p, off, f);
        if g.None? {
          return false;
        }
        HeldPeek(s, p, off, g.value);
        QuietPeek(a, s, p, off);
        Fill(a, f, s.frames[g.value]);
      } else if off !in s.pagers[p].pages {
        var at := s.pagers[p].l / PAGE + off;
        if s.pagers[p].backing.Some? && at <= s.pagers[p].r / PAGE {
          var l, r := s.pagers[p].l, s.pagers[p].r;
          ok := LoadTo(s.pagers[p].backing.value, at, f);
          if ok {
            Fill(a, f, Trimmed(s.frames[f], off, at, l, r));
          }
        } else {
          QuietRefl(a);
          Fill(a, f, ZeroPage());
        }
      } else {
        HeldPeek(s, p, off, s.pagers[p].pages[off]);
        QuietRefl(a);
        Fill(a, f, s.frames[s.pagers[p].pages[off]]);
      }
    }

    /** Overwrites a frame nobody holds. */
    method Fill(ghost a: Store, f: nat, c: Page)
      requires Quiet(a, s) && Ready() && Spare(s, f)
      modifies `s
      ensures Ready() && s.frames.Keys == old(s).frames.Keys && Quiet(a, s) && Spare(s, f) && s == Filled(old(s), f, c)
    {
      hide Quiet, Sound;
      FilledQuiet(s, f, c);
      QuietTrans(a, s, Filled(s, f, c));
      QuietSound(a, Filled(s, f, c));
      s := Filled(s, f, c);
    }

    /** Page off of a pager, loaded if need be. */
    method Load(p: nat, off: nat) returns (r: Option<nat>)
      requires Ready() && p in s.pagers
      modifies `s, phys`free
      ensures Ready() && Pool() == old(Pool()) && Quiet(old(s), s) && s.objects == old(s).objects
      ensures (r.Some? ==> Holds(s, p, off, r.value)) && (|old(phys.free)| >= 2 ==> r.Some?)
      ensures |phys.free| + 2 >= |old(phys.free)|
    {
      hide Quiet, Sound, Peek, Spare;
      ghost var a := s;
      QuietRefl(a);
      if off in s.pagers[p].pages {
        return Some(s.pagers[p].pages[off]);
      }
      r := TakeFrame(ZeroPage());
      if r.None? {
        return;
      }
      var f := r.value;
      FrameSpare(a, f, ZeroPage());
      ghost var b := s;
      QuietRefl(b);
      if s.pagers[p].Vnode? {
        VnodePeek(b, p, off);
        Fill(b, f, if off < |s.pagers[p].file| then s.pagers[p].file[off] else ZeroPage());
      } else {
        var ok := LoadTo(p, off, f);
        QuietTrans(a, b, s);
        if !ok {
          return None;
        }
      }
      ghost var c := s;
      QuietPeek(b, c, p, off);
      PageQuiet(c, p, off, f);
      QuietTrans(a, b, c);
      QuietTrans(a, c, WithPage(c, p, off, f));
      QuietSound(c, WithPage(c, p, off, f));
      s := WithPage(s, p, off, f);
    }

    /** The frame of page i of an object. */
    method Req(v: nat, i: nat) returns (r: Option<nat>)
      requires Ready() && v in s.objects && i < |s.objects[v].pages|
      modifies `s, phys`free
      ensures Ready() && Pool() == old(Pool()) && Quiet(old(s), s) && (|old(phys.free)| >= 2 ==> r.Some?)
      ensures |phys.free| + 2 >= |old(phys.free)|
      ensures r.None? ==> s.objects == old(s).objects
      ensures r.Some? ==>
                && v in s.objects && s.objects == old(s).objects[v := s.objects[v]] && r.value in s.frames
                && s.objects[v] == old(s).objects[v].(pages := old(s).objects[v].pages[i := Some(r.value)])
                && s.objects[v].pages[i] == Some(r.value)
    {
      hide Quiet, Sound, Spare;
      ghost var a := s;
      ObjectPager(a, v);
      if s.objects[v].pages[i].None? {
        r := Load(s.objects[v].pager, i);
        if r.None? {
          return;
        }
        ghost var b := s;
        HeldPeek(b, b.objects[v].pager, i, r.value);
        ObjectPageQuiet(b, v, i, r.value);
        QuietTrans(a, b, WithObjectPage(b, v, i, r.value));
        QuietSound(b, WithObjectPage(b, v, i, r.value));
        s := WithObjectPage(s, v, i, r.value);
      } else {
        r := s.objects[v].pages[i];
        QuietRefl(a);
        LoadedFrame(a, v, i);
        assert s.objects[v].pages[i := r] == s.objects[v].pages;
      }
    }

    /** A shared mapping of a file: a new object on the file's own pager. */
    method Attach(p: nat, n: nat) returns (w: nat)
      requires Ready() && p in s.pagers && s.pagers[p].Vnode?
      modifies `s
      ensures Ready() && s.frames == old(s).frames && Quiet(old(s), s) && w !in old(s).objects &&
              s == Attached(old(s), p, n)
      ensures w in s.objects && |s.objects[w].pages| == n && s.objects[w].pager == p
    {
      hide Quiet, Sound;
      AttachedQuiet(s, p, n);
      QuietSound(s, Attached(s, p, n));
      w := s.nextObject;
      s := Attached(s, p, n);
    }

    /** A private mapping: a new object on a new pager over part of another one, or over nothing. */
    method Shadow(backing: Option<nat>, l: nat, r: nat, n: nat) returns (w: nat)
      requires Ready() && (backing.Some? ==> backing.value in s.pagers)
      modifies `s
      ensures Ready() && s.frames == old(s).frames && Quiet(old(s), s) && w == old(s).nextObject
      ensures s == Shadowed(old(s), backing, l, r, n) && w !in old(s).objects
      ensures w in s.objects && |s.objects[w].pages| == n && Private(s, w) && s.objects[w].pager == old(s).nextPager
      ensures |Contents(s, w)| == n && Windowed(old(s), backing, l, r, Contents(s, w))
    {
      hide Quiet, Sound;
      ShadowedQuiet(s, backing, l, r, n);
      QuietSound(s, Shadowed(s, backing, l, r, n));
      ShadowedPrivate(s, backing, l, r, n);
      ShadowWindow(s, backing, l, r, n);
      w := s.nextObject;
      s := Shadowed(s, backing, l, r, n);
    }

    /** A clone of an object; its pages are loaded when they are asked for. */
    method Clone(v: nat) returns (w: nat)
      requires Ready() && v in s.objects
      modifies `s
      ensures Ready() && s.frames == old(s).frames && Quiet(old(s), s) && w == old(s).nextObject &&
              s == Cloned(old(s), v)
      ensures w !in old(s).objects && w in s.objects && Contents(s, w) == Contents(old(s), v)
      ensures Private(s, w) && |s.objects[w].pages| == |old(s).objects[v].pages| &&
              s.objects[w].pager == old(s).nextPager
    {
      ClonedQuiet(s, v);
      ObjectPager(s, v);
      hide Quiet, Sound, Peek, Contents;
      var n := |s.objects[v].pages|;
      w := Shadow(Some(s.objects[v].pager), 0, n * PAGE, n);
    }

    /** A client writes page i of an object it has mapped. */
    method Write(v: nat, i: nat, c: Page)
      requires Ready() && v in s.objects && i < |s.objects[v].pages| && s.objects[v].pages[i].Some?
      modifies `s
      ensures Ready() && s.frames.Keys == old(s).frames.Keys && Wrote(old(s), s, v, i, c)
    {
      WroteSound(s, v, i, c);
      LoadedFrame(s, v, i);
      s := Filled(s, s.objects[v].pages[i].value, c);
    }
  }

  // ----- objects of their own

  /** No other object shares the pager of v, and it is no file's, so that none ever will. */
  ghost predicate Private(s: Store, v: nat)
    requires v in s.objects
  {
    var p := s.objects[v].pager;
    p in s.pagers && s.pagers[p].Swap? && forall w :: w in s.objects && w != v ==> s.objects[w].pager != p
  }

  lemma ShadowedPrivate(s: Store, backing: Option<nat>, l: nat, r: nat, n: nat)
    requires Sound(s)
    ensures Private(Shadowed(s, backing, l, r, n), s.nextObject)
  {
  }

  lemma LoadedFrame(s: Store, v: nat, i: nat)
    requires Sound(s) && Loaded(s, v, i)
    ensures s.objects[v].pages[i].value in s.frames && Holds(s, s.objects[v].pager, i, s.objects[v].pages[i].value)
  {
  }

  // ----- writing

  /** Page i of object v has been overwritten with c, in its frame. */
  ghost predicate Wrote(s: Store, s': Store, v: nat, i: nat, c: Page) {
    && Sound(s) && Sound(s') && v in s.objects && i < |s.objects[v].pages| && s.objects[v].pages[i].Some?
    && s' == Filled(s, s.objects[v].pages[i].value, c)
  }

  lemma WroteSound(s: Store, v: nat, i: nat, c: Page)
    requires Sound(s) && v in s.objects && i < |s.objects[v].pages| && s.objects[v].pages[i].Some?
    ensures Sound(Filled(s, s.objects[v].pages[i].value, c))
  {
    var f := s.objects[v].pages[i].value;
    var s' := Filled(s, f, c);
    assert Holds(s, s.objects[v].pager, i, f);
    assert forall p, off, g :: Holds(s', p, off, g) <==> Holds(s, p, off, g);
  }

  /**
   A write shows in that page of every object on the same pager that has it loaded, and in no other page that is loaded.
   */
  lemma WroteContents(s: Store, s': Store, v: nat, i: nat, c: Page, w: nat, j: nat)
    requires Wrote(s, s', v, i, c) && Loaded(s, w, j)
    ensures Loaded(s', w, j) && s.objects[w].pager in s.pagers && s'.objects == s.objects && s'.pagers == s.pagers
    ensures Contents(s', w)[j] == if s.objects[w].pager == s.objects[v].pager && j == i then c else Contents(s, w)[j]
  {
    var f := s.objects[v].pages[i].value;
    assert Holds(s, s.objects[v].pager, i, f);
    var p, g := s.objects[w].pager, s.objects[w].pages[j].value;
    assert Holds(s, p, j, g);
    HeldPeek(s, p, j, g);
    assert Holds(s', p, j, g);
    HeldPeek(s', p, j, g);
  }

  /** Loaded or not, the pages of a pager do not depend on younger ones. */
  lemma {:induction false} OlderPeek(s: Store, s': Store, v: nat, i: nat, c: Page, p: nat, off: nat)
    requires Wrote(s, s', v, i, c) && p in s.pagers && p < s.objects[v].pager
    ensures Peek(s', p, off) == Peek(s, p, off)
    decreases p
  {
    var f := s.objects[v].pages[i].value;
    assert Holds(s, s.objects[v].pager, i, f);
    var g := s.pagers[p];
    if off in g.pages {
      assert Holds(s, p, off, g.pages[off]);
    } else if g.Swap? && g.backing.Some? {
      OlderPeek(s, s', v, i, c, g.backing.value, g.l / PAGE + off);
    }
  }

  /** A write changes no page, loaded or not, of an object with an older pager. */
  lemma WroteOlder(s: Store, s': Store, v: nat, i: nat, c: Page, w: nat)
    requires Wrote(s, s', v, i, c) && w in s.objects && s.objects[w].pager < s.objects[v].pager
    ensures w in s'.objects && Contents(s', w) == Contents(s, w)
  {
    ObjectPager(s, w);
    forall j: nat | j < |s.objects[w].pages|
      ensures Peek(s', s.objects[w].pager, j) == Peek(s, s.objects[w].pager, j)
    {
      OlderPeek(s, s', v, i, c, s.objects[w].pager, j);
    }
    hide Sound, Peek;
  }

  /** A clone that has not loaded the page shows the original's later writes: loading at once is what isolates it. */
  lemma LazyCloneLeaks(s: Store, v: nat, i: nat, c: Page)
    requires Sound(s) && Loaded(s, v, i)
    ensures var s1 := Cloned(s, v);
            var s2 := Filled(s1, s.objects[v].pages[i].value, c);
            && Wrote(s1, s2, v, i, c) && s.nextObject in s2.objects && Contents(s2, s.nextObject)[i] == c
  {
    var s1 := Cloned(s, v);
    var s2 := Filled(s1, s.objects[v].pages[i].value, c);
    ClonedQuiet(s, v);
    assert s.nextObject !in s.objects && s.nextPager !in s.pagers;
    WroteSound(s1, v, i, c);
    hide Sound, Quiet;
    WroteContents(s1, s2, v, i, c, v, i);
    var n := |s.objects[v].pages|;
    TrimmedWhole(c, i, n);
    PeekIs(s2, s.nextPager, i);
    assert n * PAGE / PAGE == n;
  }

  // ----- whole runs

  /** One step of the system: something that changes no contents, or a write by some client. */
  datatype Step = Silent | Written(v: nat, i: nat, c: Page)

  ghost predicate Related(s: Store, e: Step, s': Store) {
    match e
    case Silent => Quiet(s, s')
    case Written(v, i, c) => Wrote(s, s', v, i, c)
  }

  /** A run through the states of ss. */
  ghost predicate Run(ss: seq<Store>, es: seq<Step>) {
    |ss| == |es| + 1 && Sound(ss[0]) && forall k :: 0 <= k < |es| ==> Related(ss[k], es[k], ss[k + 1])
  }

  /** What a page that held c holds after the writes to page j of the objects in `via`. */
  function Replay(c: Page, via: set<nat>, j: nat, es: seq<Step>): Page {
    if es == [] then c
    else
      var e := es[|es| - 1];
      if e.Written? && e.v in via && e.i == j then e.c else Replay(c, via, j, es[..|es| - 1])
  }

  /** The objects with the pager of v. */
  ghost function Sharers(s: Store, v: nat): set<nat>
    requires v in s.objects
  {
    set w | w in s.objects && s.objects[w].pager == s.objects[v].pager
  }

  /** Objects stay, with their pagers, and what is loaded stays loaded. */
  lemma StepKeeps(s: Store, e: Step, s': Store, v: nat)
    requires Related(s, e, s') && v in s.objects
    ensures Sound(s) && Sound(s') && v in s'.objects && s'.objects[v].pager == s.objects[v].pager
    ensures |s'.objects[v].pages| == |s.objects[v].pages| && forall j :: Loaded(s, v, j) ==> Loaded(s', v, j)
    ensures Private(s, v) ==> Private(s', v)
  {
    hide Sound, Peek;
    match e
    case Silent =>
      assert Extends(s.objects[v], s'.objects[v]);
      if Private(s, v) {
        QuietPrivate(s, s', v);
      }
    case Written(_, _, _) =>
  }

  lemma QuietPrivate(s: Store, s': Store, v: nat)
    requires Quiet(s, s') && v in s.objects && Private(s, v)
    ensures v in s'.objects && Private(s', v)
  {
    ObjectPager(s, v);
    hide Sound, Peek;
    assert Extends(s.objects[v], s'.objects[v]);
    forall w | w in s'.objects && w != v ensures s'.objects[w].pager != s'.objects[v].pager {
      if w in s.objects {
        assert Extends(s.objects[w], s'.objects[w]);
      } else {
        assert Unshared(s, s'.objects[w].pager);
      }
    }
  }

  lemma {:induction false} RunKeeps(ss: seq<Store>, es: seq<Step>, k: nat, v: nat)
    requires Run(ss, es) && k <= |es| && v in ss[0].objects
    ensures Sound(ss[k]) && v in ss[k].objects && ss[k].objects[v].pager == ss[0].objects[v].pager
    ensures |ss[k].objects[v].pages| == |ss[0].objects[v].pages| &&
            forall j :: Loaded(ss[0], v, j) ==> Loaded(ss[k], v, j)
    ensures Private(ss[0], v) ==> Private(ss[k], v)
  {
    if k > 0 {
      hide Sound, Private;
      RunKeeps(ss, es, k - 1, v);
      assert Related(ss[k - 1], es[k - 1], ss[k]);
      StepKeeps(ss[k - 1], es[k - 1], ss[k], v);
    }
  }

  /** The page after one step. */
  lemma StepShows(s: Store, e: Step, s': Store, v: nat, j: nat)
    requires Related(s, e, s') && Loaded(s, v, j)
    ensures Sound(s) && Sound(s') && Loaded(s', v, j)
    ensures e.Written? ==> e.v in s.objects
    ensures Contents(s', v)[j] ==
            if e.Written? && s.objects[e.v].pager == s.objects[v].pager && e.i == j then e.c else Contents(s, v)[j]
  {
    hide Sound, Peek, Contents;
    StepKeeps(s, e, s', v);
    if e.Silent? {
      QuietContents(s, s', v);
    } else {
      WroteContents(s, s', e.v, e.i, e.c, v, j);
    }
  }

  /**
   What a loaded page holds after any run of loads, clones, new mappings and writes: what it held at the start, or the
   last thing written to it through an object on the same pager.  `via` are those objects.
   */
  lemma {:induction false} History(ss: seq<Store>, es: seq<Step>, k: nat, v: nat, j: nat, via: set<nat>)
    requires Run(ss, es) && k <= |es| && Loaded(ss[0], v, j)
    requires forall u :: u in ss[k].objects ==> (u in via <==> ss[k].objects[u].pager == ss[0].objects[v].pager)
    ensures Sound(ss[k]) && Loaded(ss[k], v, j)
    ensures Contents(ss[k], v)[j] == Replay(Contents(ss[0], v)[j], via, j, es[..k])
    decreases k
  {
    hide Sound, Contents;
    if k > 0 {
      var a, e, b := ss[k - 1], es[k - 1], ss[k];
      assert Related(a, e, b);
      forall u | u in a.objects ensures u in via <==> a.objects[u].pager == ss[0].objects[v].pager {
        StepKeeps(a, e, b, u);
      }
      History(ss, es, k - 1, v, j, via);
      RunKeeps(ss, es, k - 1, v);
      StepShows(a, e, b, v, j);
      assert es[..k][..k - 1] == es[..k - 1] && es[..k][k - 1] == e;
    }
  }

  /** Isolation: a loaded page of a private object is changed by writes through that object only. */
  lemma Isolated(ss: seq<Store>, es: seq<Step>, v: nat, j: nat)
    requires Run(ss, es) && v in ss[0].objects && Private(ss[0], v) && Loaded(ss[0], v, j)
    ensures Sound(ss[|es|]) && Loaded(ss[|es|], v, j)
    ensures Contents(ss[|es|], v)[j] == Replay(Contents(ss[0], v)[j], {v}, j, es)
  {
    hide Sound, Contents;
    RunKeeps(ss, es, |es|, v);
    History(ss, es, |es|, v, j, {v});
    assert es[..|es|] == es;
  }

  /** At every step of a run a write through an object changes no page of an object with an older pager. */
  lemma OlderUnaffected(ss: seq<Store>, es: seq<Step>, k: nat, v: nat, w: nat)
    requires Run(ss, es) && k < |es| && v in ss[0].objects && w in ss[0].objects
    requires ss[0].objects[w].pager < ss[0].objects[v].pager && es[k].Written? && es[k].v == v
    ensures Sound(ss[k]) && Sound(ss[k + 1]) && w in ss[k].objects && w in ss[k + 1].objects
    ensures Contents(ss[k + 1], w) == Contents(ss[k], w)
  {
    hide Sound, Contents;
    RunKeeps(ss, es, k, v);
    RunKeeps(ss, es, k, w);
    RunKeeps(ss, es, k + 1, w);
    assert Related(ss[k], es[k], ss[k + 1]);
    WroteOlder(ss[k], ss[k + 1], v, es[k].i, es[k].c, w);
  }

  lemma QuietRefl(s: Store)
    requires Sound(s)
    ensures Quiet(s, s)
  {
  }

  lemma QuietSound(s: Store, s': Store)
    requires Quiet(s, s')
    ensures Sound(s) && Sound(s')
  {
  }

  lemma QuietPeek(s: Store, s': Store, p: nat, off: nat)
    requires Quiet(s, s') && p in s.pagers
    ensures Sound(s) && Sound(s') && p in s'.pagers && Peek(s', p, off) == Peek(s, p, off)
  {
  }

  lemma VnodePeek(s: Store, p: nat, off: nat)
    requires Sound(s) && p in s.pagers && s.pagers[p].Vnode? && off !in s.pagers[p].pages
    ensures Peek(s, p, off) == if off < |s.pagers[p].file| then s.pagers[p].file[off] else ZeroPage()
  {
  }

  lemma HeldOnce(s: Store, p: nat, off: nat, q: nat, off': nat, f: nat)
    requires Sound(s) && Holds(s, p, off, f) && Holds(s, q, off', f)
    ensures p == q && off == off'
  {
  }

  lemma HeldPeek(s: Store, p: nat, off: nat, f: nat)
    requires Sound(s) && Holds(s, p, off, f)
    ensures f in s.frames && Peek(s, p, off) == s.frames[f]
  {
  }

  /** One step of `Peek` on a swap pager. */
  lemma PeekIs(s: Store, p: nat, off: nat)
    requires Sound(s) && p in s.pagers
    ensures s.pagers[p].Swap? && off !in s.pagers[p].pages ==>
              var g := s.pagers[p];
              var at := g.l / PAGE + off;
              && (g.backing.Some? ==> g.backing.value < p && g.backing.value in s.pagers)
              && Peek(s, p, off) ==
                 if g.backing.Some? && at <= g.r / PAGE then Trimmed(Peek(s, g.backing.value, at), off, at, g.l, g.r)
                 else ZeroPage()
  {
  }
}
