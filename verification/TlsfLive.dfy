/**
 How the free lists and the heap go together, and what the heap looks like to its clients.
 */
module TlsfLive {
  import opened TlsfClass
  import opened TlsfLists
  import opened TlsfHeap

  // ----- the free lists hold the free blocks

  /** The block in a list of class c. */
  ghost predicate Entry(m: Mem, dom: set<Addr>, c: nat, p: Addr) {
    p in dom && p in m && m[p].free && Fits(m[p].size, c)
  }

  /** p is in the list of its class. */
  ghost predicate InList(m: Mem, lists: seq<seq<Addr>>, p: Addr)
    requires p in m
  {
    exists c :: 0 <= c < |lists| && p in lists[c] && Fits(m[p].size, c)
  }

  /** The lists hold the free blocks, each in its class, except those of xs. */
  ghost predicate Listed(m: Mem, dom: set<Addr>, lists: seq<seq<Addr>>, xs: set<Addr>) {
    && |lists| == CLASSES
    && (forall c, p :: 0 <= c < CLASSES && p in lists[c] ==> Entry(m, dom, c, p) && p !in xs)
    && (forall p :: p in dom && p !in xs && p in m && m[p].free ==> InList(m, lists, p))
  }

  /** The two memories agree on the blocks outside xs. */
  ghost predicate Agree(m: Mem, m': Mem, dom: set<Addr>, xs: set<Addr>) {
    forall p :: p in dom && p !in xs && p in m ==> p in m' && m'[p].size == m[p].size && m'[p].free == m[p].free
  }

  /** Changing blocks ys that are in no list, and setting aside xs' instead of xs. */
  lemma ListedAgree(m: Mem, dom: set<Addr>, m': Mem, dom': set<Addr>, lists: seq<seq<Addr>>, xs: set<Addr>,
                    xs': set<Addr>, ys: set<Addr>)
    requires Listed(m, dom, lists, xs) && Agree(m, m', dom, ys)
    requires forall p :: p in ys + xs' && p in dom && p in m ==> p in xs || !m[p].free
    requires forall p :: p in dom' && p !in xs' && p in m' && m'[p].free ==> p in dom && p in m && p !in xs + ys
    requires forall p :: p in dom && p !in dom' && p in m && m[p].free ==> p in xs
    ensures Listed(m', dom', lists, xs')
  {
    forall c, p | 0 <= c < CLASSES && p in lists[c] ensures Entry(m', dom', c, p) && p !in xs' {
      assert Entry(m, dom, c, p);
    }
    forall p | p in dom' && p !in xs' && p in m' && m'[p].free ensures InList(m', lists, p) {
      assert InList(m, lists, p);
      var c :| 0 <= c < |lists| && p in lists[c] && Fits(m[p].size, c);
      assert Fits(m'[p].size, c);
    }
  }

  lemma ListedDrop(m: Mem, dom: set<Addr>, lists: seq<seq<Addr>>, lists': seq<seq<Addr>>, xs: set<Addr>, c: nat,
                   b: Addr)
    requires Listed(m, dom, lists, xs) && Dropped(lists, lists', c, b)
    ensures Listed(m, dom, lists', xs + {b})
  {
    forall d, p | 0 <= d < CLASSES && p in lists'[d] ensures Entry(m, dom, d, p) && p !in xs + {b} {
      assert p in lists[d];
    }
    forall p | p in dom && p !in xs + {b} && p in m && m[p].free ensures InList(m, lists', p) {
      assert InList(m, lists, p);
      var d :| 0 <= d < |lists| && p in lists[d] && Fits(m[p].size, d);
      assert p in lists'[d];
    }
  }

  lemma ListedPush(m: Mem, dom: set<Addr>, lists: seq<seq<Addr>>, xs: set<Addr>, c: nat, b: Addr)
    requires Listed(m, dom, lists, xs) && c < CLASSES && Entry(m, dom, c, b) && b in xs
    ensures Loose(lists, b) && Listed(m, dom, lists[c := [b] + lists[c]], xs - {b})
  {
    var lists' := lists[c := [b] + lists[c]];
    forall d, p | 0 <= d < CLASSES && p in lists'[d] ensures Entry(m, dom, d, p) && p !in xs - {b} {
      assert (p == b && d == c) || p in lists[d];
    }
    forall p | p in dom && p !in xs - {b} && p in m && m[p].free ensures InList(m, lists', p) {
      if p == b {
        assert b in lists'[c];
      } else {
        assert InList(m, lists, p);
        var d :| 0 <= d < |lists| && p in lists[d] && Fits(m[p].size, d);
        assert p in lists'[d];
      }
    }
  }

  lemma ListOf(m: Mem, dom: set<Addr>, lists: seq<seq<Addr>>, xs: set<Addr>, b: Addr, c: nat)
    requires Listed(m, dom, lists, xs) && b in dom && b !in xs && b in m && m[b].free && Fits(m[b].size, c)
    ensures c < CLASSES && b in lists[c]
  {
    assert InList(m, lists, b);
    var d :| 0 <= d < |lists| && b in lists[d] && Fits(m[b].size, d);
    FitsOnce(m[b].size, c, d);
  }

  // ----- the client's view

  /** The blocks in use, with their sizes. */
  ghost function Live(m: Mem, dom: set<Addr>): map<Addr, nat> {
    map p | p in dom && p in m && !m[p].free && m[p].size > 0 :: m[p].size
  }

  /** No free block is as large as the request rounded up to a class boundary. */
  ghost predicate NoFit(m: Mem, dom: set<Addr>, request: nat) {
    exists c :: RoundedUp(request, c) && forall p :: p in dom && p in m && m[p].free ==> m[p].size < Lo(c)
  }

  lemma RoundedOnce(request: nat, c: nat, d: nat)
    requires RoundedUp(request, c) && RoundedUp(request, d)
    ensures c == d
  {
    if c < d {
      LoMono(c, d - 1);
    } else if d < c {
      LoMono(d, c - 1);
    }
  }

  /** Good fit: a request fails only if every free block is smaller than five quarters of it. */
  lemma NoFitBound(m: Mem, dom: set<Addr>, request: nat, p: Addr)
    requires NoFit(m, dom, request) && request > SMALL && p in dom && p in m && m[p].free
    ensures 4 * m[p].size < 5 * request
  {
    var c :| RoundedUp(request, c) && forall p :: p in dom && p in m && m[p].free ==> m[p].size < Lo(c);
    ClassStep(request, c);
  }

  lemma EmptyNoFit(m: Mem, dom: set<Addr>, lists: seq<seq<Addr>>, request: nat, c: nat)
    requires Listed(m, dom, lists, {}) && RoundedUp(request, c) && Empty(lists, c, CLASSES)
    ensures NoFit(m, dom, request)
  {
    forall p | p in dom && p in m && m[p].free ensures m[p].size < Lo(c) {
      assert InList(m, lists, p);
      var d :| 0 <= d < |lists| && p in lists[d] && Fits(m[p].size, d);
      assert d < c;
      LoMono(d + 1, c);
    }
  }

  lemma FoundFits(m: Mem, dom: set<Addr>, lists: seq<seq<Addr>>, request: nat, c: nat, d: nat, b: Addr)
    requires Listed(m, dom, lists, {}) && RoundedUp(request, c) && c <= d < CLASSES && b in lists[d]
    ensures b in dom && b in m && m[b].free && m[b].size >= request && !NoFit(m, dom, request)
  {
    assert Entry(m, dom, d, b);
    LoMono(c, d);
    if NoFit(m, dom, request) {
      var e :| RoundedUp(request, e) && forall p :: p in dom && p in m && m[p].free ==> m[p].size < Lo(e);
      RoundedOnce(request, c, e);
    }
  }

  // ----- the steps of the allocator

  lemma WeakenHeap(m: Mem, dom: set<Addr>, pools: set<Pool>, x: Addr)
    requires Heap(m, dom, pools, NIL)
    ensures Heap(m, dom, pools, x)
  {
    hide Sound, Separate, PoolOk, Shaped;
    InMem(m, dom, pools, NIL);
  }

  /** A block that is not beside a free block any more. */
  lemma Settled(m: Mem, dom: set<Addr>, pools: set<Pool>, b: Addr)
    requires Heap(m, dom, pools, b) && b in dom && b in m && m[b].size > 0 && NextOf(m, b) in m
    requires !m[b].prevFree && !m[NextOf(m, b)].free
    ensures Heap(m, dom, pools, NIL)
  {
    hide Sound, Separate, PoolOk, Shaped;
    forall p, q | Before(m, dom, p, q) && q in m ensures !m[p].free || !m[q].free {
      if q == b {
        After(m, dom, pools, b, p);
      }
    }
  }

  lemma MarkLive(m: Mem, dom: set<Addr>, p: Addr, f: bool)
    requires p in dom && p in m && m[p].size > 0 && NextOf(m, p) in m
    ensures Live(Mark(m, p, f), dom) == if f then Live(m, dom) - {p} else Live(m, dom)[p := m[p].size]
    ensures Agree(m, Mark(m, p, f), dom, {p})
  {
  }

  lemma SplitLive(m: Mem, dom: set<Addr>, p: Addr, size: nat, back: Addr)
    requires p in dom && CanSplit(m, p, size) && NextOf(m, p) in m && p + OVERHEAD + size !in dom
    ensures var r, m' := p + OVERHEAD + size, Split(m, p, size, back);
            && Live(m', dom + {r}) == (if m[p].free then Live(m, dom) else Live(m, dom)[p := size])
            && Agree(m, m', dom, {p, r})
  {
    SplitFacts(m, p, size, back);
  }

  lemma AbsorbLive(m: Mem, dom: set<Addr>, p: Addr, q: Addr)
    requires p in dom && p in m && q in m && q in dom && m[q].free && m[q].size > 0 && NextOf(m, q) in m && p != q
    requires m[p].size > 0 && NextOf(m, q) != p
    ensures var m' := Absorb(m, p, q);
            && Live(m', dom - {q}) == (if m[p].free then Live(m, dom) else Live(m, dom)[p := m'[p].size])
            && Agree(m, m', dom, {p})
  {
  }

  /** A free block in its list has no free block after it. */
  lemma NextUsed(m: Mem, dom: set<Addr>, pools: set<Pool>, b: Addr)
    requires Heap(m, dom, pools, NIL) && b in dom && b in m && m[b].free
    ensures m[b].size > 0 && NextOf(m, b) in m && NextOf(m, b) in dom && !m[NextOf(m, b)].free && !m[b].prevFree
  {
    hide Separate, PoolOk;
    InMem(m, dom, pools, NIL);
    assert Sound(m, dom, pools, b);
    After(m, dom, pools, NIL, b);
    if m[b].prevFree {
      Previous(m, dom, pools, NIL, b);
    }
  }

  /** The data of two blocks in use do not overlap. */
  lemma DataApart(m: Mem, dom: set<Addr>, pools: set<Pool>, x: Addr, p: Addr, q: Addr)
    requires Heap(m, dom, pools, x) && p in Live(m, dom) && q in Live(m, dom) && p < q
    ensures p + OVERHEAD + Live(m, dom)[p] <= q
  {
  }

  // ----- a new pool

  /** Nothing of the heap lies in the stretch a pool of this size would take. */
  ghost predicate PoolRoom(m: Mem, dom: set<Addr>, start: Addr, size: nat) {
    && size != MAX_BLOCK
    && forall p :: p in dom && p in m ==> NextOf(m, p) <= start - OVERHEAD || start + size + OVERHEAD <= p
  }

  function NewPool(m: Mem, b: Addr, size: nat, back: Addr): Mem {
    m[b := Hdr(back, size, true, false)][b + OVERHEAD + size := Hdr(b, 0, false, true)]
  }

  ghost predicate IsNewPool(m: Mem, dom: set<Addr>, m': Mem, b: Addr, e: Addr, size: nat) {
    && b > 0 && b % 4 == 0 && size % 4 == 0 && MIN_SIZE <= size < MAX_BLOCK && e == b + OVERHEAD + size
    && b in m' && m'[b].size == size && m'[b].free && !m'[b].prevFree
    && e in m' && m'[e] == Hdr(b, 0, false, true)
    && (forall p :: p in m && p != b && p != e ==> p in m' && m'[p] == m[p])
    && (forall p :: p in m' && p != b && p != e ==> p in m)
    && (forall p :: p in dom ==> p in m && p > 0 && (NextOf(m, p) <= b || e + OVERHEAD <= p))
  }

  lemma NewPoolFacts(m: Mem, dom: set<Addr>, pools: set<Pool>, b: Addr, size: nat, back: Addr)
    requires Heap(m, dom, pools, NIL) && b > 0 && b % 4 == 0 && size % 4 == 0 && MIN_SIZE <= size < MAX_BLOCK
    requires PoolRoom(m, dom, b + OVERHEAD, size)
    ensures IsNewPool(m, dom, NewPool(m, b, size, back), b, b + OVERHEAD + size, size)
  {
    hide Heap;
    InMem(m, dom, pools, NIL);
  }

  lemma NewPoolSound(m: Mem, dom: set<Addr>, pools: set<Pool>, m': Mem, b: Addr, e: Addr, size: nat, p: Addr)
    requires IsNewPool(m, dom, m', b, e, size) && Heap(m, dom, pools, NIL) && p in dom + {b, e}
    ensures Sound(m', dom + {b, e}, pools + {Pool(b, e)}, p)
  {
    hide Separate, PoolOk, Coalesced;
    var dom', pools' := dom + {b, e}, pools + {Pool(b, e)};
    if p in dom {
      assert Sound(m, dom, pools, p);
      if a :| Before(m, dom, a, p) {
        assert Before(m', dom', a, p);
      }
      var s :| s in pools && Inside(m, s, p);
      assert Inside(m', s, p) && s in pools';
      if s :| s in pools && s.start == p {
        assert s in pools';
      }
    } else {
      var s := Pool(b, e);
      assert s in pools' && Inside(m', s, p);
      assert Before(m', dom', b, e);
    }
  }

  lemma NewPoolSeparate(m: Mem, dom: set<Addr>, m': Mem, b: Addr, e: Addr, size: nat)
    requires IsNewPool(m, dom, m', b, e, size) && Separate(m, dom)
    ensures Separate(m', dom + {b, e}) && b !in dom && e !in dom
  {
  }

  /** No address of the new pool lies in another one, since its blocks leave no gap. */
  lemma OldPool(m: Mem, dom: set<Addr>, pools: set<Pool>, m': Mem, b: Addr, e: Addr, size: nat, s: Pool)
    requires IsNewPool(m, dom, m', b, e, size) && Heap(m, dom, pools, NIL) && s in pools && b !in dom && e !in dom
    ensures PoolOk(m', dom + {b, e}, s)
  {
    hide Separate, Sound, Coalesced;
    assert PoolOk(m, dom, s);
    if s.start <= e < s.end {
      var _ := Tiled(m, dom, pools, NIL, s, s.start, e);
    }
    forall a ensures !Before(m', dom + {b, e}, a, s.start) {
      assert !Before(m, dom, a, s.start);
    }
  }

  lemma OwnPool(m: Mem, dom: set<Addr>, m': Mem, b: Addr, e: Addr, size: nat)
    requires IsNewPool(m, dom, m', b, e, size) && b !in dom && e !in dom && forall a :: !Before(m, dom, a, b)
    ensures PoolOk(m', dom + {b, e}, Pool(b, e))
  {
    forall a ensures !Before(m', dom + {b, e}, a, b) {
      assert !Before(m, dom, a, b);
    }
  }

  lemma NewPoolCoalesced(m: Mem, dom: set<Addr>, m': Mem, b: Addr, e: Addr, size: nat)
    requires IsNewPool(m, dom, m', b, e, size) && Coalesced(m, dom, NIL) && b !in dom && e !in dom
    requires forall a :: !Before(m, dom, a, b)
    ensures Coalesced(m', dom + {b, e}, NIL)
  {
    forall p, q | Before(m', dom + {b, e}, p, q) && q in m' && p != NIL && q != NIL ensures !m'[p].free || !m'[q].free {
      if p in dom {
        assert Before(m, dom, p, q) && q != b;
      }
    }
  }

  lemma NoneBefore(m: Mem, dom: set<Addr>, pools: set<Pool>, b: Addr)
    requires Heap(m, dom, pools, NIL) && b !in dom
    ensures forall a :: !Before(m, dom, a, b)
  {
    forall a ensures !Before(m, dom, a, b) {
      if a in dom {
        assert Sound(m, dom, pools, a);
      }
    }
  }

  /** A new pool keeps the heap. */
  lemma PoolAdded(m: Mem, dom: set<Addr>, pools: set<Pool>, b: Addr, size: nat, back: Addr)
    requires Heap(m, dom, pools, NIL) && b > 0 && b % 4 == 0 && size % 4 == 0 && MIN_SIZE <= size < MAX_BLOCK
    requires PoolRoom(m, dom, b + OVERHEAD, size)
    ensures var e, m' := b + OVERHEAD + size, NewPool(m, b, size, back);
            && b !in dom && e !in dom && Heap(m', dom + {b, e}, pools + {Pool(b, e)}, NIL)
            && Live(m', dom + {b, e}) == Live(m, dom)
  {
    hide Sound, Separate, PoolOk, Coalesced, IsNewPool, NewPool, Live;
    var e, m' := b + OVERHEAD + size, NewPool(m, b, size, back);
    NewPoolFacts(m, dom, pools, b, size, back);
    NewPoolSeparate(m, dom, m', b, e, size);
    NoneBefore(m, dom, pools, b);
    NewPoolCoalesced(m, dom, m', b, e, size);
    OwnPool(m, dom, m', b, e, size);
    NewPoolLive(m, dom, m', b, e, size);
    forall s | s in pools ensures PoolOk(m', dom + {b, e}, s) {
      OldPool(m, dom, pools, m', b, e, size, s);
    }
    forall p | p in dom + {b, e} ensures Sound(m', dom + {b, e}, pools + {Pool(b, e)}, p) {
      NewPoolSound(m, dom, pools, m', b, e, size, p);
    }
  }

  lemma NewPoolLive(m: Mem, dom: set<Addr>, m': Mem, b: Addr, e: Addr, size: nat)
    requires IsNewPool(m, dom, m', b, e, size) && b !in dom && e !in dom
    ensures Live(m', dom + {b, e}) == Live(m, dom) && Agree(m, m', dom, {b, e})
  {
    assert forall p :: p in dom ==> p in m && p in m' && m'[p] == m[p];
    var l, l' := Live(m, dom), Live(m', dom + {b, e});
    assert forall p :: p in l <==> p in l';
  }

  /** Its one block goes on the list of its class. */
  lemma PoolListed(m: Mem, dom: set<Addr>, pools: set<Pool>, b: Addr, size: nat, back: Addr, lists: seq<seq<Addr>>,
                   c: nat)
    requires Heap(m, dom, pools, NIL) && b > 0 && b % 4 == 0 && size % 4 == 0 && MIN_SIZE <= size < MAX_BLOCK
    requires PoolRoom(m, dom, b + OVERHEAD, size) && Listed(m, dom, lists, {}) && c < CLASSES && Fits(size, c)
    ensures var e, m' := b + OVERHEAD + size, NewPool(m, b, size, back);
            Loose(lists, b) && Listed(m', dom + {b, e}, lists[c := [b] + lists[c]], {})
  {
    hide Heap, Listed, Loose, NewPool;
    var e, m' := b + OVERHEAD + size, NewPool(m, b, size, back);
    NewPoolFacts(m, dom, pools, b, size, back);
    PoolAdded(m, dom, pools, b, size, back);
    NewPoolLive(m, dom, m', b, e, size);
    ListedAgree(m, dom, m', dom + {b, e}, lists, {}, {b}, {b, e});
    ListedPush(m', dom + {b, e}, lists, {b}, c, b);
    assert {b} - {b} == {};
  }

  // ----- what clients may do to memory

  /** The headers the allocator relies on are as they were.  A back link counts only after a free block. */
  ghost predicate Untouched(m: Mem, m': Mem, dom: set<Addr>) {
    forall p :: p in dom && p in m ==>
      && p in m' && m'[p].size == m[p].size && m'[p].free == m[p].free && m'[p].prevFree == m[p].prevFree
      && (m[p].prevFree ==> m'[p].prevPhys == m[p].prevPhys)
  }

  lemma ClientSound(m: Mem, m': Mem, dom: set<Addr>, pools: set<Pool>, p: Addr)
    requires SameSizes(m, m', dom) && Untouched(m, m', dom) && p in dom && Sound(m, dom, pools, p)
    ensures Sound(m', dom, pools, p)
  {
    hide Home, Preceded;
    HomeSame(m, m', dom, pools, p);
    PrecededSame(m, m', dom, pools, p);
  }

  /** Anything else in memory may change. */
  lemma ClientHeap(m: Mem, m': Mem, dom: set<Addr>, pools: set<Pool>)
    requires Heap(m, dom, pools, NIL) && Untouched(m, m', dom)
    ensures Heap(m', dom, pools, NIL) && Live(m', dom) == Live(m, dom) && Agree(m, m', dom, {})
  {
    hide Sound, Separate, PoolOk, Live;
    InMem(m, dom, pools, NIL);
    SeparateSame(m, m', dom, pools);
    forall p | p in dom ensures Sound(m', dom, pools, p) {
      ClientSound(m, m', dom, pools, p);
    }
    forall p, q | Before(m', dom, p, q) && q in m' && p != NIL && q != NIL ensures !m'[p].free || !m'[q].free {
      BeforeSame(m, m', dom, p, q);
      After(m, dom, pools, NIL, p);
    }
    ClientLive(m, m', dom);
  }

  lemma ClientLive(m: Mem, m': Mem, dom: set<Addr>)
    requires Untouched(m, m', dom) && forall p :: p in dom ==> p in m
    ensures Live(m', dom) == Live(m, dom)
  {
    assert forall p :: p in dom ==> p in m' && m'[p].size == m[p].size && m'[p].free == m[p].free;
    var l, l' := Live(m, dom), Live(m', dom);
    assert forall p :: p in l <==> p in l';
  }
}
