/**
 What becomes of the heap when realloc is asked for 2^30 bytes or more.

 The request counts as one of size zero, so the block is cut down to nothing if the rest can be a block.  A block of
 size zero ends a pool: the pool falls in two, and the block is lost.
 */
module TlsfLost {
  import opened TlsfClass
  import opened TlsfLists
  import opened TlsfHeap
  import opened TlsfLive

  /** The pools when s has been cut at the block p. */
  ghost function Parted(pools: set<Pool>, s: Pool, p: Addr): set<Pool> {
    pools - {s} + {Pool(s.start, p), Pool(p + OVERHEAD, s.end)}
  }

  /** What the memory is after a used block p has been cut down to nothing. */
  ghost predicate IsCut(m: Mem, m': Mem, p: Addr, n: Addr, r: Addr) {
    && p in m && n in m && p in m' && r in m' && n in m' && r == p + OVERHEAD && r < n
    && m[p].size >= HEADER && m[p].size % 4 == 0 && !m[p].free && NextOf(m, p) == n && NextOf(m', r) == n
    && m'[p] == m[p].(size := 0) && m'[r].free && !m'[r].prevFree
    && m'[n] == m[n].(prevFree := true, prevPhys := r)
    && (forall e :: e in m && e != p && e != n && e != r ==> e in m' && m'[e] == m[e])
    && (forall e :: e in m' && e != r ==> e in m)
  }

  lemma CutFacts(m: Mem, p: Addr, back: Addr)
    requires p in m && m[p].size >= HEADER && m[p].size % 4 == 0 && !m[p].free && NextOf(m, p) in m
    ensures IsCut(m, Split(m, p, 0, back), p, NextOf(m, p), p + OVERHEAD)
  {
  }

  /** The facts about the neighbourhood of p that the proofs below start from. */
  lemma CutFresh(m: Mem, dom: set<Addr>, pools: set<Pool>, x: Addr, m': Mem, p: Addr, n: Addr, r: Addr)
    requires Heap(m, dom, pools, x) && p in dom && IsCut(m, m', p, n, r)
    ensures r !in dom && n in dom && p % 4 == 0 && p > 0 && forall e :: e in dom ==> e in m && e > 0
  {
    hide Coalesced, PoolOk, Sound;
    After(m, dom, pools, x, p);
    InMem(m, dom, pools, x);
  }

  lemma CutSeparate(m: Mem, dom: set<Addr>, m': Mem, p: Addr, n: Addr, r: Addr)
    requires IsCut(m, m', p, n, r) && Separate(m, dom) && p in dom && n in dom && r !in dom
    requires forall e :: e in dom ==> e in m
    ensures Separate(m', dom + {r})
  {
    forall a, b | a in dom + {r} && b in dom + {r} && a < b ensures a in m' && NextOf(m', a) <= b {
      if a == r {
        assert p < b;
      } else if b == r {
        assert a != n && (a == p || NextOf(m, a) <= p);
      }
    }
  }

  /** Inside a pool every block but the first has one right before it. */
  lemma HasBefore(m: Mem, dom: set<Addr>, pools: set<Pool>, x: Addr, s: Pool, e: Addr) returns (b: Addr)
    requires Heap(m, dom, pools, x) && s in pools && e in dom && s.start < e <= s.end
    ensures Before(m, dom, b, e)
  {
    hide Sound, Coalesced;
    assert PoolOk(m, dom, s);
    b := Tiled(m, dom, pools, x, s, s.start, e - 1);
    assert NextOf(m, b) == e && s.start <= b < s.end;
  }

  /** Pools that share a block are the same. */
  lemma SamePool(m: Mem, dom: set<Addr>, pools: set<Pool>, x: Addr, s: Pool, t: Pool, p: Addr)
    requires Heap(m, dom, pools, x) && s in pools && t in pools && p in dom
    requires s.start <= p < s.end && t.start <= p < t.end
    ensures s == t
  {
    hide Sound, Coalesced, Separate;
    assert PoolOk(m, dom, s) && PoolOk(m, dom, t);
    if s.start < t.start {
      var b := HasBefore(m, dom, pools, x, s, t.start);
    } else if t.start < s.start {
      var b := HasBefore(m, dom, pools, x, t, s.start);
    }
  }

  lemma OtherPool(m: Mem, dom: set<Addr>, m': Mem, p: Addr, n: Addr, r: Addr, t: Pool)
    requires IsCut(m, m', p, n, r) && PoolOk(m, dom, t) && p in dom && r !in dom && !(t.start <= p < t.end)
    requires forall e :: e in dom ==> e in m
    ensures PoolOk(m', dom + {r}, t)
  {
    assert !Before(m, dom, p, t.start);
    forall a ensures !Before(m', dom + {r}, a, t.start) {
      assert !Before(m, dom, a, t.start);
    }
  }

  lemma FrontPool(m: Mem, dom: set<Addr>, m': Mem, p: Addr, n: Addr, r: Addr, s: Pool)
    requires IsCut(m, m', p, n, r) && PoolOk(m, dom, s) && p in dom && n in dom && r !in dom && s.start <= p < s.end
    requires forall e :: e in dom ==> e in m
    ensures PoolOk(m', dom + {r}, Pool(s.start, p))
  {
    forall a ensures !Before(m', dom + {r}, a, s.start) {
      assert !Before(m, dom, a, s.start);
    }
  }

  lemma BackPool(m: Mem, dom: set<Addr>, m': Mem, p: Addr, n: Addr, r: Addr, s: Pool)
    requires IsCut(m, m', p, n, r) && PoolOk(m, dom, s) && Separate(m, dom) && Separate(m', dom + {r})
    requires p in dom && n in dom && r !in dom && s.start <= p && n <= s.end
    requires forall e :: e in dom ==> e in m
    ensures PoolOk(m', dom + {r}, Pool(r, s.end))
  {
    forall a ensures !Before(m', dom + {r}, a, r) {
      assert a in dom && a < p ==> NextOf(m, a) <= p;
    }
  }

  lemma CutHome(m: Mem, dom: set<Addr>, pools: set<Pool>, m': Mem, p: Addr, n: Addr, r: Addr, s: Pool, e: Addr)
    requires IsCut(m, m', p, n, r) && Separate(m, dom) && p in dom && e in dom && r !in dom && Home(m, pools, e)
    requires s in pools && Inside(m, s, p) && forall q :: q in dom ==> q in m
    ensures Home(m', Parted(pools, s, p), e) && Home(m', Parted(pools, s, p), r)
  {
    var front, back := Pool(s.start, p), Pool(r, s.end);
    assert Inside(m', back, r) && back in Parted(pools, s, p);
    var t :| t in pools && Inside(m, t, e);
    if e == p {
      assert Inside(m', front, e) && front in Parted(pools, s, p);
    } else if t != s {
      assert Inside(m', t, e) && t in Parted(pools, s, p);
    } else if e < p {
      assert NextOf(m, e) <= p && m[e].size > 0;
      assert Inside(m', front, e) && front in Parted(pools, s, p);
    } else {
      assert Inside(m', back, e);
    }
  }

  lemma CutPreceded(m: Mem, dom: set<Addr>, pools: set<Pool>, m': Mem, p: Addr, n: Addr, r: Addr, s: Pool, e: Addr)
    requires IsCut(m, m', p, n, r) && p in dom && e in dom && r !in dom && e in m && Preceded(m, dom, pools, e)
    requires s in pools
    ensures e in m' && Preceded(m', dom + {r}, Parted(pools, s, p), e)
  {
    var pools' := Parted(pools, s, p);
    if a :| Before(m, dom, a, e) {
      assert Before(m', dom + {r}, if a == p then r else a, e);
    } else {
      var t :| t in pools && t.start == e;
      var t' := if t == s then Pool(s.start, p) else t;
      assert t' in pools' && t'.start == e;
      if e == n {
        assert Before(m, dom, p, e);
      }
    }
  }

  lemma CutSound(m: Mem, dom: set<Addr>, pools: set<Pool>, m': Mem, p: Addr, n: Addr, r: Addr, s: Pool, e: Addr)
    requires IsCut(m, m', p, n, r) && Separate(m, dom) && p in dom && n in dom && r !in dom && e in dom
    requires Sound(m, dom, pools, p) && Sound(m, dom, pools, e)
    requires s in pools && Inside(m, s, p) && forall q :: q in dom ==> q in m
    ensures Sound(m', dom + {r}, Parted(pools, s, p), e)
  {
    hide Home, Separate, Preceded, Inside, Parted;
    CutHome(m, dom, pools, m', p, n, r, s, e);
    CutPreceded(m, dom, pools, m', p, n, r, s, e);
    if e != p && m[e].size > 0 && NextOf(m, e) == n {
      BeforeOnce(m, dom, p, e, n);
    }
  }

  lemma CutNew(m: Mem, dom: set<Addr>, pools: set<Pool>, m': Mem, p: Addr, n: Addr, r: Addr, s: Pool)
    requires IsCut(m, m', p, n, r) && p in dom && n in dom && p % 4 == 0 && p > 0 && s in pools
    requires Home(m', Parted(pools, s, p), r)
    ensures Sound(m', dom + {r}, Parted(pools, s, p), r)
  {
    hide Home;
    assert Pool(r, s.end) in Parted(pools, s, p);
  }

  lemma CutCoalesced(m: Mem, dom: set<Addr>, m': Mem, p: Addr, n: Addr, r: Addr)
    requires IsCut(m, m', p, n, r) && Coalesced(m, dom, NIL) && p in dom && r !in dom && n in dom
    requires forall e :: e in dom ==> e in m && e > 0
    ensures Coalesced(m', dom + {r}, r)
  {
    forall a, b | Before(m', dom + {r}, a, b) && b in m' && a != r && b != r ensures !m'[a].free || !m'[b].free {
      assert Before(m, dom, a, b) && m'[a].free == m[a].free && m'[b].free == m[b].free;
    }
  }

  /** Cutting a block down to nothing leaves a heap, but one of other pools. */
  lemma Cuts(m: Mem, dom: set<Addr>, pools: set<Pool>, p: Addr, back: Addr) returns (s: Pool)
    requires Heap(m, dom, pools, NIL) && p in Live(m, dom) && m[p].size >= HEADER
    ensures NextOf(m, p) in m && s in pools && s.start <= p < s.end && p + OVERHEAD !in dom
    ensures Heap(Split(m, p, 0, back), dom + {p + OVERHEAD}, Parted(pools, s, p), p + OVERHEAD)
  {
    hide Separate, PoolOk, Coalesced, Split, IsCut, Before, Parted, Preceded, Joint;
    After(m, dom, pools, NIL, p);
    var n, r, m' := NextOf(m, p), p + OVERHEAD, Split(m, p, 0, back);
    assert Sound(m, dom, pools, p);
    CutFacts(m, p, back);
    CutFresh(m, dom, pools, NIL, m', p, n, r);
    CutSeparate(m, dom, m', p, n, r);
    CutCoalesced(m, dom, m', p, n, r);
    s :| s in pools && Inside(m, s, p);
    CutHome(m, dom, pools, m', p, n, r, s, p);
    hide Sound, Home, Shaped;
    CutNew(m, dom, pools, m', p, n, r, s);
    CutPools(m, dom, pools, m', p, n, r, s);
    forall e | e in dom ensures Sound(m', dom + {r}, Parted(pools, s, p), e) {
      CutSound(m, dom, pools, m', p, n, r, s, e);
    }
  }

  lemma CutPools(m: Mem, dom: set<Addr>, pools: set<Pool>, m': Mem, p: Addr, n: Addr, r: Addr, s: Pool)
    requires Heap(m, dom, pools, NIL) && IsCut(m, m', p, n, r) && p in dom && n in dom && r !in dom
    requires s in pools && Inside(m, s, p) && Separate(m', dom + {r}) && forall e :: e in dom ==> e in m
    ensures forall t :: t in Parted(pools, s, p) ==> PoolOk(m', dom + {r}, t)
  {
    hide Sound, Separate, PoolOk, Coalesced, Before;
    assert s.start <= p < s.end && n <= s.end by { assert IsCut(m, m', p, n, r); }
    FrontPool(m, dom, m', p, n, r, s);
    BackPool(m, dom, m', p, n, r, s);
    forall t | t in pools && t != s ensures PoolOk(m', dom + {r}, t) {
      if t.start <= p < t.end {
        SamePool(m, dom, pools, NIL, s, t, p);
      }
      OtherPool(m, dom, m', p, n, r, t);
    }
  }

  lemma CutLive(m: Mem, dom: set<Addr>, m': Mem, p: Addr, n: Addr, r: Addr)
    requires IsCut(m, m', p, n, r) && p in dom && r !in dom && forall e :: e in dom ==> e in m
    ensures Live(m', dom + {r}) == Live(m, dom) - {p} && Agree(m, m', dom, {p, r})
  {
    assert forall e :: e in dom && e != p ==> e in m' && m'[e].size == m[e].size && m'[e].free == m[e].free;
    var l, l' := Live(m, dom), Live(m', dom + {r});
    assert forall e :: e in l' <==> e in l && e != p;
  }

  // ----- no choice of blocks saves the old pools

  /** As far as p nothing has changed, so any set of blocks holds the blocks up to p. */
  lemma {:induction false} StillBlock(m: Mem, dom: set<Addr>, pools: set<Pool>, m': Mem, dom': set<Addr>,
                                      pools': set<Pool>, x: Addr, s: Pool, q: Addr, p: Addr)
    requires Heap(m, dom, pools, NIL) && Heap(m', dom', pools', x) && s in pools && p in dom &&
             s.start <= q <= p < s.end
    requires q in dom && q in dom' && forall e :: e in dom && e in m && e < p ==> e in m' && m'[e].size == m[e].size
    ensures p in dom'
    decreases p - q
  {
    hide Heap;
    if q < p {
      NextInside(m, dom, pools, s, q, p);
      After(m', dom', pools', x, q);
      StillBlock(m, dom, pools, m', dom', pools', x, s, NextOf(m, q), p);
    }
  }

  lemma NextInside(m: Mem, dom: set<Addr>, pools: set<Pool>, s: Pool, q: Addr, p: Addr)
    requires Heap(m, dom, pools, NIL) && s in pools && p in dom && q in dom && s.start <= q < p < s.end
    ensures q in m && m[q].size > 0 && q < NextOf(m, q) <= p && NextOf(m, q) in dom
  {
    hide Sound, Shaped, Joint, Preceded, Home, Coalesced, Before;
    assert PoolOk(m, dom, s);
    After(m, dom, pools, NIL, q);
  }

  /**
   A memory in which a block inside a pool has size zero, and all before it is as it was, is no heap of these pools.
   */
  lemma NoHeap(m: Mem, dom: set<Addr>, pools: set<Pool>, m': Mem, s: Pool, p: Addr, dom': set<Addr>, x: Addr)
    requires Heap(m, dom, pools, NIL) && s in pools && p in dom && s.start <= p < s.end
    requires p in m' && m'[p].size == 0 &&
             forall e :: e in dom && e in m && e < p ==> e in m' && m'[e].size == m[e].size
    ensures !Heap(m', dom', pools, x) && p !in Live(m', dom')
  {
    if Heap(m', dom', pools, x) {
      assert PoolOk(m, dom, s) && PoolOk(m', dom', s);
      hide Sound, Coalesced, Separate;
      StillBlock(m, dom, pools, m', dom', pools, x, s, s.start, p);
      assert false;
    }
  }
}
