/**
 The blocks of the TLSF heap as they lie in memory.

 A block at address p keeps its size 8 bytes above p and its data above that; the next block starts 8 bytes above the
 end of p's size field and data.  A pool ends in a block of size zero that is in use.  `dom` is the set of addresses
 that are blocks; memory elsewhere may hold anything, headers of blocks that were merged away included.
 */
module TlsfHeap {
  import opened TlsfLists
  import opened TlsfClass

  const OVERHEAD: nat := 8
  const MIN_SIZE: nat := 24
  const HEADER: nat := 32

  /** prevPhys means something only if the previous block is free. */
  datatype Hdr = Hdr(prevPhys: Addr, size: nat, free: bool, prevFree: bool)
  type Mem = map<Addr, Hdr>

  datatype Pool = Pool(start: Addr, end: Addr)

  function NextOf(m: Mem, p: Addr): Addr
    requires p in m
  {
    p + OVERHEAD + m[p].size
  }

  // ----- what holds of every block

  ghost predicate Shaped(m: Mem, p: Addr) {
    && p in m && p > 0 && p % 4 == 0 && m[p].size % 4 == 0
    && (if m[p].size == 0 then !m[p].free else m[p].size >= MIN_SIZE)
  }

  /** The next block's flag and back link agree with this block. */
  ghost predicate Joint(m: Mem, dom: set<Addr>, p: Addr)
    requires p in m
  {
    m[p].size > 0 ==>
      var n := NextOf(m, p);
      && n in dom && n in m && m[n].prevFree == m[p].free
      && (m[p].free ==> m[n].prevPhys == p)
  }

  ghost predicate Before(m: Mem, dom: set<Addr>, p: Addr, q: Addr) {
    p in dom && p in m && m[p].size > 0 && NextOf(m, p) == q
  }

  /** A block is the first of a pool, or some block is right before it. */
  ghost predicate Preceded(m: Mem, dom: set<Addr>, pools: set<Pool>, q: Addr)
    requires q in m
  {
    || (!m[q].prevFree && exists s :: s in pools && s.start == q)
    || (exists p :: Before(m, dom, p, q))
  }

  /** The block lies in its pool. */
  ghost predicate Inside(m: Mem, s: Pool, p: Addr) {
    p in m && s.start <= p && if m[p].size == 0 then p == s.end else NextOf(m, p) <= s.end
  }

  ghost predicate Home(m: Mem, pools: set<Pool>, p: Addr) { exists s :: s in pools && Inside(m, s, p) }

  ghost predicate Sound(m: Mem, dom: set<Addr>, pools: set<Pool>, p: Addr) {
    Shaped(m, p) && Joint(m, dom, p) && Preceded(m, dom, pools, p) && Home(m, pools, p)
  }

  /** No two blocks overlap. */
  ghost predicate Separate(m: Mem, dom: set<Addr>) {
    forall p, q :: p in dom && q in dom && p < q ==> p in m && NextOf(m, p) <= q
  }

  ghost predicate PoolOk(m: Mem, dom: set<Addr>, s: Pool) {
    && s.start in dom && s.end in dom && s.end in m && m[s.end].size == 0
    && s.start <= s.end < s.start + OVERHEAD + MAX_BLOCK
    && (forall z :: z in dom && s.start <= z < s.end ==> z in m && m[z].size != 0)
    && (forall p :: !Before(m, dom, p, s.start))
  }

  /** Two free blocks lie side by side only if one of them is x, which is being worked on. */
  ghost predicate Coalesced(m: Mem, dom: set<Addr>, x: Addr) {
    forall p, q :: Before(m, dom, p, q) && q in m && p != x && q != x ==> !m[p].free || !m[q].free
  }

  ghost predicate Heap(m: Mem, dom: set<Addr>, pools: set<Pool>, x: Addr) {
    && (forall p :: p in dom ==> Sound(m, dom, pools, p))
    && Separate(m, dom) && (forall s :: s in pools ==> PoolOk(m, dom, s)) && Coalesced(m, dom, x)
  }

  // ----- first consequences

  lemma BeforeOnce(m: Mem, dom: set<Addr>, p: Addr, q: Addr, n: Addr)
    requires Separate(m, dom) && Before(m, dom, p, n) && Before(m, dom, q, n)
    ensures p == q
  {
  }

  lemma BlockPositive(m: Mem, dom: set<Addr>, pools: set<Pool>, x: Addr, b: Addr)
    requires Heap(m, dom, pools, x) && b in dom
    ensures b > 0 && b in m && Shaped(m, b)
  {
    assert Sound(m, dom, pools, b);
  }

  /** The block after one that is not last. */
  lemma After(m: Mem, dom: set<Addr>, pools: set<Pool>, x: Addr, p: Addr)
    requires Heap(m, dom, pools, x) && p in dom && p in m && m[p].size > 0
    ensures var n := NextOf(m, p);
            && Before(m, dom, p, n) && n in dom && n in m && Shaped(m, n) && Shaped(m, p) && p < n
            && m[n].prevFree == m[p].free && (m[p].free ==> m[n].prevPhys == p)
  {
    assert Sound(m, dom, pools, p);
    assert Sound(m, dom, pools, NextOf(m, p));
  }

  /** The block before one marked as following a free block. */
  lemma Previous(m: Mem, dom: set<Addr>, pools: set<Pool>, x: Addr, q: Addr)
    requires Heap(m, dom, pools, x) && q in dom && q in m && m[q].prevFree
    ensures var p := m[q].prevPhys; Before(m, dom, p, q) && Shaped(m, p) && m[p].free
  {
    assert Sound(m, dom, pools, q);
    var p :| Before(m, dom, p, q);
    assert Sound(m, dom, pools, p);
  }

  /** Block sizes stay below 2^30, so that their class is in the table. */
  lemma SizeBound(m: Mem, dom: set<Addr>, pools: set<Pool>, x: Addr, p: Addr)
    requires Heap(m, dom, pools, x) && p in dom
    ensures p in m && m[p].size < MAX_BLOCK
  {
    assert Sound(m, dom, pools, p);
    var s :| s in pools && Inside(m, s, p);
    assert PoolOk(m, dom, s);
  }

  /** The blocks of a pool tile it: every address in it belongs to one block, and the block lies in the pool. */
  lemma {:induction false} Tiled(m: Mem, dom: set<Addr>, pools: set<Pool>, x: Addr, s: Pool, p: Addr, a: Addr)
    returns (b: Addr)
    requires Heap(m, dom, pools, x) && s in pools && p in dom && s.start <= p <= a < s.end
    ensures b in dom && b in m && p <= b <= a < NextOf(m, b) <= s.end
    ensures forall q :: q in dom && q in m && q <= a < NextOf(m, q) ==> q == b
    decreases a - p
  {
    hide Sound, Shaped, Joint, Preceded, Home, Coalesced, Before;
    assert PoolOk(m, dom, s);
    After(m, dom, pools, x, p);
    var n := NextOf(m, p);
    if a < n {
      b := p;
    } else {
      b := Tiled(m, dom, pools, x, s, n, a);
    }
  }

  // ----- marking a block free or used

  /** The block's flag, the flag after it, and for a free block the back link. */
  function Mark(m: Mem, p: Addr, f: bool): Mem
    requires p in m && NextOf(m, p) in m
  {
    var n := NextOf(m, p);
    m[n := m[n].(prevFree := f, prevPhys := if f then p else m[n].prevPhys)][p := m[p].(free := f)]
  }

  /** The same blocks, with the same sizes. */
  ghost predicate SameSizes(m: Mem, m': Mem, dom: set<Addr>) {
    forall e :: e in dom ==> e in m && e in m' && m'[e].size == m[e].size
  }

  lemma SeparateSame(m: Mem, m': Mem, dom: set<Addr>, pools: set<Pool>)
    requires SameSizes(m, m', dom) && Separate(m, dom) && forall s :: s in pools ==> PoolOk(m, dom, s)
    ensures Separate(m', dom) && forall s :: s in pools ==> PoolOk(m', dom, s)
  {
    forall s | s in pools ensures PoolOk(m', dom, s) {
      assert PoolOk(m, dom, s);
      forall p ensures !Before(m', dom, p, s.start) {
        BeforeSame(m, m', dom, p, s.start);
      }
    }
  }

  lemma BeforeSame(m: Mem, m': Mem, dom: set<Addr>, p: Addr, q: Addr)
    requires SameSizes(m, m', dom)
    ensures Before(m, dom, p, q) <==> Before(m', dom, p, q)
  {
  }

  lemma HomeSame(m: Mem, m': Mem, dom: set<Addr>, pools: set<Pool>, e: Addr)
    requires SameSizes(m, m', dom) && e in dom && Home(m, pools, e)
    ensures Home(m', pools, e)
  {
    var s :| s in pools && Inside(m, s, e);
    assert Inside(m', s, e);
  }

  lemma PrecededSame(m: Mem, m': Mem, dom: set<Addr>, pools: set<Pool>, e: Addr)
    requires SameSizes(m, m', dom) && e in dom && e in m && Preceded(m, dom, pools, e)
    requires m'[e].prevFree == m[e].prevFree || exists p :: Before(m, dom, p, e)
    ensures Preceded(m', dom, pools, e)
  {
    if p :| Before(m, dom, p, e) {
      BeforeSame(m, m', dom, p, e);
    }
  }

  lemma MarkFacts(m: Mem, dom: set<Addr>, p: Addr, f: bool)
    requires p in m && m[p].size > 0 && NextOf(m, p) in m && forall e :: e in dom ==> e in m
    ensures SameSizes(m, Mark(m, p, f), dom)
  {
  }

  lemma MarkedSound(m: Mem, dom: set<Addr>, pools: set<Pool>, x: Addr, p: Addr, f: bool, e: Addr)
    requires Heap(m, dom, pools, x) && p in dom && p in m && m[p].size > 0 && e in dom
    ensures NextOf(m, p) in m && Sound(Mark(m, p, f), dom, pools, e)
  {
    hide Coalesced, PoolOk, Home, Preceded, Separate;
    After(m, dom, pools, x, p);
    var n, m' := NextOf(m, p), Mark(m, p, f);
    assert forall e :: e in dom ==> Sound(m, dom, pools, e);
    MarkFacts(m, dom, p, f);
    assert e == n ==> Before(m, dom, p, e);
    PrecededSame(m, m', dom, pools, e);
    HomeSame(m, m', dom, pools, e);
    if e != p && m[e].size > 0 && NextOf(m, e) == n {
      BeforeOnce(m, dom, p, e, n);
    }
  }

  lemma MarkedCoalesced(m: Mem, dom: set<Addr>, x: Addr, p: Addr, f: bool)
    requires forall e :: e in dom ==> e in m && e > 0
    requires Coalesced(m, dom, x) && p in m && NextOf(m, p) in m && m[p].size > 0
    requires if f then x == NIL else x == p || x == NIL
    ensures Coalesced(Mark(m, p, f), dom, if f then p else NIL)
  {
    MarkFacts(m, dom, p, f);
    var m' := Mark(m, p, f);
    var y := if f then p else NIL;
    forall a, b | Before(m', dom, a, b) && b in m' && a != y && b != y ensures !m'[a].free || !m'[b].free {
      BeforeSame(m, m', dom, a, b);
      assert m'[a].free == if a == p then f else m[a].free;
      assert m'[b].free == if b == p then f else m[b].free;
    }
  }

  lemma InMem(m: Mem, dom: set<Addr>, pools: set<Pool>, x: Addr)
    requires Heap(m, dom, pools, x)
    ensures forall e :: e in dom ==> e in m && e > 0
  {
    assert forall e :: e in dom ==> Sound(m, dom, pools, e);
  }

  lemma Marked(m: Mem, dom: set<Addr>, pools: set<Pool>, x: Addr, p: Addr, f: bool)
    requires Heap(m, dom, pools, x) && p in dom && p in m && m[p].size > 0 &&
             (if f then x == NIL else x == p || x == NIL)
    ensures NextOf(m, p) in m && Heap(Mark(m, p, f), dom, pools, if f then p else NIL)
  {
    hide Sound, Separate, PoolOk, Coalesced, Mark, Before, Shaped, SameSizes;
    After(m, dom, pools, x, p);
    InMem(m, dom, pools, x);
    MarkFacts(m, dom, p, f);
    SeparateSame(m, Mark(m, p, f), dom, pools);
    MarkedCoalesced(m, dom, x, p, f);
    forall e | e in dom ensures Sound(Mark(m, p, f), dom, pools, e) {
      MarkedSound(m, dom, pools, x, p, f, e);
    }
  }

  // ----- splitting

  /** Block p cut down to a size; the rest of it becomes a free block. */
  function Split(m: Mem, p: Addr, size: nat, back: Addr): Mem
    requires p in m && NextOf(m, p) in m && m[p].size >= size + OVERHEAD
  {
    var n, r := NextOf(m, p), p + OVERHEAD + size;
    m[n := m[n].(prevFree := true, prevPhys := r)]
     [r := Hdr(back, m[p].size - size - OVERHEAD, true, m[p].free)]
     [p := m[p].(size := size)]
  }

  ghost predicate CanSplit(m: Mem, p: Addr, size: nat) {
    p in m && m[p].size >= size + HEADER && size >= MIN_SIZE && size % 4 == 0
  }

  /** What the memory is after a split. */
  ghost predicate IsSplit(m: Mem, m': Mem, p: Addr, n: Addr, r: Addr, size: nat, back: Addr) {
    && p in m && n in m && p in m' && r in m' && n in m' && p < r < n && CanSplit(m, p, size)
    && NextOf(m, p) == n && NextOf(m', p) == r && NextOf(m', r) == n
    && m'[p] == m[p].(size := size)
    && m'[r] == Hdr(back, m[p].size - size - OVERHEAD, true, m[p].free)
    && m'[n] == m[n].(prevFree := true, prevPhys := r)
    && (forall e :: e in m && e != p && e != n && e != r ==> e in m' && m'[e] == m[e])
    && (forall e :: e in m' && e != r ==> e in m)
  }

  lemma SplitFacts(m: Mem, p: Addr, size: nat, back: Addr)
    requires CanSplit(m, p, size) && NextOf(m, p) in m
    ensures IsSplit(m, Split(m, p, size, back), p, NextOf(m, p), p + OVERHEAD + size, size, back)
  {
  }

  lemma SplitFresh(m: Mem, dom: set<Addr>, pools: set<Pool>, x: Addr, m': Mem, p: Addr, n: Addr, r: Addr, size: nat,
                   back: Addr)
    requires Heap(m, dom, pools, x) && p in dom && IsSplit(m, m', p, n, r, size, back)
    ensures r !in dom && n in dom && forall e :: e in dom ==> e in m && e > 0
  {
    hide Coalesced, PoolOk, Sound;
    After(m, dom, pools, x, p);
    InMem(m, dom, pools, x);
  }

  lemma SplitSeparate(m: Mem, dom: set<Addr>, m': Mem, p: Addr, n: Addr, r: Addr, size: nat, back: Addr)
    requires IsSplit(m, m', p, n, r, size, back) && Separate(m, dom) && p in dom && n in dom && r !in dom
    requires forall e :: e in dom ==> e in m
    ensures Separate(m', dom + {r})
  {
    forall a, b | a in dom + {r} && b in dom + {r} && a < b ensures a in m' && NextOf(m', a) <= b {
      if a == r {
        assert p < b;
      } else if b == r {
        assert a != n && (a == p || NextOf(m, a) <= p);
      }
    }
  }

  lemma SplitPool(m: Mem, dom: set<Addr>, m': Mem, p: Addr, n: Addr, r: Addr, size: nat, back: Addr, s: Pool)
    requires IsSplit(m, m', p, n, r, size, back) && PoolOk(m, dom, s) && p in dom && r !in dom
    requires forall e :: e in dom ==> e in m
    ensures PoolOk(m', dom + {r}, s)
  {
    forall a ensures !Before(m', dom + {r}, a, s.start) {
      assert !Before(m, dom, a, s.start) && !Before(m, dom, p, s.start);
    }
  }

  lemma SplitCoalesced(m: Mem, dom: set<Addr>, m': Mem, x: Addr, p: Addr, n: Addr, r: Addr, size: nat, back: Addr)
    requires IsSplit(m, m', p, n, r, size, back) && Coalesced(m, dom, x) && p in dom && r !in dom
    requires (x == NIL || x == p) && Separate(m, dom)
    requires (forall e :: e in dom ==> e in m && e > 0) && (m[p].free ==> x == p && !m[n].free)
    ensures Coalesced(m', dom + {r}, if m[p].free then p else r)
  {
    var y := if m[p].free then p else r;
    forall a, b | Before(m', dom + {r}, a, b) && b in m' && a != y && b != y ensures !m'[a].free || !m'[b].free {
      if a == r {
        assert b == n;
      } else if a != p {
        assert Before(m, dom, a, b) && b != r;
        assert m'[a].free == m[a].free && m'[b].free == m[b].free;
      }
    }
  }

  lemma SplitBefore(m: Mem, dom: set<Addr>, m': Mem, p: Addr, n: Addr, r: Addr, size: nat, back: Addr, a: Addr, e: Addr)
    requires IsSplit(m, m', p, n, r, size, back) && p in dom && r !in dom && Before(m, dom, a, e)
    ensures exists b :: Before(m', dom + {r}, b, e)
  {
    if a == p {
      assert Before(m', dom + {r}, r, e);
    } else {
      assert a == n ==> m'[n].size == m[n].size;
      assert Before(m', dom + {r}, a, e);
    }
  }

  lemma SplitHome(m: Mem, m': Mem, pools: set<Pool>, p: Addr, n: Addr, r: Addr, size: nat, back: Addr, e: Addr)
    requires IsSplit(m, m', p, n, r, size, back) && e in m && e != r && Home(m, pools, e) && Home(m, pools, p)
    ensures Home(m', pools, e) && Home(m', pools, r)
  {
    var s :| s in pools && Inside(m, s, e);
    assert Inside(m', s, e);
    var t :| t in pools && Inside(m, t, p);
    assert Inside(m', t, r);
  }

  lemma SplitSound(m: Mem, dom: set<Addr>, pools: set<Pool>, m': Mem, p: Addr, n: Addr, r: Addr, size: nat, back: Addr,
                   e: Addr)
    requires IsSplit(m, m', p, n, r, size, back) && Separate(m, dom) && p in dom && n in dom && r !in dom && e in dom
    requires (m[p].free ==> back == p) && Sound(m, dom, pools, p) && Sound(m, dom, pools, n) && Sound(m, dom, pools, e)
    ensures Sound(m', dom + {r}, pools, e)
  {
    hide Home, Separate;
    SplitHome(m, m', pools, p, n, r, size, back, e);
    assert Before(m', dom + {r}, r, n);
    if a :| Before(m, dom, a, e) {
      SplitBefore(m, dom, m', p, n, r, size, back, a, e);
    }
    if e != p && m[e].size > 0 && NextOf(m, e) == n {
      BeforeOnce(m, dom, p, e, n);
    }
  }

  lemma SplitNew(m: Mem, dom: set<Addr>, pools: set<Pool>, m': Mem, p: Addr, n: Addr, r: Addr, size: nat, back: Addr)
    requires IsSplit(m, m', p, n, r, size, back) && p in dom && n in dom && r !in dom && Sound(m, dom, pools, p)
    ensures Sound(m', dom + {r}, pools, r)
  {
    hide Home;
    SplitHome(m, m', pools, p, n, r, size, back, p);
    assert Before(m', dom + {r}, p, r);
  }

  /** Splitting keeps the heap; the new block may lie beside a free one. */
  lemma Splits(m: Mem, dom: set<Addr>, pools: set<Pool>, x: Addr, p: Addr, size: nat, back: Addr)
    requires Heap(m, dom, pools, x) && p in dom && CanSplit(m, p, size) && (x == NIL || x == p)
    requires NextOf(m, p) in m && (m[p].free ==> x == p && back == p && !m[NextOf(m, p)].free)
    ensures var r := p + OVERHEAD + size;
            r !in dom && Heap(Split(m, p, size, back), dom + {r}, pools, if m[p].free then p else r)
  {
    hide Sound, Separate, PoolOk, Coalesced, Split, IsSplit, Before;
    var n, r, m' := NextOf(m, p), p + OVERHEAD + size, Split(m, p, size, back);
    SplitFacts(m, p, size, back);
    SplitFresh(m, dom, pools, x, m', p, n, r, size, back);
    SplitSeparate(m, dom, m', p, n, r, size, back);
    SplitCoalesced(m, dom, m', x, p, n, r, size, back);
    SplitNew(m, dom, pools, m', p, n, r, size, back);
    forall s | s in pools ensures PoolOk(m', dom + {r}, s) {
      SplitPool(m, dom, m', p, n, r, size, back, s);
    }
    forall e | e in dom ensures Sound(m', dom + {r}, pools, e) {
      SplitSound(m, dom, pools, m', p, n, r, size, back, e);
    }
  }

  // ----- merging

  /** Block p extended over the block q after it. */
  function Absorb(m: Mem, p: Addr, q: Addr): Mem
    requires p in m && q in m && NextOf(m, q) in m
  {
    var n := NextOf(m, q);
    m[n := m[n].(prevPhys := p, prevFree := m[p].free)]
     [p := m[p].(size := m[p].size + OVERHEAD + m[q].size)]
  }

  ghost predicate IsAbsorbed(m: Mem, m': Mem, p: Addr, q: Addr, n: Addr) {
    && p in m && q in m && n in m && p in m' && n in m' && p < q < n && m[p].size > 0 && m[q].size > 0
    && NextOf(m, p) == q && NextOf(m, q) == n && NextOf(m', p) == n
    && m'[p] == m[p].(size := m[p].size + OVERHEAD + m[q].size)
    && m'[n] == m[n].(prevPhys := p, prevFree := m[p].free)
    && (forall e :: e in m && e != p && e != n ==> e in m' && m'[e] == m[e])
    && (forall e :: e in m' ==> e in m)
  }

  lemma AbsorbFacts(m: Mem, dom: set<Addr>, pools: set<Pool>, x: Addr, p: Addr, q: Addr)
    requires Heap(m, dom, pools, x) && Before(m, dom, p, q) && q in m && m[q].size > 0
    ensures q in dom && NextOf(m, q) in dom && NextOf(m, q) in m && IsAbsorbed(m, Absorb(m, p, q), p, q, NextOf(m, q))
    ensures (forall e :: e in dom ==> e in m && e > 0) && Shaped(m, q) && Shaped(m, p)
  {
    hide Heap, Sound, Joint;
    After(m, dom, pools, x, p);
    After(m, dom, pools, x, q);
    InMem(m, dom, pools, x);
  }

  lemma AbsorbSeparate(m: Mem, dom: set<Addr>, m': Mem, p: Addr, q: Addr, n: Addr)
    requires IsAbsorbed(m, m', p, q, n) && Separate(m, dom) && p in dom && q in dom && n in dom
    requires forall e :: e in dom ==> e in m
    ensures Separate(m', dom - {q})
  {
    forall a, b | a in dom - {q} && b in dom - {q} && a < b ensures a in m' && NextOf(m', a) <= b {
      if a == p {
        assert q < b;
      }
    }
  }

  lemma AbsorbPool(m: Mem, dom: set<Addr>, m': Mem, p: Addr, q: Addr, n: Addr, s: Pool)
    requires IsAbsorbed(m, m', p, q, n) && PoolOk(m, dom, s) && p in dom && q in dom
    requires forall e :: e in dom ==> e in m
    ensures PoolOk(m', dom - {q}, s)
  {
    assert !Before(m, dom, p, s.start) && !Before(m, dom, q, s.start);
    forall a ensures !Before(m', dom - {q}, a, s.start) {
      assert !Before(m, dom, a, s.start);
    }
  }

  lemma AbsorbBefore(m: Mem, dom: set<Addr>, m': Mem, p: Addr, q: Addr, n: Addr, a: Addr, e: Addr)
    requires IsAbsorbed(m, m', p, q, n) && p in dom && Before(m, dom, a, e) && e != q
    ensures exists b :: Before(m', dom - {q}, b, e)
  {
    if a == q {
      assert Before(m', dom - {q}, p, e);
    } else {
      assert Before(m', dom - {q}, a, e);
    }
  }

  lemma AbsorbHome(m: Mem, m': Mem, dom: set<Addr>, pools: set<Pool>, p: Addr, q: Addr, n: Addr, e: Addr)
    requires IsAbsorbed(m, m', p, q, n) && e in m && Home(m, pools, e) && Separate(m, dom) && q in dom
    requires forall s :: s in pools ==> PoolOk(m, dom, s)
    ensures Home(m', pools, e)
  {
    var s :| s in pools && Inside(m, s, e);
    assert PoolOk(m, dom, s);
    assert e == p ==> q != s.end && n <= s.end;
    assert Inside(m', s, e);
  }

  lemma AbsorbSound(m: Mem, dom: set<Addr>, pools: set<Pool>, m': Mem, p: Addr, q: Addr, n: Addr, e: Addr)
    requires IsAbsorbed(m, m', p, q, n) && Separate(m, dom) && p in dom && q in dom && n in dom && e in dom && e != q
    requires Sound(m, dom, pools, p) && Sound(m, dom, pools, e) && Home(m', pools, e) && Shaped(m, q)
    ensures Sound(m', dom - {q}, pools, e)
  {
    hide Home, Separate;
    assert Before(m', dom - {q}, p, n);
    if a :| Before(m, dom, a, e) {
      AbsorbBefore(m, dom, m', p, q, n, a, e);
    }
    if e != p && m[e].size > 0 && NextOf(m, e) == n {
      BeforeOnce(m, dom, q, e, n);
    }
    if e != p && m[e].size > 0 && NextOf(m, e) == q {
      BeforeOnce(m, dom, p, e, q);
    }
  }

  lemma AbsorbCoalesced(m: Mem, dom: set<Addr>, m': Mem, x: Addr, p: Addr, q: Addr, n: Addr)
    requires IsAbsorbed(m, m', p, q, n) && Coalesced(m, dom, x) && p in dom && q in dom && Separate(m, dom)
    requires (forall e :: e in dom ==> e in m && e > 0) && (if m[p].free then x == p || x == q else x == NIL)
    ensures Coalesced(m', dom - {q}, if m[p].free then p else NIL)
  {
    var y := if m[p].free then p else NIL;
    forall a, b | Before(m', dom - {q}, a, b) && b in m' && a != y && b != y ensures !m'[a].free || !m'[b].free {
      if a != p {
        assert Before(m, dom, a, b);
        if b == q {
          BeforeOnce(m, dom, p, a, q);
        }
      }
    }
  }

  lemma SoundHome(m: Mem, dom: set<Addr>, pools: set<Pool>, e: Addr)
    requires Sound(m, dom, pools, e)
    ensures e in m && Home(m, pools, e)
  {
  }

  /** Merging keeps the heap. */
  lemma Absorbs(m: Mem, dom: set<Addr>, pools: set<Pool>, x: Addr, p: Addr, q: Addr)
    requires Heap(m, dom, pools, x) && Before(m, dom, p, q) && q in m && m[q].size > 0
    requires if m[p].free then x == p || x == q else x == NIL
    ensures NextOf(m, q) in m && Heap(Absorb(m, p, q), dom - {q}, pools, if m[p].free then p else NIL)
  {
    hide Sound, Separate, PoolOk, Coalesced, Absorb, IsAbsorbed, Home, Shaped;
    AbsorbFacts(m, dom, pools, x, p, q);
    var m' := Absorb(m, p, q);
    var n := NextOf(m, q);
    AbsorbSeparate(m, dom, m', p, q, n);
    AbsorbCoalesced(m, dom, m', x, p, q, n);
    forall s | s in pools ensures PoolOk(m', dom - {q}, s) {
      AbsorbPool(m, dom, m', p, q, n, s);
    }
    forall e | e in dom - {q} ensures Sound(m', dom - {q}, pools, e) {
      SoundHome(m, dom, pools, e);
      AbsorbHome(m, m', dom, pools, p, q, n, e);
      AbsorbSound(m, dom, pools, m', p, q, n, e);
    }
  }
}
