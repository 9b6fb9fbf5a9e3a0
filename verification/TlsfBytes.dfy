/**
 The bytes the allocator writes, and that none of them is a client's.

 Block p keeps its back link at [p, p + 8), its size and flags at [p + 8, p + 16) and its data from p + 16 on, up to and
 including the back link of the next block.  The links of a free block are the first sixteen bytes of its data.
 */
module TlsfBytes {
  import opened Basics
  import opened TlsfLists
  import opened TlsfHeap
  import opened TlsfLive

  /** Where a block's data starts. */
  const DATA: nat := 16

  /** A store into the bytes [lo, hi), or a copy of n bytes. */
  datatype Store = Store(lo: int, hi: int) | Copy(dst: int, src: int, n: nat) {
    function From(): int { if Store? then lo else dst }
    function To(): int { if Store? then hi else dst + n }
  }

  function Back(e: Addr): Store { Store(e, e + 8) }
  function Size(e: Addr): Store { Store(e + 8, e + 16) }
  function Links(e: Addr): Store { Store(e + 16, e + 32) }

  /** Back link and size are eight bytes each, right before the data; the links are the first sixteen bytes of it. */
  lemma HeaderLayout(e: Addr)
    ensures Back(e).From() == e && Back(e).To() == Size(e).From() == e + 8 && Size(e).To() == e + DATA
    ensures Links(e).From() == e + DATA && Links(e).To() == e + DATA + 16
    ensures forall src, n: nat :: Copy(e, src, n).From() == e && Copy(e, src, n).To() == e + n
    ensures NextOf(map[e := Hdr(0, 16, false, false)], e) + 8 == e + DATA + 16
  {
  }

  /** The stores that change the links of a block; the null block is not in the heap. */
  function LinksOf(e: Addr): seq<Store> { if e == NIL then [] else [Links(e)] }

  /** The store misses the first live[q] bytes of the data of each block q. */
  ghost predicate Safe(s: Store, live: map<Addr, nat>) {
    forall q :: q in live ==> s.To() <= q + DATA || q + DATA + live[q] <= s.From()
  }

  /** All that has been added to the log is safe. */
  ghost predicate Logged(before: seq<Store>, log: seq<Store>, live: map<Addr, nat>) {
    && |before| <= |log| && log[..|before|] == before
    && forall i :: |before| <= i < |log| ==> Safe(log[i], live)
  }

  lemma LoggedRefl(log: seq<Store>, live: map<Addr, nat>)
    ensures Logged(log, log, live)
  {
  }

  lemma LoggedTrans(a: seq<Store>, b: seq<Store>, c: seq<Store>, live: map<Addr, nat>)
    requires Logged(a, b, live) && Logged(b, c, live)
    ensures Logged(a, c, live)
  {
    hide Safe;
    assert c[..|a|] == c[..|b|][..|a|];
    forall i | |a| <= i < |c| ensures Safe(c[i], live) {
      assert i < |b| ==> c[i] == b[i];
    }
  }

  ghost predicate AllSafe(ss: seq<Store>, live: map<Addr, nat>) { forall i :: 0 <= i < |ss| ==> Safe(ss[i], live) }

  lemma LoggedMore(log: seq<Store>, ss: seq<Store>, live: map<Addr, nat>)
    requires AllSafe(ss, live)
    ensures Logged(log, log + ss, live)
  {
    hide Safe;
  }

  /** What is safe for some data is safe for less of it. */
  ghost predicate Less(few: map<Addr, nat>, many: map<Addr, nat>) {
    forall q :: q in few ==> q in many && few[q] <= many[q]
  }

  lemma LoggedLess(a: seq<Store>, b: seq<Store>, few: map<Addr, nat>, many: map<Addr, nat>)
    requires Logged(a, b, many) && Less(few, many)
    ensures Logged(a, b, few)
  {
    forall i | |a| <= i < |b| ensures Safe(b[i], few) {
      assert Safe(b[i], many);
    }
  }

  // ----- what belongs to a block

  /** The blocks of `live` are there, at least as large. */
  ghost predicate There(m: Mem, dom: set<Addr>, live: map<Addr, nat>) {
    forall q :: q in live ==> q in dom && q in m && live[q] <= m[q].size
  }

  /** From its size on, up to the size of the next block, memory is a block's own. */
  lemma OwnSafe(m: Mem, dom: set<Addr>, pools: set<Pool>, x: Addr, live: map<Addr, nat>, p: Addr, s: Store)
    requires Heap(m, dom, pools, x) && There(m, dom, live) && p in dom && p in m
    requires p + 8 <= s.From() && s.To() <= NextOf(m, p) + 8
    requires p in live ==> s.To() <= p + DATA || p + DATA + live[p] <= s.From()
    ensures Safe(s, live)
  {
    hide Sound, PoolOk, Coalesced;
    forall q | q in live ensures s.To() <= q + DATA || q + DATA + live[q] <= s.From() {
      assert q < p ==> NextOf(m, q) <= p;
      assert p < q ==> NextOf(m, p) <= q;
    }
  }

  lemma LiveThere(m: Mem, dom: set<Addr>, live: map<Addr, nat>)
    requires Less(live, Live(m, dom))
    ensures There(m, dom, live)
  {
  }

  lemma LessRefl(live: map<Addr, nat>)
    ensures Less(live, live)
  {
  }

  // ----- the stores of each step

  function MarkStores(n: Addr, b: Addr, f: bool): seq<Store> { (if f then [Back(n)] else []) + [Size(n), Size(b)] }

  function SplitStores(n: Addr, b: Addr, r: Addr): seq<Store> { [Size(r), Size(b), Back(n), Size(n), Size(r)] }

  function AbsorbStores(n: Addr, p: Addr): seq<Store> { [Size(p), Back(n)] }

  lemma MarkSafe(m: Mem, dom: set<Addr>, pools: set<Pool>, x: Addr, live: map<Addr, nat>, b: Addr, f: bool)
    requires Heap(m, dom, pools, x) && There(m, dom, live) && b in dom && b in m && m[b].size > 0 && (f ==> b !in live)
    ensures AllSafe(MarkStores(NextOf(m, b), b, f), live)
  {
    hide Heap, Safe, There;
    After(m, dom, pools, x, b);
    var n := NextOf(m, b);
    OwnSafe(m, dom, pools, x, live, b, Size(b));
    OwnSafe(m, dom, pools, x, live, n, Size(n));
    if f {
      OwnSafe(m, dom, pools, x, live, b, Back(n));
    }
  }

  lemma SplitSafe(m: Mem, dom: set<Addr>, pools: set<Pool>, x: Addr, live: map<Addr, nat>, b: Addr, size: nat)
    requires Heap(m, dom, pools, x) && There(m, dom, live) && b in dom && b in m && m[b].size >= size + HEADER
    requires b in live ==> live[b] <= size
    ensures AllSafe(SplitStores(NextOf(m, b), b, b + OVERHEAD + size), live)
    ensures b !in live ==> Safe(Back(b + OVERHEAD + size), live)
  {
    hide Heap, Safe, There;
    After(m, dom, pools, x, b);
    var n, r := NextOf(m, b), b + OVERHEAD + size;
    OwnSafe(m, dom, pools, x, live, b, Size(b));
    OwnSafe(m, dom, pools, x, live, b, Size(r));
    OwnSafe(m, dom, pools, x, live, b, Back(n));
    OwnSafe(m, dom, pools, x, live, n, Size(n));
    if b !in live {
      OwnSafe(m, dom, pools, x, live, b, Back(r));
    }
  }

  lemma AbsorbSafe(m: Mem, dom: set<Addr>, pools: set<Pool>, x: Addr, live: map<Addr, nat>, p: Addr, q: Addr)
    requires Heap(m, dom, pools, x) && There(m, dom, live) && p in dom && p in m && q in dom && q in m && q !in live
    ensures AllSafe(AbsorbStores(NextOf(m, q), p), live)
  {
    hide Heap, Safe, There;
    OwnSafe(m, dom, pools, x, live, p, Size(p));
    OwnSafe(m, dom, pools, x, live, q, Back(NextOf(m, q)));
  }

  /** The links of a free block are in the block. */
  lemma LinksSafe(m: Mem, dom: set<Addr>, pools: set<Pool>, x: Addr, live: map<Addr, nat>, e: Addr)
    requires Heap(m, dom, pools, x) && There(m, dom, live)
    requires e != NIL ==> e in dom && e in m && m[e].free && e !in live
    ensures AllSafe(LinksOf(e), live)
  {
    hide Heap, Safe, There;
    if e != NIL {
      BlockPositive(m, dom, pools, x, e);
      OwnSafe(m, dom, pools, x, live, e, Links(e));
    }
  }

  // ----- what the stores do to bytes

  type Bytes = int -> Byte

  /** A store leaves other bytes alone; nothing is said about the bytes it writes, unless it copies them. */
  ghost predicate Stored(b: Bytes, s: Store, b': Bytes) {
    && (forall a: int {:trigger b'(a)} :: !(s.From() <= a < s.To()) ==> b'(a) == b(a))
    && (s.Copy? ==> forall a: int {:trigger b'(a)} :: s.dst <= a < s.dst + s.n ==> b'(a) == b(s.src + (a - s.dst)))
  }

  /** The bytes before the log, after each of its stores, and in the end. */
  ghost predicate Ran(bs: seq<Bytes>, log: seq<Store>) {
    |bs| == |log| + 1 && forall i :: 0 <= i < |log| ==> Stored(bs[i], log[i], bs[i + 1])
  }

  /** Data in use does not change while safe stores are made. */
  lemma {:induction false} DataKept(bs: seq<Bytes>, log: seq<Store>, i: nat, j: nat, live: map<Addr, nat>, q: Addr,
                                    k: nat)
    requires Ran(bs, log) && i <= j <= |log| && q in live && k < live[q]
    requires forall h :: i <= h < j ==> Safe(log[h], live)
    ensures bs[j](q + DATA + k) == bs[i](q + DATA + k)
    decreases j
  {
    if i < j {
      DataKept(bs, log, i, j - 1, live, q, k);
      assert Stored(bs[j - 1], log[j - 1], bs[j]) && Safe(log[j - 1], live);
    }
  }

  /** The log of a block that was moved: safe stores, the copy, safe stores. */
  ghost predicate Moves(before: seq<Store>, log: seq<Store>, was: map<Addr, nat>, now: map<Addr, nat>, b: Addr, p: Addr,
                        n: nat)
  {
    exists at :: |before| <= at < |log| && MovesAt(before, log, was, now, b, p, n, at)
  }

  ghost predicate MovesAt(before: seq<Store>, log: seq<Store>, was: map<Addr, nat>, now: map<Addr, nat>, b: Addr,
                          p: Addr, n: nat, at: nat)
    requires at < |log|
  {
    && |before| <= at && log[..|before|] == before && log[at] == Copy(p + DATA, b + DATA, n)
    && (forall i :: |before| <= i < at ==> Safe(log[i], was))
    && (forall i :: at < i < |log| ==> Safe(log[i], now))
  }

  /** A moved block holds the bytes it held. */
  lemma MovedData(bs: seq<Bytes>, before: seq<Store>, log: seq<Store>, was: map<Addr, nat>, now: map<Addr, nat>,
                  b: Addr, p: Addr, n: nat, k: nat)
    requires Ran(bs, log) && Moves(before, log, was, now, b, p, n) && k < n
    requires b in was && n <= was[b] && p in now && n <= now[p]
    ensures |before| <= |log| && bs[|log|](p + DATA + k) == bs[|before|](b + DATA + k)
  {
    hide Safe, Stored;
    var at :| |before| <= at < |log| && MovesAt(before, log, was, now, b, p, n, at);
    DataKept(bs, log, |before|, at, was, b, k);
    assert Stored(bs[at], log[at], bs[at + 1]);
    CopyStored(bs[at], bs[at + 1], b, p, n, k);
    DataKept(bs, log, at + 1, |log|, now, p, k);
  }

  lemma CopyStored(b: Bytes, b': Bytes, src: Addr, dst: Addr, n: nat, k: nat)
    requires Stored(b, Copy(dst + DATA, src + DATA, n), b') && k < n
    ensures b'(dst + DATA + k) == b(src + DATA + k)
  {
  }

  // ----- what realloc keeps

  function Min(a: nat, b: nat): nat { if a < b then a else b }

  /**
   The stores of a realloc: other blocks keep their data, so does the block itself if there is no room, and otherwise it
   keeps as much as fits into the new size, where it was or where it is now.
   */
  ghost predicate KeepsData(before: seq<Store>, log: seq<Store>, was: map<Addr, nat>, now: map<Addr, nat>, ptr: Addr,
                            p: Addr, size: nat)
  {
    var b := ptr - DATA;
    if ptr == 0 || b !in was then Logged(before, log, was)
    else
      && Logged(before, log, was - {b})
      && (p == 0 && size != 0 ==> Logged(before, log, was))
      && (p == ptr && b in now ==> Logged(before, log, was[b := Min(was[b], now[b])]))
      && (p != 0 && p != ptr ==> p - DATA in now && Moves(before, log, was, now, b, p - DATA, Min(was[b], size)))
  }

  /** Bytes of other blocks do not change, and the first bytes of the block are found at the new address. */
  lemma ReallocKeeps(bs: seq<Bytes>, before: seq<Store>, log: seq<Store>, was: map<Addr, nat>, now: map<Addr, nat>,
                     ptr: Addr, p: Addr, size: nat, q: Addr, k: nat)
    requires Ran(bs, log) && KeepsData(before, log, was, now, ptr, p, size) && ptr != 0 && ptr - DATA in was && q in was
    ensures |before| <= |log|
    ensures q != ptr - DATA && k < was[q] ==> bs[|log|](q + DATA + k) == bs[|before|](q + DATA + k)
    ensures p != 0 && p - DATA in now && now[p - DATA] >= size && k < Min(was[ptr - DATA], size) ==>
              bs[|log|](p + k) == bs[|before|](ptr + k)
  {
    var b := ptr - DATA;
    var i := |before|;
    if q != b && k < was[q] {
      DataKept(bs, log, i, |log|, was - {b}, q, k);
    }
    if p != 0 && p - DATA in now && now[p - DATA] >= size && k < Min(was[b], size) {
      if p == ptr {
        DataKept(bs, log, i, |log|, was[b := Min(was[b], now[b])], b, k);
      } else {
        MovedData(bs, before, log, was, now, b, p - DATA, Min(was[b], size), k);
      }
    }
  }

  /** Safe stores for the old blocks, the copy, and safe stores for the new ones. */
  lemma MoveLogged(before: seq<Store>, log1: seq<Store>, log: seq<Store>, was: map<Addr, nat>, now: map<Addr, nat>,
                   b: Addr, p: Addr, n: nat)
    requires Logged(before, log1, was) && Safe(Copy(p + DATA, b + DATA, n), was)
    requires Logged(log1 + [Copy(p + DATA, b + DATA, n)], log, now) && Less(was - {b}, now)
    ensures Moves(before, log, was, now, b, p, n) && Logged(before, log, was - {b})
  {
    hide Safe;
    var copy := Copy(p + DATA, b + DATA, n);
    var log2, at := log1 + [copy], |log1|;
    assert log[..|log2|] == log2;
    assert log[at] == log2[at] == copy;
    assert log[..|before|] == log2[..|before|] == log1[..|before|];
    forall i | |before| <= i < at ensures Safe(log[i], was) {
      assert log[i] == log2[i] == log1[i];
    }
    assert MovesAt(before, log, was, now, b, p, n, at);
    LoggedMore(log1, [copy], was);
    LoggedTrans(before, log1, log2, was);
    WithoutLess(was, b);
    LoggedLess(before, log2, was - {b}, was);
    LoggedLess(log2, log, was - {b}, now);
    LoggedTrans(before, log2, log, was - {b});
  }

  lemma WithoutLess(was: map<Addr, nat>, b: Addr)
    ensures Less(was - {b}, was)
  {
  }

  // ----- a new pool

  function PoolStores(b: Addr, next: Addr, head: Addr): seq<Store> {
    [Size(b), Size(b), Size(b)] + LinksOf(b) + LinksOf(head) + [Back(next), Size(next), Size(next), Size(next)]
  }

  lemma PoolSafe(m: Mem, dom: set<Addr>, pools: set<Pool>, live: map<Addr, nat>, b: Addr, head: Addr)
    requires Heap(m, dom, pools, NIL) && There(m, dom, live) && b in dom && b in m && m[b].free && b !in live &&
             m[b].size > 0
    requires head != NIL ==> head in dom && head in m && m[head].free && head !in live
    ensures AllSafe(PoolStores(b, NextOf(m, b), head), live)
  {
    hide Heap, Safe, There;
    After(m, dom, pools, NIL, b);
    var n := NextOf(m, b);
    OwnSafe(m, dom, pools, NIL, live, b, Size(b));
    OwnSafe(m, dom, pools, NIL, live, b, Back(n));
    OwnSafe(m, dom, pools, NIL, live, n, Size(n));
    LinksSafe(m, dom, pools, NIL, live, b);
    LinksSafe(m, dom, pools, NIL, live, head);
  }
}
