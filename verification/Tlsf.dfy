/**
 The TLSF allocator: malloc, free and realloc over pools of memory.

 `Good(x, xs)` is the invariant in the middle of an operation: x is the block that may lie beside a free one, xs the
 free blocks that are in no list.  `Valid()` is the invariant between operations, where there are none.
 */
module Tlsf {
  import opened TlsfClass
  import opened TlsfLists
  import opened TlsfHeap
  import opened TlsfLive
  import opened TlsfLost
  import opened TlsfBytes

  function AlignUp(x: nat): (r: nat)
    ensures r % 4 == 0 && x <= r < x + 4
  {
    (x + 3) / 4 * 4
  }

  lemma AlignLeast(x: nat)
    ensures Suits(if AlignUp(x) > MIN_SIZE then AlignUp(x) else MIN_SIZE, x)
    ensures forall q: nat :: Suits(q, x) ==> AlignUp(x) <= q
  {
    forall q: nat | Suits(q, x) ensures AlignUp(x) <= q {
      assert q == 4 * (q / 4);
    }
  }

  function AlignDown(x: nat): (r: nat)
    ensures r % 4 == 0 && r <= x < r + 4
  {
    x - x % 4
  }

  /** A size that a block for the request may have. */
  predicate Suits(q: nat, size: nat) { q % 4 == 0 && size <= q && MIN_SIZE <= q }

  ghost predicate Least(q: nat, size: nat) { Suits(q, size) && forall r: nat :: Suits(r, size) ==> q <= r }

  /** Large enough for the request, and too small to be split. */
  ghost predicate Tight(have: nat, size: nat) {
    (exists q: nat :: Suits(q, size) && q <= have) && forall q: nat :: Suits(q, size) ==> have < q + HEADER
  }

  /** No free block reaches the class boundary from the least size that suits the request on. */
  ghost predicate NoRoom(m: Mem, dom: set<Addr>, size: nat) { exists q: nat :: Least(q, size) && NoFit(m, dom, q) }

  /** The size a request is served with, the least that suits it; 0 if it cannot be. */
  function AdjustRequest(size: nat): (r: nat)
    ensures r == 0 <==> size == 0 || size >= MAX_BLOCK
    ensures r > 0 ==> Least(r, size)
  {
    if 0 < size < MAX_BLOCK then
      AlignLeast(size);
      if AlignUp(size) > MIN_SIZE then AlignUp(size) else MIN_SIZE
    else 0
  }

  /** The sizes and conditions computed with the adjusted request are those of the request. */
  lemma Adjusted(m: Mem, dom: set<Addr>, size: nat, have: nat)
    requires 0 < size < MAX_BLOCK
    ensures NoRoom(m, dom, size) <==> NoFit(m, dom, AdjustRequest(size))
    ensures Tight(have, size) <==> AdjustRequest(size) <= have < AdjustRequest(size) + HEADER
    ensures (forall q: nat :: Suits(q, size) ==> have < q) <==> have < AdjustRequest(size)
  {
    hide NoFit;
    var r := AdjustRequest(size);
    assert Least(r, size) && Suits(r, size);
    if NoRoom(m, dom, size) {
      var q :| Least(q, size) && NoFit(m, dom, q);
      assert q == r;
    }
  }

  /** A request that finds no room leaves no free block as large as five quarters of any size that suits it. */
  lemma NoRoomBound(m: Mem, dom: set<Addr>, size: nat, p: Addr, q: nat)
    requires NoRoom(m, dom, size) && p in dom && p in m && m[p].free && Suits(q, size)
    ensures 4 * m[p].size < 5 * q
  {
    var r: nat :| Least(r, size) && NoFit(m, dom, r);
    NoFitBound(m, dom, r, p);
  }

  /** The block, or it and a free one behind it, is large enough: the request can be met in place. */
  ghost predicate Stays(m: Mem, b: Addr, size: nat) {
    && b in m && NextOf(m, b) in m
    && (|| size >= MAX_BLOCK
        || (exists q: nat :: Suits(q, size) && q <= m[b].size)
        || (&& m[NextOf(m, b)].free
            && exists q: nat :: Suits(q, size) && q <= m[b].size + OVERHEAD + m[NextOf(m, b)].size))
  }

  /** The request is so large that it counts as one for nothing, and the block can be cut down to that. */
  ghost predicate Oversize(was: map<Addr, nat>, ptr: Addr, size: nat) {
    ptr != 0 && ptr - DATA in was && size >= MAX_BLOCK && was[ptr - DATA] >= HEADER
  }

  /** The blocks in use before and after a realloc that returns p. */
  ghost predicate Resized(was: map<Addr, nat>, now: map<Addr, nat>, ptr: Addr, p: Addr, size: nat) {
    var others := if ptr == 0 then was else was - {ptr - DATA};
    if ptr != 0 && size == 0 then p == 0 && now == others
    else if Oversize(was, ptr, size) then p == ptr && now == others
    else if p == 0 || size >= MAX_BLOCK then now == was
    else
      var b := p - DATA;
      && b in now && Tight(now[b], size) && (b == ptr - DATA || b !in was) && now == others[b := now[b]]
  }

  lemma StaysIff(m: Mem, b: Addr, size: nat)
    requires b in m && NextOf(m, b) in m && size > 0
    ensures var n := m[NextOf(m, b)];
            Stays(m, b, size) <==>
            AdjustRequest(size) <= m[b].size || (n.free && AdjustRequest(size) <= m[b].size + n.size + OVERHEAD)
  {
    if size < MAX_BLOCK {
      assert Suits(AdjustRequest(size), size);
    }
  }

  lemma RequestLimit(size: nat)
    requires size <= MAX_REQUEST || size >= MAX_BLOCK
    ensures AdjustRequest(size) <= MAX_REQUEST
  {
    if 0 < size <= MAX_REQUEST {
      assert Suits(MAX_REQUEST, size);
    }
  }

  /** The memory right after the split itself, before its caller sets the new block's flag and back link. */
  function SplitRaw(m: Mem, p: Addr, size: nat, junk: Hdr): Mem
    requires p in m && NextOf(m, p) in m && m[p].size >= size + OVERHEAD
  {
    var n, r := NextOf(m, p), p + OVERHEAD + size;
    m[n := m[n].(prevFree := true, prevPhys := r)]
     [r := junk.(size := m[p].size - size - OVERHEAD, free := true)]
     [p := m[p].(size := size)]
  }

  /** The stores of a split, one after the other. */
  lemma SplitSteps(m: Mem, p: Addr, size: nat, junk: Hdr)
    requires p in m && NextOf(m, p) in m && m[p].size >= size + HEADER
    ensures var n, r := NextOf(m, p), p + OVERHEAD + size;
            var m1 := m[r := junk.(size := m[p].size - (size + OVERHEAD))];
            var m2 := m1[p := m1[p].(size := size)];
            var m3 := m2[n := m2[n].(prevPhys := r)];
            var m4 := m3[n := m3[n].(prevFree := true)];
            n != r && m4[r := m4[r].(free := true)] == SplitRaw(m, p, size, junk)
  {
  }

  /** The memory holds a heap of these pools, for some choice of its blocks. */
  ghost predicate Whole(m: Mem, pools: set<Pool>) { exists dom: set<Addr> :: Heap(m, dom, pools, NIL) }

  class Tlsf {
    const control: Control
    var mem: Mem
    ghost var dom: set<Addr>
    ghost var pools: set<Pool>
    /** The bytes stored so far. */
    ghost var log: seq<Store>

    ghost predicate Good(x: Addr, xs: set<Addr>)
      reads this, control
    {
      control.Valid() && Heap(mem, dom, pools, x) && Listed(mem, dom, control.lists, xs)
    }

    ghost predicate Valid()
      reads this, control
    {
      Good(NIL, {})
    }

    /** The blocks in use, with their sizes. */
    ghost function Used(): map<Addr, nat>
      reads this
    {
      Live(mem, dom)
    }

    constructor ()
      ensures Valid() && Used() == map[] && fresh(control) && pools == {}
    {
      control := new Control();
      mem, dom, pools, log := map[], {}, {}, [];
    }

    // ----- stores; every change of memory is one of these

    /** h is what the header's memory is taken to hold. */
    method SetBack(e: Addr, h: Hdr, p: Addr)
      modifies `mem, `log
      ensures mem == old(mem)[e := h.(prevPhys := p)] && log == old(log) + [Back(e)]
    {
      mem, log := mem[e := h.(prevPhys := p)], log + [Back(e)];
    }

    method SetSize(e: Addr, h: Hdr, size: nat)
      modifies `mem, `log
      ensures mem == old(mem)[e := h.(size := size)] && log == old(log) + [Size(e)]
    {
      mem, log := mem[e := h.(size := size)], log + [Size(e)];
    }

    method SetFree(e: Addr, f: bool)
      requires e in mem
      modifies `mem, `log
      ensures mem == old(mem)[e := old(mem)[e].(free := f)] && log == old(log) + [Size(e)]
    {
      mem, log := mem[e := mem[e].(free := f)], log + [Size(e)];
    }

    method SetPrevFree(e: Addr, f: bool)
      requires e in mem
      modifies `mem, `log
      ensures mem == old(mem)[e := old(mem)[e].(prevFree := f)] && log == old(log) + [Size(e)]
    {
      mem, log := mem[e := mem[e].(prevFree := f)], log + [Size(e)];
    }

    /** The links of two blocks of the heap are about to be written, by a list operation. */
    ghost method LogLinks(p: Addr, q: Addr, x: Addr)
      requires Heap(mem, dom, pools, x)
      requires p != NIL ==> p in dom && p in mem && mem[p].free
      requires q != NIL ==> q in dom && q in mem && mem[q].free
      modifies `log
      ensures Logged(old(log), log, Used())
    {
      hide Heap, Logged, AllSafe;
      LessRefl(Used());
      LiveThere(mem, dom, Used());
      LinksSafe(mem, dom, pools, x, Used(), p);
      LinksSafe(mem, dom, pools, x, Used(), q);
      LoggedMore(log, LinksOf(p), Used());
      LoggedMore(log + LinksOf(p), LinksOf(q), Used());
      LoggedTrans(log, log + LinksOf(p), log + LinksOf(p) + LinksOf(q), Used());
      log := log + LinksOf(p) + LinksOf(q);
    }

    // ----- lists

    method BlockInsert(b: Addr, ghost x: Addr, ghost xs: set<Addr>)
      requires Good(x, xs) && b in dom && b in mem && mem[b].free && b in xs
      modifies control, `log
      ensures Good(x, xs - {b}) && Logged(old(log), log, Used())
    {
      hide Heap, Listed, Loose, Control.Valid, Live, Logged;
      SizeBound(mem, dom, pools, x, b);
      BlockPositive(mem, dom, pools, x, b);
      var fl, sl := MappingInsert(mem[b].size);
      InTable(mem[b].size, Class(fl, sl));
      ListedPush(mem, dom, control.lists, xs, Class(fl, sl), b);
      ListNeighbours(control, mem, dom, xs, Class(fl, sl), b);
      LogLinks(b, control.blocks[Class(fl, sl)], x);
      control.InsertFreeBlock(b, fl, sl);
    }

    method BlockRemove(b: Addr, ghost x: Addr, ghost xs: set<Addr>)
      requires Good(x, xs) && b in dom && b in mem && mem[b].free && b !in xs
      modifies control, `log
      ensures Good(x, xs + {b}) && Logged(old(log), log, Used())
    {
      hide Heap, Listed, Dropped, Control.Valid, Live, Logged;
      SizeBound(mem, dom, pools, x, b);
      var fl, sl := MappingInsert(mem[b].size);
      InTable(mem[b].size, Class(fl, sl));
      ListOf(mem, dom, control.lists, xs, b, Class(fl, sl));
      ghost var lists := control.lists;
      ListNeighbours(control, mem, dom, xs, Class(fl, sl), b);
      LogLinks(control.prv[b], control.nxt[b], x);
      control.RemoveFreeBlock(b, fl, sl);
      ListedDrop(mem, dom, lists, control.lists, xs, Class(fl, sl), b);
    }

    /** Finds and takes out a free block that is large enough. */
    method BlockLocateFree(size: nat) returns (b: Addr)
      requires Valid() && (size == 0 || SMALL <= size <= MAX_REQUEST)
      modifies control, `log
      ensures b == NIL <==> size == 0 || NoFit(mem, dom, size)
      ensures Logged(old(log), log, Used())
      ensures b == NIL ==> Valid()
      ensures b != NIL ==> b in dom && b in mem && mem[b].free && mem[b].size >= size && Good(NIL, {b})
    {
      hide Heap, Listed, Dropped, NoFit, Control.Valid, RoundedUp, Empty, Live, Logged;
      LoggedRefl(log, Used());
      if size == 0 {
        return NIL;
      }
      var fl, sl := MappingSearch(size);
      ghost var c := Class(fl, sl);
      var f, s;
      b, f, s := control.SearchSuitableBlock(fl, sl);
      if b == NIL {
        EmptyNoFit(mem, dom, control.lists, size, c);
      } else {
        FoundFits(mem, dom, control.lists, size, c, Class(f, s), b);
        ghost var lists := control.lists;
        ListNeighbours(control, mem, dom, {}, Class(f, s), b);
        LogLinks(control.prv[b], control.nxt[b], NIL);
        control.RemoveFreeBlock(b, f, s);
        ListedDrop(mem, dom, lists, control.lists, {}, Class(f, s), b);
        assert {} + {b} == {b};
      }
    }

    // ----- blocks

    method BlockMark(b: Addr, f: bool)
      requires b in mem && NextOf(mem, b) in mem
      modifies `mem, `log
      ensures mem == Mark(old(mem), b, f) && log == old(log) + MarkStores(old(NextOf(mem, b)), b, f)
    {
      var n := NextOf(mem, b);
      if f {
        SetBack(n, mem[n], b);
      }
      SetPrevFree(n, f);
      SetFree(b, f);
      assert log == old(log) + MarkStores(n, b, f);
    }

    /** Cuts a block down to a size and returns the rest, whose memory may hold anything. */
    method BlockSplit(b: Addr, size: nat, junk: Hdr) returns (r: Addr)
      requires b in mem && mem[b].size >= size + HEADER && NextOf(mem, b) in mem
      modifies `mem, `log
      ensures r == b + OVERHEAD + size && mem == SplitRaw(old(mem), b, size, junk)
      ensures log == old(log) + SplitStores(old(NextOf(mem, b)), b, r)
    {
      SplitSteps(mem, b, size, junk);
      hide SplitRaw;
      var n := NextOf(mem, b);
      r := b + OVERHEAD + size;
      SetSize(r, junk, mem[b].size - (size + OVERHEAD));
      SetSize(b, mem[b], size);
      SetBack(n, mem[n], r);
      SetPrevFree(n, true);
      SetFree(r, true);
    }

    /** Gives the end of a free block back, if it is large enough to be a block. */
    method BlockTrimFree(b: Addr, size: nat, junk: Hdr)
      requires Good(b, {b}) && b in dom && b in mem && mem[b].free && NextOf(mem, b) in mem && !mem[NextOf(mem, b)].free
      requires mem[b].size >= size >= MIN_SIZE && size % 4 == 0
      modifies this`mem, this`dom, this`log, control
      ensures Good(b, {b}) && b in dom && b in mem && mem[b].free && Used() == old(Used())
      ensures Logged(old(log), log, Used())
      ensures size <= mem[b].size < size + HEADER
    {
      hide Heap, Listed, Loose, Control.Valid, Split, SplitRaw, Live, Agree, Logged, SplitStores, AllSafe, Safe, There;
      ghost var log0, used := log, Used();
      LoggedRefl(log, used);
      if mem[b].size >= HEADER + size {
        ghost var m := mem;
        LessRefl(used);
        LiveBlock(m, dom, b);
        SplitLogged(m, dom, pools, b, used, b, size, log);
        Splits(m, dom, pools, b, b, size, b);
        SplitLive(m, dom, b, size, b);
        SplitFacts(m, b, size, b);
        InMem(m, dom, pools, b);
        var r := BlockSplit(b, size, junk);
        RawFree(m, b, size, junk);
        SetBack(r, mem[r], b);
        SetPrevFree(r, true);
        ListedAgree(m, dom, mem, dom + {r}, control.lists, {b}, {b, r}, {b, r});
        dom := dom + {r};
        ghost var log1 := log;
        assert Used() == used;
        BlockInsert(r, b, {b, r});
        LoggedTrans(log0, log1, log, used);
        assert {b, r} - {r} == {b};
      }
    }

    method BlockPrepareUsed(b: Addr, size: nat, junk: Hdr) returns (ptr: Addr)
      requires b == NIL ==> Valid()
      requires b != NIL ==> Good(NIL, {b}) && b in dom && b in mem && mem[b].free
      requires b != NIL ==> mem[b].size >= size >= MIN_SIZE && size % 4 == 0
      modifies this`mem, this`dom, this`log, control
      ensures Valid() && ptr == (if b == NIL then 0 else b + DATA) && Logged(old(log), log, old(Used()))
      ensures b == NIL ==> mem == old(mem) && dom == old(dom)
      ensures b != NIL ==> b in Used() && size <= Used()[b] < size + HEADER
      ensures b != NIL ==> b !in old(Used()) && Used() == old(Used())[b := Used()[b]]
    {
      hide Heap, Listed, Control.Valid, Mark, Agree, Logged;
      ghost var used := Used();
      LoggedRefl(log, used);
      ptr := 0;
      if b != NIL {
        NextUsed(mem, dom, pools, b);
        WeakenHeap(mem, dom, pools, b);
        BlockTrimFree(b, size, junk);
        ghost var m := mem;
        After(m, dom, pools, b, b);
        Marked(m, dom, pools, b, b, false);
        MarkLive(m, dom, b, false);
        MarkFlags(m, b, false);
        ghost var log1 := log;
        MarkLogged(m, dom, pools, b, used, b, false, log);
        BlockMark(b, false);
        LoggedTrans(old(log), log1, log, used);
        ListedAgree(m, dom, mem, dom, control.lists, {b}, {}, {b});
        ptr := b + DATA;
      }
    }

    /** Allocates a block, if there is a free one in a class that is certain to be large enough. */
    method Malloc(size: nat) returns (ptr: Addr)
      requires Valid() && (size <= MAX_REQUEST || size >= MAX_BLOCK)
      modifies this`mem, this`dom, this`log, control
      ensures Valid() && Logged(old(log), log, old(Used()))
      ensures ptr == 0 <==> size == 0 || size >= MAX_BLOCK || NoRoom(old(mem), old(dom), size)
      ensures ptr == 0 ==> mem == old(mem) && dom == old(dom)
      ensures ptr != 0 ==>
                var b := ptr - DATA;
                && b in Used() && Tight(Used()[b], size)
                && b !in old(Used()) && Used() == old(Used())[b := Used()[b]]
    {
      hide Heap, Listed, Control.Valid, NoFit, Live, Logged, NoRoom;
      RequestLimit(size);
      ghost var m, d := mem, dom;
      var adjust := AdjustRequest(size);
      var b := BlockLocateFree(adjust);
      ghost var log1 := log;
      if b != NIL {
        BlockPositive(mem, dom, pools, NIL, b);
      }
      var junk: Hdr := *;
      ptr := BlockPrepareUsed(b, adjust, junk);
      LoggedTrans(old(log), log1, log, old(Used()));
      if 0 < size < MAX_BLOCK {
        Adjusted(m, d, size, if ptr != 0 then Used()[ptr - DATA] else 0);
      }
    }

    // ----- giving back

    /** Extends a block over the one after it; flags are left as they are. */
    method BlockAbsorb(p: Addr, q: Addr)
      requires p in mem && q in mem && NextOf(mem, p) == q && mem[p].size > 0 && mem[q].size > 0 &&
               NextOf(mem, q) in mem
      modifies `mem, `log
      ensures mem == AbsorbRaw(old(mem), p, q) && log == old(log) + AbsorbStores(old(NextOf(mem, q)), p)
    {
      SetSize(p, mem[p], mem[p].size + (mem[q].size + OVERHEAD));
      var n := NextOf(mem, p);
      SetBack(n, mem[n], p);
    }

    method BlockMergePrev(b: Addr) returns (r: Addr)
      requires Good(b, {b}) && b in dom && b in mem && mem[b].free && mem[b].size > 0
      modifies this`mem, this`dom, this`log, control
      ensures Good(r, {r}) && r in dom && r in mem && mem[r].free && mem[r].size > 0 && !mem[r].prevFree
      ensures Used() == old(Used()) && Logged(old(log), log, Used())
    {
      hide Heap, Listed, Control.Valid, Absorb, AbsorbRaw, Agree, Live, Logged;
      ghost var used := Used();
      LoggedRefl(log, used);
      r := b;
      if mem[b].prevFree {
        var p := mem[b].prevPhys;
        ghost var m := mem;
        Previous(m, dom, pools, b, b);
        PrevSettled(m, dom, pools, b);
        After(m, dom, pools, b, b);
        BlockRemove(p, b, {b});
        Absorbs(m, dom, pools, b, p, b);
        AbsorbLive(m, dom, p, b);
        AbsorbFlags(m, p, b);
        InMem(m, dom, pools, b);
        ghost var log1 := log;
        AbsorbLogged(m, dom, pools, b, used, p, b, log);
        BlockAbsorb(p, b);
        LoggedTrans(old(log), log1, log, used);
        ListedAgree(m, dom, mem, dom - {b}, control.lists, {b} + {p}, {p}, {p});
        dom := dom - {b};
        r := p;
      }
    }

    method BlockMergeNext(b: Addr)
      requires Good(b, {b}) && b in dom && b in mem && mem[b].free && mem[b].size > 0
      modifies this`mem, this`dom, this`log, control
      ensures Good(b, {b}) && b in dom && b in mem && mem[b].free && mem[b].size > 0 &&
              mem[b].prevFree == old(mem[b].prevFree)
      ensures NextOf(mem, b) in mem && !mem[NextOf(mem, b)].free && Used() == old(Used())
      ensures Logged(old(log), log, Used())
      ensures forall e :: e in old(mem) && e < b ==> e in mem && mem[e] == old(mem[e])
    {
      hide Heap, Listed, Control.Valid, Absorb, AbsorbRaw, Agree, Live, Logged;
      ghost var used := Used();
      LoggedRefl(log, used);
      After(mem, dom, pools, b, b);
      var q := NextOf(mem, b);
      if mem[q].free {
        ghost var m := mem;
        NextSettled(m, dom, pools, b);
        BlockRemove(q, b, {b});
        After(m, dom, pools, b, q);
        Absorbs(m, dom, pools, b, b, q);
        AbsorbLive(m, dom, b, q);
        AbsorbFlags(m, b, q);
        AbsorbAbove(m, b, q);
        InMem(m, dom, pools, b);
        ghost var log1 := log;
        AbsorbLogged(m, dom, pools, b, used, b, q, log);
        BlockAbsorb(b, q);
        LoggedTrans(old(log), log1, log, used);
        ListedAgree(m, dom, mem, dom - {q}, control.lists, {b} + {q}, {b}, {b});
        dom := dom - {q};
      }
    }

    /** Frees a block and merges it with free neighbours. */
    method Free(ptr: Addr)
      requires Valid() && (ptr != 0 ==> ptr - DATA in Used())
      modifies this`mem, this`dom, this`log, control
      ensures Valid() && Used() == (if ptr == 0 then old(Used()) else old(Used()) - {ptr - DATA})
      ensures Logged(old(log), log, Used())
    {
      hide Heap, Listed, Control.Valid, Mark, Agree, Logged;
      LoggedRefl(log, Used());
      if ptr != 0 {
        var b := ptr - DATA;
        ghost var m, used := mem, Used() - {b};
        After(m, dom, pools, NIL, b);
        Marked(m, dom, pools, NIL, b, true);
        MarkLive(m, dom, b, true);
        MarkFlags(m, b, true);
        InMem(m, dom, pools, NIL);
        MarkLogged(m, dom, pools, NIL, used, b, true, log);
        BlockMark(b, true);
        ghost var log1 := log;
        ListedAgree(m, dom, mem, dom, control.lists, {}, {b}, {b});
        MarkSize(m, b, true);
        assert Used() == used;
        b := BlockMergePrev(b);
        ghost var log2 := log;
        BlockMergeNext(b);
        ghost var log3 := log;
        BlockInsert(b, b, {b});
        LoggedTrans(old(log), log1, log2, used);
        LoggedTrans(old(log), log2, log3, used);
        LoggedTrans(old(log), log3, log, used);
        Settled(mem, dom, pools, b);
        assert {b} - {b} == {};
      }
    }

    /**
     Gives the end of a used block back, if it is large enough to be a block.  Cut down to nothing, the block ends its
     pool.
     */
    method BlockTrimUsed(b: Addr, size: nat, junk: Hdr)
      requires Valid() && b in Used()
      requires size == 0 || (MIN_SIZE <= size && size % 4 == 0)
      modifies this`mem, this`dom, this`pools, this`log, control
      ensures Valid()
      ensures var had := old(Used()[b]);
              if size == 0 && had >= HEADER
              then Used() == old(Used()) - {b} && !Whole(mem, old(pools))
              else Used() == old(Used())[b := if had >= HEADER + size then size else had] && pools == old(pools)
      ensures Logged(old(log), log, Used())
    {
      hide Heap, Listed, Control.Valid, Split, SplitRaw, Agree, Parted, Whole, Logged, SplitStores;
      LoggedRefl(log, Used());
      if mem[b].size >= HEADER + size {
        ghost var used := if size == 0 then Used() - {b} else Used()[b := size];
        SplitLogged(mem, dom, pools, NIL, used, b, size, log);
        ghost var m, d, s := mem, dom, pools;
        After(m, dom, pools, NIL, b);
        ghost var cut := TrimSplits(m, dom, pools, b, size, junk.prevPhys);
        var r := BlockSplit(b, size, junk);
        RawUsed(m, b, size, junk);
        SetPrevFree(r, false);
        ghost var log1 := log;
        ListedAgree(m, dom, mem, dom + {r}, control.lists, {}, {r}, {b, r});
        dom, pools := dom + {r}, if size == 0 then Parted(pools, cut, b) else pools;
        assert Used() == used;
        BlockMergeNext(r);
        ghost var log2 := log;
        BlockInsert(r, r, {r});
        LoggedTrans(old(log), log1, log2, used);
        LoggedTrans(old(log), log2, log, used);
        Settled(mem, dom, pools, r);
        assert {r} - {r} == {};
        if size == 0 {
          NotWhole(m, d, s, mem, cut, b);
        }
      }
    }

    /** Extends a used block over the free block after it: a merge, then marking as used. */
    method BlockExtend(b: Addr)
      requires Valid() && b in Used() && NextOf(mem, b) in mem && mem[NextOf(mem, b)].free
      modifies this`mem, this`dom, this`log, control
      ensures Valid() && b in Used() && Used() == old(Used())[b := Used()[b]]
      ensures Used()[b] == old(Used()[b]) + old(mem[NextOf(mem, b)].size) + OVERHEAD
      ensures Logged(old(log), log, old(Used()))
    {
      hide Heap, Listed, Control.Valid, Absorb, AbsorbRaw, Agree, Mark, Logged;
      ghost var m, used := mem, Used();
      var q := NextOf(mem, b);
      After(m, dom, pools, NIL, b);
      BlockRemove(q, NIL, {});
      After(m, dom, pools, NIL, q);
      Absorbs(m, dom, pools, NIL, b, q);
      AbsorbLive(m, dom, b, q);
      AbsorbUsed(m, b, q);
      InMem(m, dom, pools, NIL);
      ghost var log1 := log;
      AbsorbLogged(m, dom, pools, NIL, used, b, q, log);
      BlockAbsorb(b, q);
      ghost var log2 := log;
      ExtendLogged(m, dom, pools, used, b, q, log);
      BlockMark(b, false);
      LoggedTrans(old(log), log1, log2, used);
      LoggedTrans(old(log), log2, log, used);
      ListedAgree(m, dom, mem, dom - {q}, control.lists, {} + {q}, {}, {b});
      dom := dom - {q};
    }

    /** Resizes a block, in place if that can be done. */
    method Realloc(ptr: Addr, size: nat) returns (p: Addr)
      requires Valid() && (ptr != 0 ==> ptr - DATA in Used()) && (size <= MAX_REQUEST || size >= MAX_BLOCK)
      modifies this`mem, this`dom, this`pools, this`log, control
      ensures Valid()
      ensures var oversize := Oversize(old(Used()), ptr, size);
              (Whole(mem, old(pools)) <==> !oversize) && (!oversize ==> pools == old(pools))
      ensures Resized(old(Used()), Used(), ptr, p, size)
      ensures ptr == 0 ==> (p == 0 <==> size == 0 || size >= MAX_BLOCK || NoRoom(old(mem), old(dom), size))
      ensures ptr != 0 && size != 0 ==> (p == ptr <==> Stays(old(mem), ptr - DATA, size))
      ensures ptr != 0 && size != 0 && p != ptr ==> (p == 0 <==> NoRoom(old(mem), old(dom), size))
      ensures KeepsData(old(log), log, old(Used()), Used(), ptr, p, size)
    {
      hide Heap, Listed, Control.Valid, NoFit, Whole, Logged, Moves, Live, Less, NoRoom, Stays;
      RequestLimit(size);
      ghost var was := Used();
      p := 0;
      if ptr != 0 && size == 0 {
        Free(ptr);
      } else if ptr == 0 {
        p := Malloc(size);
      } else {
        var b := ptr - DATA;
        LiveBlock(mem, dom, b);
        After(mem, dom, pools, NIL, b);
        var n := NextOf(mem, b);
        var cursize := mem[b].size;
        var combined := cursize + mem[n].size + OVERHEAD;
        var adjust := AdjustRequest(size);
        StaysIff(mem, b, size);
        if adjust > cursize && (!mem[n].free || adjust > combined) {
          p := Malloc(size);
          WithoutLess(was, b);
          LoggedLess(old(log), log, was - {b}, was);
          if p != 0 {
            ghost var log1 := log;
            CopySafe(mem, dom, pools, was, b, p - DATA, Min(cursize, size));
            Memcpy(p, ptr, Min(cursize, size));
            Free(ptr);
            MovedLess(was, Used(), b, p - DATA);
            MoveLogged(old(log), log1, log, was, Used(), b, p - DATA, Min(cursize, size));
          }
        } else {
          LoggedRefl(log, was);
          if adjust > cursize {
            BlockExtend(b);
          }
          ghost var log1 := log;
          var junk: Hdr := *;
          BlockTrimUsed(b, adjust, junk);
          p := ptr;
          InPlace(old(log), log1, log, was, Used(), b);
          if size < MAX_BLOCK {
            Adjusted(mem, dom, size, Used()[b]);
          }
        }
      }
      HeapWhole(mem, dom, pools);
    }

    /** The bytes themselves are not part of `mem`. */
    method Memcpy(dst: Addr, src: Addr, n: nat)
      modifies `log
      ensures log == old(log) + [Copy(dst, src, n)]
    {
      log := log + [Copy(dst, src, n)];
    }

    method FirstHeader(b: Addr, size: nat, junk: Hdr)
      modifies `mem, `log
      ensures mem == old(mem)[b := Hdr(junk.prevPhys, size, true, false)]
      ensures log == old(log) + [Size(b), Size(b), Size(b)]
    {
      SetSize(b, junk, size);
      SetFree(b, true);
      SetPrevFree(b, false);
    }

    method LastHeader(b: Addr, next: Addr, junk: Hdr)
      modifies `mem, `log
      ensures mem == old(mem)[next := Hdr(b, 0, false, true)]
      ensures log == old(log) + [Back(next), Size(next), Size(next), Size(next)]
    {
      SetBack(next, junk, b);
      SetSize(next, mem[next], 0);
      SetFree(next, false);
      SetPrevFree(next, true);
    }

    /** Hands a stretch of memory to the allocator. */
    method AddPool(start: Addr, bytes: nat) returns (ok: bool)
      requires Valid() && start > OVERHEAD && bytes < 0x1_0000_0000_0000_0000
      requires bytes >= 2 * OVERHEAD ==> PoolRoom(mem, dom, start, AlignDown(bytes - 2 * OVERHEAD))
      modifies this, control
      ensures Valid() && Used() == old(Used()) && Logged(old(log), log, Used())
      ensures ok <==> start % 4 == 0 && bytes >= 2 * OVERHEAD && MIN_SIZE <= AlignDown(bytes - 2 * OVERHEAD) < MAX_BLOCK
      ensures ok ==> pools == old(pools) + {Pool(start - OVERHEAD, start + AlignDown(bytes - 2 * OVERHEAD))}
      ensures !ok ==> pools == old(pools)
    {
      hide Heap, Listed, Control.Valid, Live, Loose, Agree, Fits, AlignDown, Logged, PoolStores, NewPool;
      LoggedRefl(log, Used());
      // the subtraction wraps around for fewer than 16 bytes
      var room := if bytes >= 2 * OVERHEAD then bytes - 2 * OVERHEAD
        else 0x1_0000_0000_0000_0000 + bytes - 2 * OVERHEAD;
      var size := AlignDown(room);
      if start % 4 != 0 {
        return false;
      }
      if size < MIN_SIZE || size > MAX_BLOCK {
        return false;
      }
      var junk: Hdr := *;
      var junk': Hdr := *;
      ghost var m := mem;
      var b := start - OVERHEAD;
      PoolAdded(m, dom, pools, b, size, junk.prevPhys);
      var fl, sl := MappingInsert(size);
      InTable(size, Class(fl, sl));
      PoolListed(m, dom, pools, b, size, junk.prevPhys, control.lists, Class(fl, sl));
      ListNeighbours(control, m, dom, {}, Class(fl, sl), b);
      ghost var head := control.blocks[Class(fl, sl)];
      PoolLogged(m, dom, pools, b, size, junk.prevPhys, head, log);
      NewPoolIs(m, b, size, junk.prevPhys);
      FirstHeader(b, size, junk);
      log := log + LinksOf(b) + LinksOf(head);
      control.InsertFreeBlock(b, fl, sl);
      var next := NextOf(mem, b);
      LastHeader(b, next, junk');
      dom, pools := dom + {b, next}, pools + {Pool(b, next)};
      PoolStoresAre(old(log), b, next, head);
      ok := true;
    }

    /** Clients write what they like, except over the headers in use. */
    method ClientWrites(mem': Mem, nxt: map<Addr, Addr>, prv: map<Addr, Addr>)
      requires Valid() && Untouched(mem, mem', dom)
      requires forall p :: p in dom && p in mem && mem[p].free ==> p in nxt && p in prv
      requires forall p :: p in dom && p in mem && mem[p].free && p in control.nxt ==> nxt[p] == control.nxt[p]
      requires forall p :: p in dom && p in mem && mem[p].free && p in control.prv ==> prv[p] == control.prv[p]
      modifies this`mem, control`nxt, control`prv
      ensures Valid() && Used() == old(Used()) && mem == mem'
    {
      hide Heap, Linked, Mapped, Apart, Live;
      ClientHeap(mem, mem', dom, pools);
      InMem(mem, dom, pools, NIL);
      ListedAgree(mem, dom, mem', dom, control.lists, {}, {}, {});
      forall c | 0 <= c < |control.lists| ensures Linked(nxt, prv, control.blocks[c], control.lists[c]) {
        assert forall p :: p in control.lists[c] ==> Entry(mem, dom, c, p);
        LinkedSame(control.nxt, control.prv, nxt, prv, control.blocks[c], control.lists[c]);
      }
      mem := mem';
      control.nxt := nxt;
      control.prv := prv;
    }
  }

  /** The memory right after an absorb: the size and the back link. */
  function AbsorbRaw(m: Mem, p: Addr, q: Addr): Mem
    requires p in m && q in m && NextOf(m, q) in m
  {
    var n := NextOf(m, q);
    m[n := m[n].(prevPhys := p)][p := m[p].(size := m[p].size + OVERHEAD + m[q].size)]
  }

  lemma AbsorbFlags(m: Mem, p: Addr, q: Addr)
    requires p in m && q in m && NextOf(m, q) in m && m[p].free && m[NextOf(m, q)].prevFree && p < q
    ensures AbsorbRaw(m, p, q) == Absorb(m, p, q)
    ensures var m' := Absorb(m, p, q);
            && p in m' && m'[p] == m[p].(size := m[p].size + OVERHEAD + m[q].size)
            && (forall e :: e in m <==> e in m') && (forall e :: e in m ==> m'[e].free == m[e].free)
  {
    assert m[NextOf(m, q)].(prevPhys := p, prevFree := m[p].free) == m[NextOf(m, q)].(prevPhys := p);
  }

  lemma AbsorbAbove(m: Mem, p: Addr, q: Addr)
    requires p in m && q in m && NextOf(m, q) in m && p < q
    ensures forall e :: e in m && e < p ==> e in Absorb(m, p, q) && Absorb(m, p, q)[e] == m[e]
  {
  }

  lemma AbsorbUsed(m: Mem, p: Addr, q: Addr)
    requires p in m && q in m && NextOf(m, p) == q && NextOf(m, q) in m && !m[p].free && m[p].size > 0 && m[q].size > 0
    ensures var m' := AbsorbRaw(m, p, q); p in m' && NextOf(m', p) in m' && Mark(m', p, false) == Absorb(m, p, q)
    ensures var m' := Absorb(m, p, q);
            && p in m' && m'[p] == m[p].(size := m[p].size + OVERHEAD + m[q].size)
            && (forall e :: e in m <==> e in m') && (forall e :: e in m ==> m'[e].free == m[e].free)
  {
  }

  /** Before a free block that is not being worked on there is no free block but x. */
  lemma PrevSettled(m: Mem, dom: set<Addr>, pools: set<Pool>, b: Addr)
    requires Heap(m, dom, pools, b) && b in dom && b in m && m[b].prevFree
    ensures var p := m[b].prevPhys; p in m && !m[p].prevFree
  {
    hide Separate, PoolOk, Sound;
    Previous(m, dom, pools, b, b);
    var p := m[b].prevPhys;
    if m[p].prevFree {
      Previous(m, dom, pools, b, p);
    }
  }

  lemma NextSettled(m: Mem, dom: set<Addr>, pools: set<Pool>, b: Addr)
    requires Heap(m, dom, pools, b) && b in dom && b in m && m[b].size > 0 && NextOf(m, b) in m && m[NextOf(m, b)].free
    ensures var q := NextOf(m, b); m[q].size > 0 && NextOf(m, q) in m && !m[NextOf(m, q)].free
  {
    hide Separate, PoolOk, Sound;
    After(m, dom, pools, b, b);
    var q := NextOf(m, b);
    After(m, dom, pools, b, q);
  }

  lemma MarkSize(m: Mem, b: Addr, f: bool)
    requires b in m && NextOf(m, b) in m && m[b].size > 0
    ensures b in Mark(m, b, f) && Mark(m, b, f)[b] == m[b].(free := f)
  {
  }

  lemma MarkFlags(m: Mem, b: Addr, f: bool)
    requires b in m && NextOf(m, b) in m && m[b].size > 0
    ensures forall p :: p in m ==> p in Mark(m, b, f) && Mark(m, b, f)[p].free == if p == b then f else m[p].free
    ensures forall p :: p in Mark(m, b, f) ==> p in m
  {
  }

  lemma RawFree(m: Mem, b: Addr, size: nat, junk: Hdr)
    requires CanSplit(m, b, size) && NextOf(m, b) in m && m[b].free
    ensures var r, s := b + OVERHEAD + size, SplitRaw(m, b, size, junk);
            r in s && s[r := s[r].(prevPhys := b)][r := s[r].(prevPhys := b).(prevFree := true)] == Split(m, b, size, b)
  {
  }

  lemma RawUsed(m: Mem, b: Addr, size: nat, junk: Hdr)
    requires b in m && m[b].size >= size + HEADER && NextOf(m, b) in m && !m[b].free
    ensures var r, s := b + OVERHEAD + size, SplitRaw(m, b, size, junk);
            r in s && s[r := s[r].(prevFree := false)] == Split(m, b, size, junk.prevPhys)
  {
  }

  /** The memory after a split of a used block, down to a smaller block or to nothing. */
  ghost predicate IsTrimmed(m: Mem, m': Mem, b: Addr, r: Addr, size: nat) {
    && r in m' && m'[r].free && !m'[r].prevFree && m'[r].size > 0 && b in m' && m'[b].size == size
    && (forall e :: e in m && e < b ==> e in m' && m'[e] == m[e])
    && (forall e :: e in m' && e != r ==> e in m && m'[e].free == m[e].free)
  }

  lemma TrimSplits(m: Mem, dom: set<Addr>, pools: set<Pool>, b: Addr, size: nat, back: Addr) returns (s: Pool)
    requires Heap(m, dom, pools, NIL) && b in Live(m, dom) && m[b].size >= HEADER + size && NextOf(m, b) in m
    requires size == 0 || (MIN_SIZE <= size && size % 4 == 0)
    ensures b + OVERHEAD + size !in dom && forall e :: e in dom ==> e in m
    ensures IsTrimmed(m, Split(m, b, size, back), b, b + OVERHEAD + size, size)
    ensures var pools' := if size == 0 then Parted(pools, s, b) else pools;
            Heap(Split(m, b, size, back), dom + {b + OVERHEAD + size}, pools', b + OVERHEAD + size)
    ensures Live(Split(m, b, size, back), dom + {b + OVERHEAD + size}) ==
            if size == 0 then Live(m, dom) - {b} else Live(m, dom)[b := size]
    ensures Agree(m, Split(m, b, size, back), dom, {b, b + OVERHEAD + size})
    ensures size == 0 ==> s in pools && s.start <= b < s.end
  {
    hide Heap, Agree, Parted, Split, Live, IsCut, IsSplit, IsTrimmed;
    LiveBlock(m, dom, b);
    After(m, dom, pools, NIL, b);
    InMem(m, dom, pools, NIL);
    if size == 0 {
      s := Cuts(m, dom, pools, b, back);
      CutFacts(m, b, back);
      CutLive(m, dom, Split(m, b, 0, back), b, NextOf(m, b), b + OVERHEAD);
      CutTrims(m, Split(m, b, 0, back), b, NextOf(m, b), b + OVERHEAD);
    } else {
      s := Pool(0, 0);
      Splits(m, dom, pools, NIL, b, size, back);
      SplitLive(m, dom, b, size, back);
      SplitFacts(m, b, size, back);
      SplitTrims(m, Split(m, b, size, back), b, NextOf(m, b), b + OVERHEAD + size, size, back);
    }
  }

  lemma CutTrims(m: Mem, m': Mem, b: Addr, n: Addr, r: Addr)
    requires IsCut(m, m', b, n, r)
    ensures IsTrimmed(m, m', b, r, 0)
  {
  }

  lemma SplitTrims(m: Mem, m': Mem, b: Addr, n: Addr, r: Addr, size: nat, back: Addr)
    requires IsSplit(m, m', b, n, r, size, back) && !m[b].free
    ensures IsTrimmed(m, m', b, r, size)
  {
  }

  lemma NotWhole(m: Mem, dom: set<Addr>, pools: set<Pool>, m': Mem, s: Pool, p: Addr)
    requires Heap(m, dom, pools, NIL) && s in pools && p in dom && s.start <= p < s.end
    requires p in m' && m'[p].size == 0 &&
             forall e :: e in dom && e in m && e < p ==> e in m' && m'[e].size == m[e].size
    ensures !Whole(m', pools)
  {
    hide Heap;
    forall dom': set<Addr> ensures !Heap(m', dom', pools, NIL) {
      NoHeap(m, dom, pools, m', s, p, dom', NIL);
    }
  }

  lemma HeapWhole(m: Mem, dom: set<Addr>, pools: set<Pool>)
    requires Heap(m, dom, pools, NIL)
    ensures Whole(m, pools)
  {
  }

  // ----- the log

  /** The neighbours in a list are free blocks. */
  lemma ListNeighbours(control: Control, m: Mem, dom: set<Addr>, xs: set<Addr>, c: nat, b: Addr)
    requires control.Valid() && Listed(m, dom, control.lists, xs) && c < CLASSES
    ensures |control.blocks| == CLASSES == |control.lists|
    ensures var h := control.blocks[c]; h != NIL ==> h in dom && h in m && m[h].free
    ensures b in control.lists[c] ==>
              && b in control.nxt && b in control.prv
              && (control.nxt[b] != NIL ==> control.nxt[b] in dom && control.nxt[b] in m && m[control.nxt[b]].free)
              && (control.prv[b] != NIL ==> control.prv[b] in dom && control.prv[b] in m && m[control.prv[b]].free)
  {
    Neighbours(control.nxt, control.prv, control.blocks, control.lists, c, b);
    hide Mapped, Chained, Apart;
    assert forall p :: p in control.lists[c] ==> Entry(m, dom, c, p);
  }

  lemma LiveBlock(m: Mem, dom: set<Addr>, b: Addr)
    ensures b in Live(m, dom) ==> b in dom && b in m && !m[b].free && Live(m, dom)[b] == m[b].size > 0
  {
  }

  lemma MarkLogged(m: Mem, dom: set<Addr>, pools: set<Pool>, x: Addr, live: map<Addr, nat>, b: Addr, f: bool,
                   log: seq<Store>)
    requires Heap(m, dom, pools, x) && Less(live, Live(m, dom)) && b in dom && b in m && m[b].size > 0 &&
             (f ==> b !in live)
    ensures Logged(log, log + MarkStores(NextOf(m, b), b, f), live)
  {
    hide Heap, Logged, AllSafe, Less, Live, There, MarkStores;
    LiveThere(m, dom, live);
    MarkSafe(m, dom, pools, x, live, b, f);
    LoggedMore(log, MarkStores(NextOf(m, b), b, f), live);
  }

  /** A split, and the stores that follow it in the new block's header. */
  lemma SplitLogged(m: Mem, dom: set<Addr>, pools: set<Pool>, x: Addr, live: map<Addr, nat>, b: Addr, size: nat,
                    log: seq<Store>)
    requires Heap(m, dom, pools, x) && Less(live, Live(m, dom)) && b in dom && b in m && m[b].size >= size + HEADER
    requires b in live ==> live[b] <= size
    ensures var r := b + OVERHEAD + size;
            var ss := SplitStores(NextOf(m, b), b, r);
            && Logged(log, log + ss + [Size(r)], live)
            && (b !in live ==> Logged(log, log + ss + [Back(r)] + [Size(r)], live))
  {
    hide Heap, Less, Live, There, Safe;
    LiveThere(m, dom, live);
    SplitSafe(m, dom, pools, x, live, b, size);
    var r := b + OVERHEAD + size;
    var ss := SplitStores(NextOf(m, b), b, r);
    assert Safe(ss[0], live);
    hide Logged, SplitStores;
    LoggedMore(log, ss + [Size(r)], live);
    assert log + ss + [Size(r)] == log + (ss + [Size(r)]);
    if b !in live {
      LoggedMore(log, ss + [Back(r)] + [Size(r)], live);
      assert log + ss + [Back(r)] + [Size(r)] == log + (ss + [Back(r)] + [Size(r)]);
    }
  }

  lemma AbsorbLogged(m: Mem, dom: set<Addr>, pools: set<Pool>, x: Addr, live: map<Addr, nat>, p: Addr, q: Addr,
                     log: seq<Store>)
    requires Heap(m, dom, pools, x) && Less(live, Live(m, dom)) && p in dom && p in m && q in dom && q in m && m[q].free
    ensures Logged(log, log + AbsorbStores(NextOf(m, q), p), live)
  {
    hide Heap, Logged, AllSafe, There, AbsorbStores;
    LiveThere(m, dom, live);
    AbsorbSafe(m, dom, pools, x, live, p, q);
    LoggedMore(log, AbsorbStores(NextOf(m, q), p), live);
  }

  /** Marking a block used after it has absorbed the next one. */
  lemma ExtendLogged(m: Mem, dom: set<Addr>, pools: set<Pool>, live: map<Addr, nat>, p: Addr, q: Addr, log: seq<Store>)
    requires Heap(m, dom, pools, NIL) && Less(live, Live(m, dom)) && p in dom && p in m && q in dom && q in m &&
             m[q].size > 0
    requires NextOf(m, p) == q && NextOf(m, q) in m
    ensures var m' := AbsorbRaw(m, p, q);
            p in m' && Logged(log, log + MarkStores(NextOf(m', p), p, false), live)
  {
    hide Heap, Logged, There, Safe, Less, Live;
    LiveThere(m, dom, live);
    After(m, dom, pools, NIL, q);
    var n := NextOf(m, q);
    OwnSafe(m, dom, pools, NIL, live, p, Size(p));
    OwnSafe(m, dom, pools, NIL, live, n, Size(n));
    LoggedMore(log, MarkStores(n, p, false), live);
  }

  lemma CopySafe(m: Mem, dom: set<Addr>, pools: set<Pool>, was: map<Addr, nat>, b: Addr, p: Addr, n: nat)
    requires Heap(m, dom, pools, NIL) && p in Live(m, dom) && n <= Live(m, dom)[p] && p !in was
    requires Live(m, dom) == was[p := Live(m, dom)[p]]
    ensures Safe(Copy(p + DATA, b + DATA, n), was)
  {
    hide Heap, There, Safe, Live;
    LiveBlock(m, dom, p);
    assert Less(was, Live(m, dom));
    LiveThere(m, dom, was);
    OwnSafe(m, dom, pools, NIL, was, p, Copy(p + DATA, b + DATA, n));
  }

  lemma MovedLess(was: map<Addr, nat>, now: map<Addr, nat>, b: Addr, p: Addr)
    requires p !in was && p in now && now == was[p := now[p]] - {b}
    ensures Less(was - {b}, now)
  {
  }

  /** A block extended and then trimmed keeps what it had, up to its new size. */
  lemma InPlace(before: seq<Store>, log1: seq<Store>, log: seq<Store>, was: map<Addr, nat>, now: map<Addr, nat>,
                b: Addr)
    requires Logged(before, log1, was) && Logged(log1, log, now) && b in was
    requires if b in now then now == was[b := now[b]] else now == was - {b}
    ensures Logged(before, log, was - {b}) && (b in now ==> Logged(before, log, was[b := Min(was[b], now[b])]))
  {
    hide Logged;
    assert Less(was - {b}, was) && Less(was - {b}, now);
    LoggedLess(before, log1, was - {b}, was);
    LoggedLess(log1, log, was - {b}, now);
    LoggedTrans(before, log1, log, was - {b});
    if b in now {
      var some := was[b := Min(was[b], now[b])];
      assert Less(some, was) && Less(some, now);
      LoggedLess(before, log1, some, was);
      LoggedLess(log1, log, some, now);
      LoggedTrans(before, log1, log, some);
    }
  }

  lemma NewPoolIs(m: Mem, b: Addr, size: nat, back: Addr)
    ensures NewPool(m, b, size, back) ==
            m[b := Hdr(back, size, true, false)][b + OVERHEAD + size := Hdr(b, 0, false, true)]
  {
  }

  lemma PoolStoresAre(log: seq<Store>, b: Addr, next: Addr, head: Addr)
    ensures log + [Size(b), Size(b), Size(b)] + LinksOf(b) + LinksOf(head) +
            [Back(next), Size(next), Size(next), Size(next)] ==
            log + PoolStores(b, next, head)
    ensures log + [Size(b), Size(b), Size(b)] + LinksOf(b) + LinksOf(head) ==
            log + [Size(b), Size(b), Size(b)] + (LinksOf(b) + LinksOf(head))
  {
  }

  lemma PoolLogged(m: Mem, dom: set<Addr>, pools: set<Pool>, b: Addr, size: nat, back: Addr, head: Addr,
                   log: seq<Store>)
    requires Heap(m, dom, pools, NIL) && b > 0 && b % 4 == 0 && size % 4 == 0 && MIN_SIZE <= size < MAX_BLOCK
    requires PoolRoom(m, dom, b + OVERHEAD, size) && (head != NIL ==> head in dom && head in m && m[head].free)
    ensures Logged(log, log + PoolStores(b, b + OVERHEAD + size, head), Live(m, dom))
  {
    hide Heap, There, Logged, AllSafe, PoolStores, NewPool, Live, Less, PoolRoom;
    var e, m' := b + OVERHEAD + size, NewPool(m, b, size, back);
    PoolAdded(m, dom, pools, b, size, back);
    LessRefl(Live(m, dom));
    LiveThere(m', dom + {b, e}, Live(m, dom));
    PoolHead(m, dom, b, size, back, head);
    PoolSafe(m', dom + {b, e}, pools + {Pool(b, e)}, Live(m, dom), b, head);
    LoggedMore(log, PoolStores(b, e, head), Live(m, dom));
  }

  lemma PoolHead(m: Mem, dom: set<Addr>, b: Addr, size: nat, back: Addr, head: Addr)
    requires b !in dom && b + OVERHEAD + size !in dom && size > 0
    requires head != NIL ==> head in dom && head in m && m[head].free
    ensures var m' := NewPool(m, b, size, back);
            && b in m' && m'[b].free && m'[b].size == size && NextOf(m', b) == b + OVERHEAD + size && b !in Live(m, dom)
            && (head != NIL ==> head in m' && m'[head].free && head !in Live(m, dom))
  {
  }
}
