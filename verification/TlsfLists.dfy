/**
 The segregated free lists of the TLSF allocator: one doubly linked list per size class, with a two-level bitmap of
 the classes that are not empty.

 The links of a block are modelled as two maps from addresses, `nxt` and `prv`.  Address 0 stands for the null block
 every list ends in; its own links are written by the list operations and never read.
 */
module TlsfLists {
  import opened TlsfBits
  import opened TlsfClass

  type Addr = int
  const NIL: Addr := 0

  // ----- one list

  function At(l: seq<Addr>, i: int): Addr { if 0 <= i < |l| then l[i] else NIL }

  ghost predicate Unique(l: seq<Addr>) { forall i, j :: 0 <= i < j < |l| ==> l[i] != l[j] }

  /** The block at place i is linked to its neighbours in the list. */
  ghost predicate Link(nxt: map<Addr, Addr>, prv: map<Addr, Addr>, l: seq<Addr>, i: nat) {
    && i < |l| && l[i] in nxt && nxt[l[i]] == At(l, i + 1)
    && l[i] in prv && prv[l[i]] == At(l, i - 1)
  }

  ghost predicate Linked(nxt: map<Addr, Addr>, prv: map<Addr, Addr>, head: Addr, l: seq<Addr>) {
    && head == At(l, 0) && NIL !in l && Unique(l)
    && (forall i: nat :: i < |l| ==> Link(nxt, prv, l, i))
  }

  function Without(l: seq<Addr>, i: nat): seq<Addr>
    requires i < |l|
  {
    l[..i] + l[i + 1..]
  }

  lemma WithoutAt(l: seq<Addr>, i: nat, k: int)
    requires i < |l|
    ensures At(Without(l, i), k) == if k < i then At(l, k) else At(l, k + 1)
  {
  }

  lemma WithoutSame(l: seq<Addr>, i: nat, p: Addr)
    requires i < |l| && Unique(l)
    ensures p in Without(l, i) <==> p in l && p != l[i]
  {
    if p in l && p != l[i] {
      var j :| 0 <= j < |l| && l[j] == p;
      assert p == Without(l, i)[if j < i then j else j - 1];
    }
  }

  lemma WithoutUnique(l: seq<Addr>, i: nat)
    requires i < |l| && Unique(l)
    ensures Unique(Without(l, i))
  {
  }

  /** A block's neighbours when block i is taken out. */
  lemma UnlinkedAt(nxt: map<Addr, Addr>, prv: map<Addr, Addr>, l: seq<Addr>, i: nat, k: nat)
    requires i < |l| && Unique(l) && NIL !in l && k < |l| - 1 && Link(nxt, prv, l, if k < i then k else k + 1)
    ensures var p, n := At(l, i - 1), At(l, i + 1);
            Link(nxt[p := n], prv[n := p], Without(l, i), k)
  {
    var p, n := At(l, i - 1), At(l, i + 1);
    var m := Without(l, i);
    var j := if k < i then k else k + 1;
    WithoutAt(l, i, k + 1);
    WithoutAt(l, i, k - 1);
    assert m[k] == l[j] != NIL;
    assert m[k] == p <==> j == i - 1;
    assert m[k] == n <==> j == i + 1;
  }

  /** Taking a block out of a list leaves a list. */
  lemma Unlinked(nxt: map<Addr, Addr>, prv: map<Addr, Addr>, head: Addr, l: seq<Addr>, i: nat)
    requires Linked(nxt, prv, head, l) && i < |l|
    ensures var p, n := At(l, i - 1), At(l, i + 1);
            Linked(nxt[p := n], prv[n := p], if head == l[i] then n else head, Without(l, i))
  {
    hide Link;
    var p, n := At(l, i - 1), At(l, i + 1);
    var m := Without(l, i);
    WithoutUnique(l, i);
    WithoutAt(l, i, 0);
    var nxt', prv' := nxt[p := n], prv[n := p];
    forall k: nat | k < |m| ensures Link(nxt', prv', m, k) {
      UnlinkedAt(nxt, prv, l, i, k);
    }
  }

  /** Putting a block in front of a list makes a list. */
  lemma Pushed(nxt: map<Addr, Addr>, prv: map<Addr, Addr>, head: Addr, l: seq<Addr>, b: Addr)
    requires Linked(nxt, prv, head, l) && b != NIL && b !in l
    ensures Linked(nxt[b := head], prv[b := NIL][head := b], b, [b] + l)
  {
    hide Link;
    var m := [b] + l;
    var nxt', prv' := nxt[b := head], prv[b := NIL][head := b];
    forall k: nat | k < |m| ensures Link(nxt', prv', m, k) {
      PushedAt(nxt, prv, head, l, b, k);
    }
  }

  lemma PushedAt(nxt: map<Addr, Addr>, prv: map<Addr, Addr>, head: Addr, l: seq<Addr>, b: Addr, k: nat)
    requires head == At(l, 0) && NIL !in l && Unique(l) && b != NIL && b !in l && k <= |l|
    requires k > 0 ==> Link(nxt, prv, l, k - 1)
    ensures Link(nxt[b := head], prv[b := NIL][head := b], [b] + l, k)
  {
    var m := [b] + l;
    if k > 0 {
      assert m[k] == l[k - 1] && m[k] != b && At(m, k + 1) == At(l, k);
      assert k > 1 ==> At(m, k - 1) == At(l, k - 2) && m[k] != head;
    }
  }

  /** Links outside a list do not matter to it. */
  lemma LinkedSame(nxt: map<Addr, Addr>, prv: map<Addr, Addr>, nxt': map<Addr, Addr>, prv': map<Addr, Addr>, head: Addr,
                   l: seq<Addr>)
    requires Linked(nxt, prv, head, l)
    requires forall p :: p in l && p in nxt ==> p in nxt' && nxt'[p] == nxt[p]
    requires forall p :: p in l && p in prv ==> p in prv' && prv'[p] == prv[p]
    ensures Linked(nxt', prv', head, l)
  {
    forall i: nat | i < |l| ensures Link(nxt', prv', l, i) {
      assert Link(nxt, prv, l, i);
    }
  }

  lemma AtMember(l: seq<Addr>, i: int)
    ensures At(l, i) == NIL || At(l, i) in l
  {
  }

  // ----- the bitmaps

  /** The bit of every class says whether its list holds a block, and the bit of every row whether a class does. */
  ghost predicate Mapped(fl: Word, sl: seq<Word>, lists: seq<seq<Addr>>) {
    && |sl| == FL_COUNT && |lists| == CLASSES
    && (forall f, s :: 0 <= f < FL_COUNT && 0 <= s < SL_COUNT ==> (sl[f][s] <==> lists[Class(f, s)] != []))
    && (forall f :: 0 <= f < FL_COUNT ==> ClearFrom(sl[f], SL_COUNT))
    && (forall f :: 0 <= f < FL_COUNT ==> (fl[f] <==> !ClearFrom(sl[f], 0)))
    && ClearFrom(fl, FL_COUNT)
  }

  lemma ClassOf(f: nat, s: nat, g: nat, t: nat)
    requires s < SL_COUNT && t < SL_COUNT
    ensures Class(f, s) == Class(g, t) <==> f == g && s == t
    ensures f < FL_COUNT ==> Class(f, s) < CLASSES
  {
  }

  lemma MappedPush(fl: Word, sl: seq<Word>, lists: seq<seq<Addr>>, f: nat, s: nat, l: seq<Addr>)
    requires Mapped(fl, sl, lists) && f < FL_COUNT && s < SL_COUNT && l != []
    ensures Class(f, s) < CLASSES && Mapped(fl[f := true], sl[f := sl[f][s := true]], lists[Class(f, s) := l])
  {
    var w := sl[f][s := true];
    var sl' := sl[f := w];
    assert w[s] && !ClearFrom(w, 0);
    forall g, t | 0 <= g < FL_COUNT && 0 <= t < SL_COUNT
      ensures sl'[g][t] <==> lists[Class(f, s) := l][Class(g, t)] != []
    {
      ClassOf(f, s, g, t);
    }
  }

  lemma MappedDrop(fl: Word, sl: seq<Word>, lists: seq<seq<Addr>>, f: nat, s: nat, l: seq<Addr>)
    requires Mapped(fl, sl, lists) && f < FL_COUNT && s < SL_COUNT
    ensures Class(f, s) < CLASSES
    ensures l != [] && lists[Class(f, s)] != [] ==> Mapped(fl, sl, lists[Class(f, s) := l])
    ensures l == [] ==>
              var w := sl[f][s := false];
              Mapped(if ClearFrom(w, 0) then fl[f := false] else fl, sl[f := w], lists[Class(f, s) := l])
  {
    var w := sl[f][s := false];
    assert sl[f := sl[f]] == sl;
    forall g, t | 0 <= g < FL_COUNT && 0 <= t < SL_COUNT
      ensures l == [] ==> (sl[f := w][g][t] <==> lists[Class(f, s) := l][Class(g, t)] != [])
      ensures l != [] && lists[Class(f, s)] != [] ==> (sl[g][t] <==> lists[Class(f, s) := l][Class(g, t)] != [])
    {
      ClassOf(f, s, g, t);
    }
    forall g | 0 <= g < FL_COUNT && !ClearFrom(w, 0) ensures fl[g] <==> !ClearFrom(sl[f := w][g], 0) {
      if g == f {
        var k :| 0 <= k < |w| && w[k];
        assert sl[f][k];
      }
    }
  }

  /** Nothing in the classes from c up to d. */
  ghost predicate Empty(lists: seq<seq<Addr>>, c: nat, d: nat) {
    d <= |lists| && forall e :: c <= e < d ==> lists[e] == []
  }

  lemma EmptyJoin(lists: seq<seq<Addr>>, c: nat, d: nat, e: nat)
    requires (c < d ==> Empty(lists, c, d)) && Empty(lists, d, e)
    ensures Empty(lists, c, e)
  {
  }

  lemma RowEmpty(fl: Word, sl: seq<Word>, lists: seq<seq<Addr>>, f: nat, s: nat, n: nat)
    requires Mapped(fl, sl, lists) && f < FL_COUNT && s <= n <= SL_COUNT && forall i :: s <= i < n ==> !sl[f][i]
    ensures Empty(lists, Class(f, s), Class(f, n))
  {
    forall e | Class(f, s) <= e < Class(f, n) ensures lists[e] == [] {
      var t := e - 4 * f;
      assert e == Class(f, t) && !sl[f][t];
    }
  }

  lemma {:induction false} RowsEmpty(fl: Word, sl: seq<Word>, lists: seq<seq<Addr>>, f: nat, n: nat)
    requires Mapped(fl, sl, lists) && f <= n <= FL_COUNT && forall i :: f <= i < n ==> !fl[i]
    ensures Empty(lists, Class(f, 0), Class(n, 0))
    decreases n - f
  {
    if f < n {
      RowsEmpty(fl, sl, lists, f + 1, n);
      assert !fl[f] && ClearFrom(sl[f], 0);
      RowEmpty(fl, sl, lists, f, 0, SL_COUNT);
    }
  }

  lemma RowFound(fl: Word, sl: seq<Word>, lists: seq<seq<Addr>>, n: nat)
    requires Mapped(fl, sl, lists) && n < WORD && fl[n]
    ensures n < FL_COUNT && !ClearFrom(sl[n], 0)
  {
  }

  lemma ClassFound(fl: Word, sl: seq<Word>, lists: seq<seq<Addr>>, f: nat, m: nat)
    requires Mapped(fl, sl, lists) && f < FL_COUNT && m < WORD && sl[f][m]
    ensures m < SL_COUNT && Class(f, m) < CLASSES && lists[Class(f, m)] != []
  {
  }

  // ----- all lists together

  ghost predicate Disjoint(l: seq<Addr>, m: seq<Addr>) { forall p :: p in l ==> p !in m }

  ghost predicate Apart(lists: seq<seq<Addr>>) {
    forall c, d :: 0 <= c < |lists| && 0 <= d < |lists| && c != d ==> Disjoint(lists[c], lists[d])
  }

  ghost predicate Chained(nxt: map<Addr, Addr>, prv: map<Addr, Addr>, heads: seq<Addr>, lists: seq<seq<Addr>>) {
    && |heads| == |lists|
    && (forall c :: 0 <= c < |lists| ==> Linked(nxt, prv, heads[c], lists[c]))
  }

  /** b is in no list. */
  ghost predicate Loose(lists: seq<seq<Addr>>, b: Addr) { forall c :: 0 <= c < |lists| ==> b !in lists[c] }

  lemma ChainedWithout(nxt: map<Addr, Addr>, prv: map<Addr, Addr>, heads: seq<Addr>, lists: seq<seq<Addr>>, c: nat,
                       i: nat)
    requires Chained(nxt, prv, heads, lists) && Apart(lists) && c < |lists| && i < |lists[c]|
    ensures var l := lists[c];
            var p, n := At(l, i - 1), At(l, i + 1);
            var lists' := lists[c := Without(l, i)];
            && Chained(nxt[p := n], prv[n := p], heads[c := if heads[c] == l[i] then n else heads[c]], lists')
            && Apart(lists') && Loose(lists', l[i])
  {
    hide Linked;
    var l := lists[c];
    var p, n := At(l, i - 1), At(l, i + 1);
    var nxt', prv' := nxt[p := n], prv[n := p];
    AtMember(l, i - 1);
    AtMember(l, i + 1);
    Unlinked(nxt, prv, heads[c], l, i);
    LinkedUnique(nxt, prv, heads[c], l);
    forall d | 0 <= d < |lists| && d != c ensures Linked(nxt', prv', heads[d], lists[d]) {
      LinkedUnique(nxt, prv, heads[d], lists[d]);
      assert Disjoint(lists[d], l);
      LinkedSame(nxt, prv, nxt', prv', heads[d], lists[d]);
    }
    forall q ensures q in Without(l, i) <==> q in l && q != l[i] {
      WithoutSame(l, i, q);
    }
  }

  lemma LinkedUnique(nxt: map<Addr, Addr>, prv: map<Addr, Addr>, head: Addr, l: seq<Addr>)
    requires Linked(nxt, prv, head, l)
    ensures Unique(l) && NIL !in l && head == At(l, 0)
  {
  }

  lemma HeadIs(nxt: map<Addr, Addr>, prv: map<Addr, Addr>, heads: seq<Addr>, lists: seq<seq<Addr>>, c: nat)
    requires Chained(nxt, prv, heads, lists) && c < |lists| && lists[c] != []
    ensures |heads| == |lists| && heads[c] == lists[c][0] != NIL
  {
    hide Linked;
    LinkedUnique(nxt, prv, heads[c], lists[c]);
    assert lists[c][0] in lists[c];
  }

  lemma ChainedPush(nxt: map<Addr, Addr>, prv: map<Addr, Addr>, heads: seq<Addr>, lists: seq<seq<Addr>>, c: nat,
                    b: Addr)
    requires Chained(nxt, prv, heads, lists) && Apart(lists) && c < |lists| && b != NIL && Loose(lists, b)
    ensures var lists' := lists[c := [b] + lists[c]];
            && Chained(nxt[b := heads[c]], prv[b := NIL][heads[c] := b], heads[c := b], lists') && Apart(lists')
  {
    hide Linked;
    var l := lists[c];
    var nxt', prv' := nxt[b := heads[c]], prv[b := NIL][heads[c] := b];
    AtMember(l, 0);
    LinkedUnique(nxt, prv, heads[c], l);
    Pushed(nxt, prv, heads[c], l, b);
    forall d | 0 <= d < |lists| && d != c ensures Linked(nxt', prv', heads[d], lists[d]) {
      LinkedUnique(nxt, prv, heads[d], lists[d]);
      assert Disjoint(lists[d], l);
      LinkedSame(nxt, prv, nxt', prv', heads[d], lists[d]);
    }
  }

  // ----- the control block

  function Mask(s: nat): Word { seq(WORD, i requires 0 <= i < WORD => i >= s) }

  lemma MaskedClear(w: Word, s: nat)
    ensures ClearFrom(And(w, Mask(s)), 0) <==> ClearFrom(w, s)
  {
    var m := And(w, Mask(s));
    assert forall i :: 0 <= i < WORD ==> (m[i] <==> w[i] && i >= s);
  }

  lemma MaskedLowest(w: Word, s: nat, k: nat)
    requires Lowest(And(w, Mask(s)), k)
    ensures s <= k < WORD && w[k] && forall i :: s <= i < k ==> !w[i]
  {
    var m := And(w, Mask(s));
    assert forall i :: 0 <= i < WORD ==> (m[i] <==> w[i] && i >= s);
  }

  class Control {
    var fl: Word
    var sl: seq<Word>
    var blocks: seq<Addr>
    var nxt: map<Addr, Addr>
    var prv: map<Addr, Addr>
    ghost var lists: seq<seq<Addr>>

    ghost predicate Valid()
      reads this
    {
      Mapped(fl, sl, lists) && Chained(nxt, prv, blocks, lists) && Apart(lists)
    }

    constructor ()
      ensures Valid() && lists == seq(CLASSES, _ => [])
    {
      fl := Zero();
      sl := seq(FL_COUNT, _ => Zero());
      blocks := seq(CLASSES, _ => NIL);
      nxt, prv := map[NIL := NIL], map[NIL := NIL];
      lists := seq(CLASSES, _ => []);
    }

    /** The head of the first list that is not empty, from a class on. */
    method SearchSuitableBlock(fli: nat, sli: nat) returns (b: Addr, f: nat, s: nat)
      requires Valid() && fli < FL_COUNT && sli < SL_COUNT
      ensures b == NIL ==> Empty(lists, Class(fli, sli), CLASSES)
      ensures b != NIL ==>
                && f < FL_COUNT && s < SL_COUNT && Class(fli, sli) <= Class(f, s) < CLASSES
                && lists[Class(f, s)] != [] && b == lists[Class(f, s)][0]
                && Empty(lists, Class(fli, sli), Class(f, s))
    {
      hide Linked, Chained, Apart, Empty;
      f, s := fli, sli;
      var slMap := And(sl[f], Mask(s));
      if forall i :: 0 <= i < WORD ==> !slMap[i] {
        MaskedClear(sl[f], s);
        RowEmpty(fl, sl, lists, f, s, SL_COUNT);
        var flMap := And(fl, Mask(f + 1));
        var n := Ffs(flMap);
        if n < 0 {
          MaskedClear(fl, f + 1);
          RowsEmpty(fl, sl, lists, f + 1, FL_COUNT);
          EmptyJoin(lists, Class(f, s), Class(f + 1, 0), CLASSES);
          return NIL, f, s;
        }
        MaskedLowest(fl, f + 1, n);
        RowFound(fl, sl, lists, n);
        RowsEmpty(fl, sl, lists, f + 1, n);
        EmptyJoin(lists, Class(f, s), Class(f + 1, 0), Class(n, 0));
        f, s := n, 0;
        slMap := sl[f];
        assert slMap == And(sl[f], Mask(0));
      }
      var m := Ffs(slMap);
      MaskedLowest(sl[f], s, m);
      ClassFound(fl, sl, lists, f, m);
      RowEmpty(fl, sl, lists, f, s, m);
      EmptyJoin(lists, Class(fli, sli), Class(f, s), Class(f, m));
      s := m;
      HeadIs(nxt, prv, blocks, lists, Class(f, s));
      b := blocks[Class(f, s)];
    }

    /** Takes a block out of the list of its class. */
    method RemoveFreeBlock(b: Addr, f: nat, s: nat)
      requires Valid() && f < FL_COUNT && s < SL_COUNT && b in lists[Class(f, s)]
      modifies this
      ensures Valid() && Dropped(old(lists), lists, Class(f, s), b)
    {
      hide Linked, Mapped, Apart, Chained, Disjoint, Loose, Dropped, Without, At, Class;
      ghost var c := Class(f, s);
      ClassOf(f, s, f, s);
      MappedSize(fl, sl, lists);
      ghost var l := lists[c];
      ghost var i: nat :| i < |l| && l[i] == b;
      ChainedWithout(nxt, prv, blocks, lists, c, i);
      MappedDrop(fl, sl, lists, f, s, Without(l, i));
      ListFacts(nxt, prv, blocks, lists, c, i);
      DroppedWithout(nxt, prv, blocks, lists, c, i);
      var p, n := prv[b], nxt[b];
      prv := prv[n := p];
      nxt := nxt[p := n];
      if blocks[Class(f, s)] == b {
        blocks := blocks[Class(f, s) := n];
        if n == NIL {
          sl := sl[f := sl[f][s := false]];
          if forall k :: 0 <= k < WORD ==> !sl[f][k] {
            fl := fl[f := false];
          }
        }
      }
      assert blocks == old(blocks)[c := if i == 0 then n else old(blocks)[c]];
      ghost var w := old(sl)[f][s := false];
      if Without(l, i) == [] {
        assert sl == old(sl)[f := w] && fl == if ClearFrom(w, 0) then old(fl)[f := false] else old(fl);
      } else {
        assert sl == old(sl) && fl == old(fl);
      }
      lists := lists[c := Without(l, i)];
      assert Chained(nxt, prv, blocks, lists);
    }

    /** Puts a block in front of the list of its class. */
    method InsertFreeBlock(b: Addr, f: nat, s: nat)
      requires Valid() && f < FL_COUNT && s < SL_COUNT && b != NIL && Loose(lists, b)
      modifies this
      ensures Valid() && Class(f, s) < |old(lists)|
      ensures lists == old(lists)[Class(f, s) := [b] + old(lists)[Class(f, s)]]
    {
      hide Linked, Apart, Disjoint, Loose;
      ghost var c := Class(f, s);
      ClassOf(f, s, f, s);
      ChainedPush(nxt, prv, blocks, lists, c, b);
      MappedPush(fl, sl, lists, f, s, [b] + lists[c]);
      var current := blocks[Class(f, s)];
      nxt := nxt[b := current];
      prv := prv[b := NIL];
      prv := prv[current := b];
      blocks := blocks[Class(f, s) := b];
      fl := fl[f := true];
      sl := sl[f := sl[f][s := true]];
      lists := lists[c := [b] + lists[c]];
    }
  }

  lemma MappedSize(fl: Word, sl: seq<Word>, lists: seq<seq<Addr>>)
    requires Mapped(fl, sl, lists)
    ensures |sl| == FL_COUNT && |lists| == CLASSES
  {
  }

  /** What the links of block i of list c say. */
  lemma ListFacts(nxt: map<Addr, Addr>, prv: map<Addr, Addr>, heads: seq<Addr>, lists: seq<seq<Addr>>, c: nat, i: nat)
    requires Chained(nxt, prv, heads, lists) && c < |lists| && i < |lists[c]|
    ensures var l := lists[c];
            var p, n := At(l, i - 1), At(l, i + 1);
            && |heads| == |lists| && l[i] in nxt && nxt[l[i]] == n && l[i] in prv && prv[l[i]] == p
            && (heads[c] == l[i] <==> i == 0) && (i == 0 && n == NIL <==> Without(l, i) == [])
  {
    var l := lists[c];
    assert Linked(nxt, prv, heads[c], l);
    assert Link(nxt, prv, l, i);
    assert i + 1 < |l| ==> l[i + 1] in l;
  }

  /** The neighbours of a block in its list are in it too, or the null block. */
  lemma Neighbours(nxt: map<Addr, Addr>, prv: map<Addr, Addr>, heads: seq<Addr>, lists: seq<seq<Addr>>, c: nat, b: Addr)
    requires Chained(nxt, prv, heads, lists) && c < |lists|
    ensures |heads| == |lists| && (heads[c] == NIL || heads[c] in lists[c])
    ensures b in lists[c] ==>
              && b in nxt && b in prv
              && (nxt[b] == NIL || nxt[b] in lists[c]) && (prv[b] == NIL || prv[b] in lists[c])
  {
    var l := lists[c];
    assert Linked(nxt, prv, heads[c], l);
    AtMember(l, 0);
    if b in l {
      var i :| 0 <= i < |l| && l[i] == b;
      assert Link(nxt, prv, l, i);
      AtMember(l, i + 1);
      AtMember(l, i - 1);
    }
  }

  lemma DroppedWithout(nxt: map<Addr, Addr>, prv: map<Addr, Addr>, heads: seq<Addr>, lists: seq<seq<Addr>>, c: nat,
                       i: nat)
    requires Chained(nxt, prv, heads, lists) && Apart(lists) && |lists| == CLASSES && c < CLASSES && i < |lists[c]|
    ensures Dropped(lists, lists[c := Without(lists[c], i)], c, lists[c][i])
  {
    var l := lists[c];
    assert Linked(nxt, prv, heads[c], l);
    forall q ensures q in Without(l, i) <==> q in l && q != l[i] {
      WithoutSame(l, i, q);
    }
    forall d | 0 <= d < CLASSES && d != c ensures l[i] !in lists[d] {
      assert Disjoint(l, lists[d]);
    }
  }

  /** The lists without block b, which was in class c. */
  ghost predicate Dropped(lists: seq<seq<Addr>>, lists': seq<seq<Addr>>, c: nat, b: Addr) {
    && |lists| == |lists'| == CLASSES && c < CLASSES
    && (forall d :: 0 <= d < CLASSES && d != c ==> lists'[d] == lists[d])
    && (forall p :: p in lists'[c] <==> p in lists[c] && p != b)
    && Loose(lists', b)
  }
}
