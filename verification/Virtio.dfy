/**
 The virtio block driver and its device as one machine: section 2.6 of VIRTIO 1.1, split virtqueues.

 `Disk` is the memory both sides share and the driver's own bookkeeping.  `Trace` is what happened so far: which chains
 of descriptors belong to requests under way, how far each of them is, and what the two rings hold.  The device may
 take requests at any time and complete them in any order.
 */
module Virtio {

  const NUM: nat := 8
  const WRAP: nat := 0x1_0000

  type Req = nat

  datatype Desc = Desc(hasNext: bool, write: bool, next: nat)
  datatype Elem = Elem(id: nat, len: nat)
  datatype Info = Info(ready: Req, status: nat)

  datatype Disk = Disk(free: seq<bool>, desc: seq<Desc>, avail: seq<nat>, availIdx: nat, usedIdx: nat, info: seq<Info>,
                       elems: seq<Elem>, usedId: nat, ready: map<Req, bool>)
  {
    predicate Sized() {
      && |free| == |desc| == |avail| == |info| == |elems| == NUM
      && availIdx < WRAP && usedIdx < NUM && usedId < WRAP
    }
  }

  /** A request, its second and third descriptor, and whether it writes the disk. */
  datatype Chain = Chain(req: Req, second: nat, third: nat, write: bool)

  /** On the available ring, taken by the device, on the used ring, or reported to the driver. */
  datatype Phase = Posted | Taken | Done | Reported

  /** The chains under way by their first descriptor; the rings' contents; how much the other side has read of each. */
  datatype Trace = Trace(out: map<nat, Chain>, phase: map<nat, Phase>, availQ: seq<nat>, usedQ: seq<nat>, fetched: nat,
                         seen: nat)

  // ----- the descriptors

  function Members(h: nat, c: Chain): set<nat> { {h, c.second, c.third} }

  /** Descriptor i belongs to chain h. */
  ghost predicate Owns(t: Trace, h: nat, i: nat) { h in t.out && i in Members(h, t.out[h]) }

  /**
   The chain of a request as the device reads it: it may write the data if the disk is read, and always the status, but
   never the header.
   */
  ghost predicate Formed(d: Disk, h: nat, c: Chain)
    requires d.Sized()
  {
    && h < NUM && c.second < NUM && c.third < NUM && h != c.second && h != c.third && c.second != c.third
    && d.desc[h].hasNext && d.desc[h].next == c.second
    && d.desc[c.second].hasNext && d.desc[c.second].next == c.third && !d.desc[c.third].hasNext
    && !d.desc[h].write && d.desc[c.second].write == !c.write && d.desc[c.third].write
    && d.info[h].ready == c.req
  }

  /** Each descriptor is free or belongs to one request. */
  ghost predicate Split(d: Disk, t: Trace)
    requires d.Sized()
  {
    && (forall h :: h in t.out ==> Formed(d, h, t.out[h]))
    && (forall i :: 0 <= i < NUM ==> (d.free[i] <==> forall h :: h in t.out ==> i !in Members(h, t.out[h])))
    && (forall g, h, i :: Owns(t, g, i) && Owns(t, h, i) ==> g == h)
  }

  // ----- the rings

  ghost predicate Distinct(s: seq<nat>) { forall i, j :: 0 <= i < j < |s| ==> s[i] != s[j] }

  /** The requests in a phase. */
  ghost predicate Lists(q: seq<nat>, phase: map<nat, Phase>, p: Phase) {
    Distinct(q) && forall h :: h in q <==> h in phase && phase[h] == p
  }

  /** The available ring holds the posted requests, in order, each once. */
  ghost predicate AvailRing(avail: seq<nat>, availIdx: nat, q: seq<nat>, fetched: nat) {
    && |avail| == NUM && availIdx == (fetched + |q|) % WRAP
    && (forall i :: 0 <= i < |q| && i < NUM ==> avail[(fetched + i) % NUM] == q[i])
  }

  /** The used ring holds the done ones. */
  ghost predicate UsedRing(elems: seq<Elem>, usedIdx: nat, usedId: nat, q: seq<nat>, seen: nat) {
    && |elems| == NUM && usedIdx == seen % NUM && usedId == (seen + |q|) % WRAP
    && (forall i :: 0 <= i < |q| && i < NUM ==> elems[(seen + i) % NUM].id == q[i])
  }

  ghost predicate Rings(d: Disk, t: Trace) {
    && t.phase.Keys == t.out.Keys && Lists(t.availQ, t.phase, Posted) && Lists(t.usedQ, t.phase, Done)
    && AvailRing(d.avail, d.availIdx, t.availQ, t.fetched) && UsedRing(d.elems, d.usedIdx, d.usedId, t.usedQ, t.seen)
  }

  /**
   A request's flag is set exactly if its completion has been reported; requests under way have flags of their own.
   */
  ghost predicate Flags(d: Disk, t: Trace) {
    && t.phase.Keys == t.out.Keys
    && (forall h :: h in t.out ==> t.out[h].req in d.ready && (d.ready[t.out[h].req] <==> t.phase[h].Reported?))
    && (forall g, h :: g in t.out && h in t.out && t.out[g].req == t.out[h].req ==> g == h)
  }

  ghost predicate Inv(d: Disk, t: Trace) { d.Sized() && Split(d, t) && Rings(d, t) && Flags(d, t) }

  // ----- at most two requests are under way

  /** The descriptors of the chains of hs. */
  ghost function Taken(t: Trace, hs: set<nat>): set<nat>
    requires hs <= t.out.Keys
  {
    set h, i | h in hs && i in Members(h, t.out[h]) :: i
  }

  lemma {:induction false} ThreeEach(d: Disk, t: Trace, hs: set<nat>)
    requires d.Sized() && Split(d, t) && hs <= t.out.Keys
    ensures |Taken(t, hs)| == 3 * |hs|
    decreases |hs|
  {
    if hs == {} {
      assert Taken(t, hs) == {};
    } else {
      var h :| h in hs;
      var rest := hs - {h};
      ThreeEach(d, t, rest);
      var m := Members(h, t.out[h]);
      assert Formed(d, h, t.out[h]);
      assert |m| == 3;
      forall i | i in m && i in Taken(t, rest) ensures false {
        var g :| g in rest && i in Members(g, t.out[g]);
        assert Owns(t, g, i) && Owns(t, h, i);
      }
      assert Taken(t, hs) == Taken(t, rest) + m;
    }
  }

  function FreeSet(d: Disk): set<nat>
    requires d.Sized()
  {
    set i: nat | i < NUM && d.free[i]
  }

  function All(n: nat): (s: set<nat>)
    ensures |s| == n && forall i: nat :: i in s <==> i < n
  {
    if n == 0 then {} else All(n - 1) + {n - 1}
  }

  lemma FreeOrTaken(d: Disk, t: Trace, i: nat)
    requires d.Sized() && Split(d, t)
    ensures i in Taken(t, t.out.Keys) ==> i < NUM && !d.free[i]
    ensures i < NUM && !d.free[i] ==> i in Taken(t, t.out.Keys)
  {
    if i in Taken(t, t.out.Keys) {
      var h :| h in t.out && i in Members(h, t.out[h]);
      assert Formed(d, h, t.out[h]);
    }
  }

  lemma FreeAndTaken(d: Disk, t: Trace)
    requires d.Sized() && Split(d, t)
    ensures FreeSet(d) !! Taken(t, t.out.Keys) && FreeSet(d) + Taken(t, t.out.Keys) == All(NUM)
  {
    hide Split, Taken, Members, All;
    var u := Taken(t, t.out.Keys);
    forall i: nat ensures i in u <==> i < NUM && !d.free[i] {
      FreeOrTaken(d, t, i);
    }
  }

  lemma Count(a: set<nat>, b: set<nat>)
    requires a !! b && a + b == All(NUM)
    ensures |a| + |b| == NUM
  {
    hide All;
    assert |a + b| == |a| + |b|;
  }

  /** The eight descriptors are the free ones and three for every request under way. */
  lemma Conservation(d: Disk, t: Trace)
    requires d.Sized() && Split(d, t)
    ensures |FreeSet(d)| + 3 * |t.out| == NUM && |t.out| <= 2
  {
    hide Split, Taken, All, FreeSet;
    assert |t.out.Keys| == |t.out|;
    ThreeEach(d, t, t.out.Keys);
    FreeAndTaken(d, t);
    Count(FreeSet(d), Taken(t, t.out.Keys));
  }

  lemma {:induction false} DistinctBound(s: seq<nat>, keys: set<nat>)
    requires Distinct(s) && forall x :: x in s ==> x in keys
    ensures |s| <= |keys|
  {
    if s != [] {
      var l := |s| - 1;
      DistinctBound(s[..l], keys - {s[l]});
    }
  }

  /** So neither ring ever holds more than two, and its counters, taken modulo eight, tell full from empty. */
  lemma RingsShort(d: Disk, t: Trace)
    requires Inv(d, t)
    ensures |t.availQ| <= 2 && |t.usedQ| <= 2
    ensures d.usedIdx % NUM == d.usedId % NUM <==> t.usedQ == []
  {
    hide Split, Flags, Formed;
    Conservation(d, t);
    assert |t.out.Keys| == |t.out|;
    DistinctBound(t.availQ, t.out.Keys);
    DistinctBound(t.usedQ, t.out.Keys);
    Modulo(t.seen, |t.usedQ|);
  }

  lemma Modulo(a: nat, k: nat)
    requires k <= 2
    ensures (a + k) % WRAP % NUM == (a + k) % NUM && (a % NUM == (a + k) % NUM <==> k == 0)
  {
  }

  // ----- steps

  /** The driver has found three free descriptors and posts a request. */
  function Post(d: Disk, r: Req, i0: nat, i1: nat, i2: nat, write: bool): Disk
    requires d.Sized() && i0 < NUM && i1 < NUM && i2 < NUM
  {
    d.(free := d.free[i0 := false][i1 := false][i2 := false],
       desc := d.desc[i0 := Desc(true, false, i1)][i1 := Desc(true, !write, i2)][i2 := Desc(false, true, 0)],
       info := d.info[i0 := Info(r, 0)],
       ready := d.ready[r := false],
       avail := d.avail[d.availIdx % NUM := i0],
       availIdx := (d.availIdx + 1) % WRAP)
  }

  function PostTrace(t: Trace, r: Req, i0: nat, i1: nat, i2: nat, write: bool): Trace {
    t.(out := t.out[i0 := Chain(r, i1, i2, write)], phase := t.phase[i0 := Posted], availQ := t.availQ + [i0])
  }

  /** The device takes the next request off the available ring. */
  function FetchTrace(t: Trace): Trace
    requires t.availQ != []
  {
    t.(phase := t.phase[t.availQ[0] := Phase.Taken], availQ := t.availQ[1..], fetched := t.fetched + 1)
  }

  /** The device completes a request it has taken. */
  function Complete(d: Disk, h: nat, len: nat): Disk
    requires d.Sized()
  {
    d.(elems := d.elems[d.usedId % NUM := Elem(h, len)], usedId := (d.usedId + 1) % WRAP)
  }

  function CompleteTrace(t: Trace, h: nat): Trace {
    t.(phase := t.phase[h := Done], usedQ := t.usedQ + [h])
  }

  /** The interrupt handler reports one completion. */
  function Report(d: Disk): Disk
    requires d.Sized() && d.elems[d.usedIdx].id < NUM
  {
    d.(ready := d.ready[d.info[d.elems[d.usedIdx].id].ready := true], usedIdx := (d.usedIdx + 1) % NUM)
  }

  function ReportTrace(t: Trace): Trace
    requires t.usedQ != []
  {
    t.(phase := t.phase[t.usedQ[0] := Reported], usedQ := t.usedQ[1..], seen := t.seen + 1)
  }

  /** The driver frees the descriptors of a request whose flag it has seen. */
  function Release(d: Disk, h: nat, c: Chain): Disk
    requires d.Sized() && h < NUM && c.second < NUM && c.third < NUM
  {
    d.(free := d.free[h := true][c.second := true][c.third := true])
  }

  function ReleaseTrace(t: Trace, h: nat): Trace { t.(out := t.out - {h}, phase := t.phase - {h}) }

  // ----- posting a request

  /** Three free descriptors, and a request that is not under way. */
  ghost predicate CanPost(d: Disk, t: Trace, r: Req, i0: nat, i1: nat, i2: nat)
    requires d.Sized()
  {
    && i0 < NUM && i1 < NUM && i2 < NUM && i0 != i1 && i0 != i2 && i1 != i2
    && d.free[i0] && d.free[i1] && d.free[i2] && forall h :: h in t.out ==> t.out[h].req != r
  }

  lemma NotOwned(d: Disk, t: Trace, i: nat, h: nat)
    requires d.Sized() && Split(d, t) && i < NUM && d.free[i] && h in t.out
    ensures i !in Members(h, t.out[h]) && i != h && i !in t.out
  {
    assert i in t.out ==> i in Members(i, t.out[i]);
  }

  lemma PostFormed(d: Disk, t: Trace, r: Req, i0: nat, i1: nat, i2: nat, w: bool, h: nat)
    requires d.Sized() && Split(d, t) && CanPost(d, t, r, i0, i1, i2) && (h in t.out || h == i0)
    ensures Formed(Post(d, r, i0, i1, i2, w), h, PostTrace(t, r, i0, i1, i2, w).out[h])
  {
    if h != i0 {
      NotOwned(d, t, i0, h);
      NotOwned(d, t, i1, h);
      NotOwned(d, t, i2, h);
      assert Formed(d, h, t.out[h]);
    }
  }

  lemma NoneOwned(d: Disk, t: Trace, r: Req, i0: nat, i1: nat, i2: nat, h: nat)
    requires d.Sized() && Split(d, t) && CanPost(d, t, r, i0, i1, i2) && h in t.out
    ensures i0 !in Members(h, t.out[h]) && i1 !in Members(h, t.out[h]) && i2 !in Members(h, t.out[h]) && h != i0
  {
    hide Split;
    NotOwned(d, t, i0, h);
    NotOwned(d, t, i1, h);
    NotOwned(d, t, i2, h);
  }

  lemma PostFree(d: Disk, t: Trace, r: Req, i0: nat, i1: nat, i2: nat, w: bool, i: nat)
    requires d.Sized() && Split(d, t) && CanPost(d, t, r, i0, i1, i2) && i < NUM
    ensures var t' := PostTrace(t, r, i0, i1, i2, w);
            Post(d, r, i0, i1, i2, w).free[i] <==> forall h :: h in t'.out ==> i !in Members(h, t'.out[h])
  {
    var d', t' := Post(d, r, i0, i1, i2, w), PostTrace(t, r, i0, i1, i2, w);
    assert t'.out[i0] == Chain(r, i1, i2, w);
    hide Formed;
    if i == i0 || i == i1 || i == i2 {
      assert i in Members(i0, t'.out[i0]);
    } else if !d.free[i] {
      var h :| h in t.out && i in Members(h, t.out[h]);
      NoneOwned(d, t, r, i0, i1, i2, h);
      assert i in Members(h, t'.out[h]);
    }
  }

  lemma PostOwns(d: Disk, t: Trace, r: Req, i0: nat, i1: nat, i2: nat, w: bool, g: nat, h: nat, i: nat)
    requires d.Sized() && Split(d, t) && CanPost(d, t, r, i0, i1, i2)
    requires var t' := PostTrace(t, r, i0, i1, i2, w); Owns(t', g, i) && Owns(t', h, i)
    ensures g == h
  {
    if g != i0 {
      NoneOwned(d, t, r, i0, i1, i2, g);
      assert Owns(t, g, i);
    }
    if h != i0 {
      NoneOwned(d, t, r, i0, i1, i2, h);
      assert Owns(t, h, i);
    }
  }

  lemma PostSplit(d: Disk, t: Trace, r: Req, i0: nat, i1: nat, i2: nat, w: bool)
    requires d.Sized() && Split(d, t) && CanPost(d, t, r, i0, i1, i2)
    ensures Split(Post(d, r, i0, i1, i2, w), PostTrace(t, r, i0, i1, i2, w))
  {
    var d', t' := Post(d, r, i0, i1, i2, w), PostTrace(t, r, i0, i1, i2, w);
    forall h | h in t'.out ensures Formed(d', h, t'.out[h]) {
      PostFormed(d, t, r, i0, i1, i2, w, h);
    }
    forall i | 0 <= i < NUM ensures d'.free[i] <==> forall h :: h in t'.out ==> i !in Members(h, t'.out[h]) {
      PostFree(d, t, r, i0, i1, i2, w, i);
    }
    forall g, h, i | Owns(t', g, i) && Owns(t', h, i) ensures g == h {
      PostOwns(d, t, r, i0, i1, i2, w, g, h, i);
    }
    hide Formed, Members, Owns;
  }

  lemma Slots(a: nat, i: nat, j: nat)
    requires i < j < NUM
    ensures (a + i) % NUM != (a + j) % NUM
  {
  }

  lemma Counter(a: nat)
    ensures (a % WRAP) % NUM == a % NUM && (a % WRAP + 1) % WRAP == (a + 1) % WRAP &&
            (a % NUM + 1) % NUM == (a + 1) % NUM
  {
    Halved(a);
    WrapStep(a);
    NumStep(a);
  }

  lemma Halved(a: nat)
    ensures (a % WRAP) % NUM == a % NUM
  {
    var q, m := a / 0x1_0000, a % 0x1_0000;
    Eighths(a, 8192 * q + m / 8, m % 8);
  }

  lemma Eighths(a: nat, k: nat, r: nat)
    requires a == 8 * k + r && r < 8
    ensures a % 8 == r
  {
  }

  lemma WrapStep(a: nat)
    ensures (a % WRAP + 1) % WRAP == (a + 1) % WRAP
  {
  }

  lemma NumStep(a: nat)
    ensures (a % NUM + 1) % NUM == (a + 1) % NUM
  {
  }

  lemma DistinctPush(s: seq<nat>, x: nat)
    requires Distinct(s) && x !in s
    ensures Distinct(s + [x]) && forall y :: y in s + [x] <==> y in s || y == x
  {
  }

  lemma DistinctPop(s: seq<nat>)
    requires Distinct(s) && s != []
    ensures Distinct(s[1..]) && forall y :: y in s[1..] <==> y in s && y != s[0]
  {
    forall y ensures y in s[1..] <==> y in s && y != s[0] {
      if y in s && y != s[0] {
        var i :| 0 <= i < |s| && s[i] == y;
        assert s[1..][i - 1] == y;
      }
    }
  }

  lemma AvailPush(avail: seq<nat>, availIdx: nat, q: seq<nat>, fetched: nat, h: nat)
    requires AvailRing(avail, availIdx, q, fetched) && |q| <= 2
    ensures AvailRing(avail[availIdx % NUM := h], (availIdx + 1) % WRAP, q + [h], fetched)
  {
    var n := |q|;
    Counter(fetched + n);
    var avail', q' := avail[availIdx % NUM := h], q + [h];
    forall i | 0 <= i < |q'| && i < NUM ensures avail'[(fetched + i) % NUM] == q'[i] {
      if i < n {
        Slots(fetched, i, n);
      }
    }
  }

  lemma AvailPop(avail: seq<nat>, availIdx: nat, q: seq<nat>, fetched: nat)
    requires AvailRing(avail, availIdx, q, fetched) && 0 < |q| <= 2
    ensures avail[fetched % NUM] == q[0] && AvailRing(avail, availIdx, q[1..], fetched + 1)
  {
    assert avail[(fetched + 0) % NUM] == q[0];
    forall i | 0 <= i < |q[1..]| && i < NUM ensures avail[(fetched + 1 + i) % NUM] == q[1..][i] {
      assert avail[(fetched + (i + 1)) % NUM] == q[i + 1];
    }
  }

  lemma UsedPush(elems: seq<Elem>, usedIdx: nat, usedId: nat, q: seq<nat>, seen: nat, e: Elem)
    requires UsedRing(elems, usedIdx, usedId, q, seen) && |q| <= 2
    ensures UsedRing(elems[usedId % NUM := e], usedIdx, (usedId + 1) % WRAP, q + [e.id], seen)
  {
    var n := |q|;
    Counter(seen + n);
    var elems', q' := elems[usedId % NUM := e], q + [e.id];
    forall i | 0 <= i < |q'| && i < NUM ensures elems'[(seen + i) % NUM].id == q'[i] {
      if i < n {
        Slots(seen, i, n);
      }
    }
  }

  lemma UsedPop(elems: seq<Elem>, usedIdx: nat, usedId: nat, q: seq<nat>, seen: nat)
    requires UsedRing(elems, usedIdx, usedId, q, seen) && 0 < |q| <= 2
    ensures elems[usedIdx].id == q[0] && UsedRing(elems, (usedIdx + 1) % NUM, usedId, q[1..], seen + 1)
  {
    Counter(seen);
    assert elems[(seen + 0) % NUM].id == q[0];
    forall i | 0 <= i < |q[1..]| && i < NUM ensures elems[(seen + 1 + i) % NUM].id == q[1..][i] {
      assert elems[(seen + (i + 1)) % NUM].id == q[i + 1];
    }
  }

  /** A request enters a phase at the end of its list. */
  lemma ListsPush(q: seq<nat>, phase: map<nat, Phase>, p: Phase, h: nat)
    requires Lists(q, phase, p) && (h in phase ==> phase[h] != p)
    ensures Lists(q + [h], phase[h := p], p)
  {
    DistinctPush(q, h);
  }

  /** A request leaves a phase from the front of its list. */
  lemma ListsPop(q: seq<nat>, phase: map<nat, Phase>, p: Phase, p': Phase)
    requires Lists(q, phase, p) && q != [] && p' != p
    ensures q[0] in phase && phase[q[0]] == p && Lists(q[1..], phase[q[0] := p'], p)
  {
    DistinctPop(q);
    assert q[0] in q;
  }

  lemma ListsOther(q: seq<nat>, phase: map<nat, Phase>, p: Phase, h: nat, p': Phase)
    requires Lists(q, phase, p) && p' != p && (h in phase ==> phase[h] != p)
    ensures Lists(q, phase[h := p'], p)
  {
  }

  lemma PostRings(d: Disk, t: Trace, r: Req, i0: nat, i1: nat, i2: nat, w: bool)
    requires d.Sized() && Rings(d, t) && |t.availQ| <= 2 && i0 < NUM && i1 < NUM && i2 < NUM && i0 !in t.out
    ensures Rings(Post(d, r, i0, i1, i2, w), PostTrace(t, r, i0, i1, i2, w))
  {
    hide Lists, AvailRing, UsedRing;
    AvailPush(d.avail, d.availIdx, t.availQ, t.fetched, i0);
    ListsPush(t.availQ, t.phase, Posted, i0);
    ListsOther(t.usedQ, t.phase, Done, i0, Posted);
  }

  lemma PostFlags(d: Disk, t: Trace, r: Req, i0: nat, i1: nat, i2: nat, w: bool)
    requires d.Sized() && Flags(d, t) && i0 < NUM && i1 < NUM && i2 < NUM && i0 !in t.out
    requires forall h :: h in t.out ==> t.out[h].req != r
    ensures Flags(Post(d, r, i0, i1, i2, w), PostTrace(t, r, i0, i1, i2, w))
  {
  }

  lemma PostKeeps(d: Disk, t: Trace, r: Req, i0: nat, i1: nat, i2: nat, w: bool)
    requires Inv(d, t) && CanPost(d, t, r, i0, i1, i2)
    ensures Inv(Post(d, r, i0, i1, i2, w), PostTrace(t, r, i0, i1, i2, w))
  {
    hide Split, Rings, Flags, PostTrace;
    RingsShort(d, t);
    FreeNotHead(d, t, i0);
    PostSplit(d, t, r, i0, i1, i2, w);
    PostRings(d, t, r, i0, i1, i2, w);
    PostFlags(d, t, r, i0, i1, i2, w);
  }

  lemma FreeNotHead(d: Disk, t: Trace, i: nat)
    requires d.Sized() && Split(d, t) && i < NUM && d.free[i]
    ensures i !in t.out
  {
    if i in t.out {
      NotOwned(d, t, i, i);
    }
  }

  // ----- the other steps

  ghost predicate CanFetch(t: Trace) { t.availQ != [] }

  lemma FetchRings(d: Disk, t: Trace)
    requires d.Sized() && Rings(d, t) && CanFetch(t) && |t.availQ| <= 2
    ensures d.avail[t.fetched % NUM] == t.availQ[0] && t.availQ[0] in t.phase && t.phase[t.availQ[0]].Posted?
    ensures Rings(d, FetchTrace(t))
  {
    hide Lists, AvailRing, UsedRing;
    AvailPop(d.avail, d.availIdx, t.availQ, t.fetched);
    ListsPop(t.availQ, t.phase, Posted, Phase.Taken);
    ListsOther(t.usedQ, t.phase, Done, t.availQ[0], Phase.Taken);
  }

  /** What the device reads off the available ring is the request that was posted first. */
  lemma FetchKeeps(d: Disk, t: Trace)
    requires Inv(d, t) && CanFetch(t)
    ensures d.avail[t.fetched % WRAP % NUM] == t.availQ[0] && Inv(d, FetchTrace(t))
  {
    hide Split, Rings;
    RingsShort(d, t);
    Halved(t.fetched);
    FetchRings(d, t);
    SameChains(d, d, t, FetchTrace(t));
    assert Flags(d, FetchTrace(t));
  }

  /** Chains and free flags do not depend on phases and rings. */
  lemma SameChains(d: Disk, d': Disk, t: Trace, t': Trace)
    requires d.Sized() && d'.Sized() && Split(d, t) && t'.out == t.out && d'.free == d.free && d'.desc == d.desc &&
             d'.info == d.info
    ensures Split(d', t')
  {
    forall h | h in t'.out ensures Formed(d', h, t'.out[h]) {
      assert Formed(d, h, t.out[h]);
    }
    forall g, h, i | Owns(t', g, i) && Owns(t', h, i) ensures g == h {
      assert Owns(t, g, i) && Owns(t, h, i);
    }
  }

  ghost predicate CanComplete(t: Trace, h: nat) { h in t.phase && t.phase[h].Taken? }

  lemma CompleteRings(d: Disk, t: Trace, h: nat, len: nat)
    requires d.Sized() && Rings(d, t) && CanComplete(t, h) && |t.usedQ| <= 2
    ensures Rings(Complete(d, h, len), CompleteTrace(t, h))
  {
    hide Lists, AvailRing, UsedRing;
    UsedPush(d.elems, d.usedIdx, d.usedId, t.usedQ, t.seen, Elem(h, len));
    ListsPush(t.usedQ, t.phase, Done, h);
    ListsOther(t.availQ, t.phase, Posted, h, Done);
  }

  lemma CompleteKeeps(d: Disk, t: Trace, h: nat, len: nat)
    requires Inv(d, t) && CanComplete(t, h)
    ensures Inv(Complete(d, h, len), CompleteTrace(t, h))
  {
    hide Split, Rings;
    RingsShort(d, t);
    CompleteRings(d, t, h, len);
    SameChains(d, Complete(d, h, len), t, CompleteTrace(t, h));
    assert Flags(Complete(d, h, len), CompleteTrace(t, h));
  }

  ghost predicate CanReport(t: Trace) { t.usedQ != [] }

  lemma ReportRings(d: Disk, t: Trace)
    requires d.Sized() && Rings(d, t) && CanReport(t) && |t.usedQ| <= 2
    ensures d.elems[d.usedIdx].id == t.usedQ[0] && t.usedQ[0] in t.phase && t.phase[t.usedQ[0]].Done?
    ensures t.usedQ[0] < NUM ==> Rings(Report(d), ReportTrace(t))
  {
    hide Lists, AvailRing, UsedRing;
    UsedPop(d.elems, d.usedIdx, d.usedId, t.usedQ, t.seen);
    ListsPop(t.usedQ, t.phase, Done, Reported);
    ListsOther(t.availQ, t.phase, Posted, t.usedQ[0], Reported);
  }

  lemma ReportFlags(d: Disk, t: Trace, h: nat)
    requires d.Sized() && Flags(d, t) && CanReport(t) && h == t.usedQ[0] && h in t.out && t.phase[h].Done?
    requires h < NUM && d.elems[d.usedIdx].id == h && d.info[h].ready == t.out[h].req
    ensures var r := t.out[h].req;
            r in d.ready && !d.ready[r] && Report(d).ready == d.ready[r := true] && Flags(Report(d), ReportTrace(t))
  {
  }

  lemma ChainFormed(d: Disk, t: Trace, h: nat)
    requires d.Sized() && Split(d, t) && h in t.out
    ensures Formed(d, h, t.out[h]) && h < NUM && d.info[h].ready == t.out[h].req
  {
  }

  /** The flag set is that of the request completed first, and it was not set before. */
  lemma ReportKeeps(d: Disk, t: Trace)
    requires Inv(d, t) && CanReport(t)
    ensures d.elems[d.usedIdx].id == t.usedQ[0] && t.usedQ[0] in t.out && t.usedQ[0] < NUM
    ensures var r := t.out[t.usedQ[0]].req;
            r in d.ready && !d.ready[r] && Report(d).ready == d.ready[r := true] && Inv(Report(d), ReportTrace(t))
  {
    hide Split, Rings, Formed;
    RingsShort(d, t);
    var h := t.usedQ[0];
    ReportRings(d, t);
    assert h in t.out;
    ChainFormed(d, t, h);
    ReportFlags(d, t, h);
    SameChains(d, Report(d), t, ReportTrace(t));
  }

  ghost predicate CanRelease(t: Trace, h: nat) { h in t.phase && h in t.out && t.phase[h].Reported? }

  lemma ReleaseKeeps(d: Disk, t: Trace, h: nat)
    requires Inv(d, t) && CanRelease(t, h)
    ensures Formed(d, h, t.out[h]) && Inv(Release(d, h, t.out[h]), ReleaseTrace(t, h))
  {
    hide Split, Rings;
    ChainFormed(d, t, h);
    ReleaseSplit(d, t, h);
    ReleaseRings(d, t, h);
    assert Flags(Release(d, h, t.out[h]), ReleaseTrace(t, h));
  }

  lemma ReleaseRings(d: Disk, t: Trace, h: nat)
    requires d.Sized() && Rings(d, t) && CanRelease(t, h) && h < NUM && t.out[h].second < NUM && t.out[h].third < NUM
    ensures Rings(Release(d, h, t.out[h]), ReleaseTrace(t, h))
  {
  }

  lemma ReleaseSplit(d: Disk, t: Trace, h: nat)
    requires d.Sized() && Split(d, t) && h in t.out && Formed(d, h, t.out[h])
    ensures Split(Release(d, h, t.out[h]), ReleaseTrace(t, h))
  {
    var d', t' := Release(d, h, t.out[h]), ReleaseTrace(t, h);
    forall g | g in t'.out ensures Formed(d', g, t'.out[g]) {
      assert Formed(d, g, t.out[g]);
    }
    hide Formed;
    forall i | 0 <= i < NUM ensures d'.free[i] <==> forall g :: g in t'.out ==> i !in Members(g, t'.out[g]) {
      if i in Members(h, t.out[h]) {
        forall g | g in t'.out ensures i !in Members(g, t'.out[g]) {
          assert Owns(t, h, i);
          assert i in Members(g, t.out[g]) ==> Owns(t, g, i);
        }
      } else if !d.free[i] {
        var g :| g in t.out && i in Members(g, t.out[g]);
        assert i in Members(g, t'.out[g]);
      }
    }
    forall g, k, i | Owns(t', g, i) && Owns(t', k, i) ensures g == k {
      assert Owns(t, g, i) && Owns(t, k, i);
    }
  }

  // ----- whole runs

  datatype Event =
    | Posts(req: Req, i0: nat, i1: nat, i2: nat, write: bool)
    | Fetches
    | Completes(head: nat, len: nat)
    | Reports
    | Releases(head: nat)

  ghost predicate Possible(d: Disk, t: Trace, e: Event) {
    d.Sized() &&
    match e
    case Posts(r, i0, i1, i2, _) => CanPost(d, t, r, i0, i1, i2)
    case Fetches => CanFetch(t)
    case Completes(h, _) => CanComplete(t, h)
    case Reports => CanReport(t) && d.elems[d.usedIdx].id < NUM
    case Releases(h) => CanRelease(t, h) && h < NUM && t.out[h].second < NUM && t.out[h].third < NUM
  }

  ghost function Step(d: Disk, t: Trace, e: Event): (Disk, Trace)
    requires Possible(d, t, e)
  {
    match e
    case Posts(r, i0, i1, i2, w) => (Post(d, r, i0, i1, i2, w), PostTrace(t, r, i0, i1, i2, w))
    case Fetches => (d, FetchTrace(t))
    case Completes(h, len) => (Complete(d, h, len), CompleteTrace(t, h))
    case Reports => (Report(d), ReportTrace(t))
    case Releases(h) => (Release(d, h, t.out[h]), ReleaseTrace(t, h))
  }

  lemma StepKeeps(d: Disk, t: Trace, e: Event)
    requires Inv(d, t) && Possible(d, t, e)
    ensures Inv(Step(d, t, e).0, Step(d, t, e).1)
  {
    hide Inv;
    match e
    case Posts(r, i0, i1, i2, w) => PostKeeps(d, t, r, i0, i1, i2, w);
    case Fetches => FetchKeeps(d, t);
    case Completes(h, len) => CompleteKeeps(d, t, h, len);
    case Reports => ReportKeeps(d, t);
    case Releases(h) => ReleaseKeeps(d, t, h);
  }

  ghost predicate Run(d: Disk, t: Trace, es: seq<Event>, d': Disk, t': Trace)
    decreases |es|
  {
    if es == [] then d' == d && t' == t
    else Possible(d, t, es[0]) && var (u, s) := Step(d, t, es[0]); Run(u, s, es[1..], d', t')
  }

  /**
   After any run: the descriptors are conserved, at most two requests are under way, neither ring can be overrun, and
   a request's flag is set exactly if its completion was reported.
   */
  lemma {:induction false} RunKeeps(d: Disk, t: Trace, es: seq<Event>, d': Disk, t': Trace)
    requires Inv(d, t) && Run(d, t, es, d', t')
    ensures Inv(d', t') && |FreeSet(d')| + 3 * |t'.out| == NUM && |t'.out| <= 2 && |t'.availQ| <= 2 && |t'.usedQ| <= 2
    ensures forall h :: h in t'.out ==>
              h in t'.phase && t'.out[h].req in d'.ready && (d'.ready[t'.out[h].req] <==> t'.phase[h].Reported?)
    decreases |es|
  {
    if es == [] {
      Conservation(d, t);
      RingsShort(d, t);
    } else {
      StepKeeps(d, t, es[0]);
      var (u, s) := Step(d, t, es[0]);
      hide Inv, Step, Possible;
      RunKeeps(u, s, es[1..], d', t');
    }
  }
}
