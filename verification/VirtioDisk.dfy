/**
 The virtio block driver: finding descriptors, posting a request, the interrupt handler, freeing a chain.  The two
 device methods are what the driver assumes of the device.
 */
module VirtioDisk {
  import opened Virtio

  class Driver {
    const free: array<bool>
    const desc: array<Desc>
    const avail: array<nat>
    const info: array<Info>
    const elems: array<Elem>
    var availIdx: nat
    var usedIdx: nat
    var usedId: nat
    var ready: map<Req, bool>
    /** The device's own count of what it has read of the available ring. */
    var lastAvail: nat
    ghost var t: Trace

    ghost function View(): Disk
      reads this, free, desc, avail, info, elems
    {
      Disk(free[..], desc[..], avail[..], availIdx, usedIdx, info[..], elems[..], usedId, ready)
    }

    ghost predicate Valid()
      reads this, free, desc, avail, info, elems
    {
      Inv(View(), t) && lastAvail == t.fetched % WRAP
    }

    constructor ()
      ensures Valid() && t == Trace(map[], map[], [], [], 0, 0)
      ensures fresh(free) && fresh(desc) && fresh(avail) && fresh(info) && fresh(elems)
    {
      free := new bool[NUM](_ => true);
      desc := new Desc[NUM](_ => Desc(false, false, 0));
      avail := new nat[NUM](_ => 0);
      info := new Info[NUM](_ => Info(0, 0));
      elems := new Elem[NUM](_ => Elem(0, 0));
      availIdx, usedIdx, usedId, lastAvail, ready, t := 0, 0, 0, 0, map[], Trace(map[], map[], [], [], 0, 0);
      new;
      Start(View());
    }

    /** The lowest free descriptor, -1 if there is none. */
    method AllocDesc() returns (i: int)
      requires free.Length == NUM
      modifies free
      ensures -1 <= i < NUM
      ensures i < 0 ==> free[..] == old(free[..]) && forall j :: 0 <= j < NUM ==> !free[j]
      ensures i >= 0 ==> old(free[i]) && free[..] == old(free[..])[i := false] && forall j :: 0 <= j < i ==> !free[j]
    {
      i := 0;
      while i < NUM
        invariant 0 <= i <= NUM && free[..] == old(free[..]) && forall j :: 0 <= j < i ==> !free[j]
      {
        if free[i] {
          free[i] := false;
          return;
        }
        i := i + 1;
      }
      i := -1;
    }

    method FreeDesc(i: nat)
      requires free.Length == NUM && i < NUM && !free[i]
      modifies free
      ensures free[..] == old(free[..])[i := true]
    {
      free[i] := true;
    }

    /** Three free descriptors, or none: what was found is given back if there are fewer. */
    method Alloc3Desc() returns (ok: bool, idx: seq<nat>)
      requires free.Length == NUM
      modifies free
      ensures ok ==> |idx| == 3 && Picked(old(free[..]), free[..], idx)
      ensures !ok ==> free[..] == old(free[..]) && FewerThan3(free[..])
    {
      hide Picked, FewerThan3;
      idx := [];
      ghost var was := free[..];
      PickedNone(was);
      while |idx| < 3
        invariant |idx| <= 3 && Picked(was, free[..], idx)
        decreases 3 - |idx|
      {
        ghost var now := free[..];
        var i := AllocDesc();
        if i < 0 {
          Exhausted(was, now, idx);
          var j := 0;
          while j < |idx|
            invariant 0 <= j <= |idx| && Picked(was, free[..], idx[j..])
          {
            PickedBack(was, free[..], idx[j..]);
            FreeDesc(idx[j]);
            assert idx[j..][1..] == idx[j + 1..];
            j := j + 1;
          }
          PickedAll(was, free[..], idx[j..]);
          return false, [];
        }
        PickedMore(was, now, idx, i);
        idx := idx + [i];
      }
      ok := true;
    }

    /** Posts a request, if three descriptors are free; otherwise the caller has to wait. */
    method Submit(r: Req, write: bool) returns (ok: bool, head: nat)
      requires Valid() && forall h :: h in t.out ==> t.out[h].req != r
      modifies this`availIdx, this`ready, this`t, free, desc, avail, info
      ensures Valid()
      ensures ok <==> !FewerThan3(old(free[..]))
      ensures !ok ==> View() == old(View()) && t == old(t)
      ensures ok ==> head !in old(t.out) && head in t.out && t.out[head].req == r && ready == old(ready)[r := false]
      ensures ok ==> t == PostTrace(old(t), r, head, t.out[head].second, t.out[head].third, write)
    {
      hide Inv, Picked, FewerThan3;
      ghost var d := View();
      InvSized(d, t);
      head := 0;
      var idx;
      ok, idx := Alloc3Desc();
      if !ok {
        return;
      }
      var i0, i1, i2 := idx[0], idx[1], idx[2];
      PickedPost(d, t, r, free[..], idx);
      HeadNew(d, t, i0);
      PostKeeps(d, t, r, i0, i1, i2, write);
      desc[i0] := Desc(true, false, i1);
      desc[i1] := Desc(true, !write, i2);
      desc[i2] := Desc(false, true, 0);
      info[i0] := Info(r, 0);
      ready := ready[r := false];
      avail[availIdx % NUM] := i0;
      availIdx := (availIdx + 1) % WRAP;
      assert View() == Post(d, r, i0, i1, i2, write);
      t := PostTrace(t, r, i0, i1, i2, write);
      head := i0;
    }

    /** The device reads the next available slot; it finds the request posted first. */
    method DeviceFetch() returns (h: nat)
      requires Valid() && CanFetch(t)
      modifies `t, `lastAvail
      ensures Valid() && View() == old(View()) && h == old(t.availQ[0]) && t == FetchTrace(old(t))
    {
      hide Inv;
      InvSized(View(), t);
      FetchKeeps(View(), t);
      WrapStep(t.fetched);
      h := avail[lastAvail % NUM];
      lastAvail := (lastAvail + 1) % WRAP;
      t := FetchTrace(t);
    }

    /** The device completes one of the requests it has taken. */
    method DeviceComplete(h: nat, len: nat)
      requires Valid() && CanComplete(t, h)
      modifies this`usedId, this`t, elems
      ensures Valid() && View() == Complete(old(View()), h, len) && t == CompleteTrace(old(t), h)
    {
      hide Inv;
      ghost var d := View();
      InvSized(d, t);
      CompleteKeeps(d, t, h, len);
      elems[usedId % NUM] := Elem(h, len);
      usedId := (usedId + 1) % WRAP;
      assert View() == Complete(d, h, len);
      t := CompleteTrace(t, h);
    }

    /** The interrupt handler: reports every completion on the used ring, each to its own request. */
    method Intr()
      requires Valid()
      modifies this`usedIdx, this`ready, this`t
      ensures Valid() && t == AllReported(old(t)) && t.usedQ == []
      ensures t.out == old(t.out) && forall h :: h in t.out ==> t.out[h].req in ready && t.out[h].req in old(ready)
      ensures forall h :: h in t.out && h !in old(t.usedQ) ==> ready[t.out[h].req] == old(ready)[t.out[h].req]
      ensures forall h :: h in old(t.usedQ) ==> h in t.out && !old(ready)[t.out[h].req] && ready[t.out[h].req]
    {
      hide Inv, AllReported;
      ghost var t0, d0 := t, View();
      RingsShort(d0, t0);
      while usedIdx % NUM != usedId % NUM
        invariant Valid() && AllReported(t) == AllReported(t0)
        decreases |t.usedQ|
      {
        ghost var d := View();
        InvSized(d, t);
        RingsShort(d, t);
        ReportKeeps(d, t);
        ReportedStep(t);
        ready := ready[info[elems[usedIdx].id].ready := true];
        usedIdx := (usedIdx + 1) % NUM;
        t := ReportTrace(t);
        assert View() == Report(d);
      }
      RingsShort(View(), t);
      ReportedNone(t);
      ReportedFlags(d0, t0, View(), t);
    }

    /** Frees the descriptors of a chain, following the links. */
    method FreeChain(h: nat)
      requires Valid() && CanRelease(t, h)
      modifies this`t, free
      ensures Valid() && t == ReleaseTrace(old(t), h) && View() == Release(old(View()), h, old(t.out[h]))
    {
      hide Inv;
      ghost var d, c := View(), t.out[h];
      InvSized(d, t);
      ReleaseKeeps(d, t, h);
      BusyChain(d, t, h);
      var i := h;
      FreeDesc(i);
      ghost var k := 1;
      while desc[i].hasNext
        invariant 1 <= k <= 3 && i == (if k == 1 then h else if k == 2 then c.second else c.third) && desc[..] == d.desc
        invariant free[..] == (if k == 1 then d.free[h := true] else if k == 2 then d.free[h := true][c.second := true]
                               else d.free[h := true][c.second := true][c.third := true])
        invariant t == old(t)
        decreases 3 - k
      {
        i := desc[i].next;
        FreeDesc(i);
        k := k + 1;
      }
      assert View() == Release(d, h, c);
      t := ReleaseTrace(t, h);
    }
  }

  // ----- descriptors picked so far

  /** now is was with the descriptors of idx taken; they are distinct and were free. */
  ghost predicate Picked(was: seq<bool>, now: seq<bool>, idx: seq<nat>) {
    && |was| == |now| == NUM && Distinct(idx)
    && (forall k :: 0 <= k < |idx| ==> idx[k] < NUM && was[idx[k]])
    && (forall i: nat :: i < NUM ==> (now[i] <==> was[i] && i !in idx))
  }

  ghost predicate FewerThan3(f: seq<bool>) {
    |f| == NUM && forall i, j, k :: 0 <= i < j < k < NUM && f[i] && f[j] ==> !f[k]
  }

  lemma PickedNone(was: seq<bool>)
    requires |was| == NUM
    ensures Picked(was, was, [])
  {
  }

  lemma PickedMore(was: seq<bool>, now: seq<bool>, idx: seq<nat>, i: nat)
    requires Picked(was, now, idx) && i < NUM && now[i]
    ensures Picked(was, now[i := false], idx + [i])
  {
    DistinctPush(idx, i);
  }

  lemma PickedBack(was: seq<bool>, now: seq<bool>, idx: seq<nat>)
    requires Picked(was, now, idx) && idx != []
    ensures idx[0] < NUM && |now| == NUM && !now[idx[0]] && Picked(was, now[idx[0] := true], idx[1..])
  {
    DistinctPop(idx);
    assert idx[0] in idx;
    forall k | 0 <= k < |idx[1..]| ensures idx[1..][k] < NUM && was[idx[1..][k]] {
      assert idx[1..][k] == idx[k + 1];
    }
  }

  lemma PickedAll(was: seq<bool>, now: seq<bool>, idx: seq<nat>)
    requires Picked(was, now, idx) && idx == []
    ensures now == was
  {
  }

  lemma Exhausted(was: seq<bool>, now: seq<bool>, idx: seq<nat>)
    requires Picked(was, now, idx) && |idx| < 3 && forall j :: 0 <= j < NUM ==> !now[j]
    ensures FewerThan3(was)
  {
    assert forall x: nat :: x < NUM && was[x] ==> x in idx;
    forall i, j, k | 0 <= i < j < k < NUM ensures was[i] && was[j] ==> !was[k] {
      NotThree(idx, i, j, k);
    }
  }

  lemma NotThree(idx: seq<nat>, i: nat, j: nat, k: nat)
    requires |idx| < 3 && i != j && i != k && j != k
    ensures i in idx && j in idx ==> k !in idx
  {
    assert |idx| == 2 ==> idx == [idx[0], idx[1]];
    assert |idx| == 1 ==> idx == [idx[0]];
  }

  lemma Start(d: Disk)
    requires d.Sized() && (forall i :: 0 <= i < NUM ==> d.free[i]) && d.availIdx == d.usedIdx == d.usedId == 0
    ensures Inv(d, Trace(map[], map[], [], [], 0, 0))
  {
  }

  lemma InvSized(d: Disk, t: Trace)
    requires Inv(d, t)
    ensures d.Sized()
  {
  }

  lemma PickedPost(d: Disk, t: Trace, r: Req, now: seq<bool>, idx: seq<nat>)
    requires d.Sized() && Picked(d.free, now, idx) && |idx| == 3 && forall h :: h in t.out ==> t.out[h].req != r
    ensures CanPost(d, t, r, idx[0], idx[1], idx[2]) && !FewerThan3(d.free)
    ensures now == d.free[idx[0] := false][idx[1] := false][idx[2] := false]
  {
    var a, b, c := idx[0], idx[1], idx[2];
    var lo := if a < b && a < c then a else if b < c then b else c;
    var hi := if a > b && a > c then a else if b > c then b else c;
    var mid := a + b + c - lo - hi;
    assert lo < mid < hi && d.free[lo] && d.free[mid] && d.free[hi];
  }

  lemma HeadNew(d: Disk, t: Trace, i: nat)
    requires Inv(d, t) && i < NUM && d.free[i]
    ensures i !in t.out
  {
    hide Rings, Flags;
    FreeNotHead(d, t, i);
  }

  /** Reporting sets the flags of the done requests, which were not set, and no others. */
  lemma ReportedFlags(d: Disk, t: Trace, d': Disk, t': Trace)
    requires Inv(d, t) && Inv(d', t') && t' == AllReported(t)
    ensures t'.out == t.out
    ensures forall h :: h in t.out ==> t.out[h].req in d.ready && t.out[h].req in d'.ready
    ensures forall h :: h in t.out && h !in t.usedQ ==> d'.ready[t.out[h].req] == d.ready[t.out[h].req]
    ensures forall h :: h in t.usedQ ==> h in t.out && !d.ready[t.out[h].req] && d'.ready[t.out[h].req]
  {
    FlagsOf(d, t);
    FlagsOf(d', t');
    ReportedPhases(t);
    hide Inv, AllReported;
  }

  lemma FlagsOf(d: Disk, t: Trace)
    requires Inv(d, t)
    ensures Flags(d, t) && t.phase.Keys == t.out.Keys && forall h :: h in t.usedQ <==> h in t.phase && t.phase[h].Done?
  {
  }

  lemma BusyChain(d: Disk, t: Trace, h: nat)
    requires Inv(d, t) && h in t.out
    ensures Formed(d, h, t.out[h]) && !d.free[h] && !d.free[t.out[h].second] && !d.free[t.out[h].third]
  {
    hide Rings, Flags;
    ChainFormed(d, t, h);
    var c := t.out[h];
    assert h in Members(h, c) && c.second in Members(h, c) && c.third in Members(h, c);
  }

  // ----- reporting all that is done

  /** Every done request becomes reported. */
  ghost function AllReported(t: Trace): Trace
    decreases |t.usedQ|
  {
    if t.usedQ == [] then t else AllReported(ReportTrace(t))
  }

  lemma ReportedStep(t: Trace)
    requires t.usedQ != []
    ensures AllReported(t) == AllReported(ReportTrace(t))
  {
  }

  lemma ReportedNone(t: Trace)
    requires t.usedQ == []
    ensures AllReported(t) == t
  {
  }

  lemma {:induction false} ReportedPhases(t: Trace)
    requires t.phase.Keys == t.out.Keys && forall h :: h in t.usedQ ==> h in t.phase
    ensures var u := AllReported(t);
            && u.out == t.out && u.phase.Keys == t.phase.Keys
            && (forall h :: h in t.phase ==> u.phase[h] == if h in t.usedQ then Reported else t.phase[h])
    decreases |t.usedQ|
  {
    if t.usedQ != [] {
      ReportedPhases(ReportTrace(t));
    }
  }
}
