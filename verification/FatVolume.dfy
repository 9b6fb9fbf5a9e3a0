/**
 The operations of the FAT32 super block, on the sectors of the disk: reading and writing FAT entries, clearing and
 allocating clusters, moving bytes in and out of a cluster.
 */
module FatVolume {
  import opened Basics
  import opened FatDisk

  // ----- views

  ghost predicate Data(v: Vol, c: nat) {
    2 <= c < |v.data| + 2 <= |v.fat| && |v.data| + 2 <= EOC
  }

  function WithFat(v: Vol, c: nat, w: nat): Vol
    requires c < |v.fat|
  {
    v.(fat := v.fat[c := w])
  }

  function WithData(v: Vol, c: nat, b: seq<Byte>): Vol
    requires 2 <= c < |v.data| + 2
  {
    v.(data := v.data[c - 2 := b])
  }

  /** What follows cluster c: an end mark follows itself, and nothing follows a number past the data area. */
  function Next(v: Vol, c: nat): nat
    requires |v.data| + 2 <= |v.fat|
  {
    if c >= EOC then c else if c > |v.data| + 1 then 0 else v.fat[c]
  }

  /** The FAT slots that name no data cluster are marked as used. */
  ghost predicate Reserved(v: Vol) {
    && |v.data| + 2 <= |v.fat| && |v.data| + 2 <= EOC
    && (forall c :: 0 <= c < |v.fat| && !(2 <= c < |v.data| + 2) ==> v.fat[c] != 0)
  }

  function Zeros(n: nat): (z: seq<Byte>)
    ensures |z| == n && forall i :: 0 <= i < n ==> z[i] == 0
  {
    seq(n, _ => 0)
  }

  /** c is the lowest free cluster. */
  ghost predicate Lowest(v: Vol, c: nat) {
    c < |v.fat| && v.fat[c] == 0 && forall e :: 0 <= e < c ==> v.fat[e] != 0
  }

  /** The view after cluster c is allocated: marked as the end of a chain, and cleared. */
  function Allocated(v: Vol, c: nat): Vol
    requires 2 <= c < |v.data| + 2 <= |v.fat|
  {
    WithData(WithFat(v, c, EOC + 7), c, Zeros(|v.data[c - 2]|))
  }

  // ----- the sector a byte of a cluster is in, and where in it

  function SecOf(k: nat): nat { k / BPS }

  function OffOf(k: nat): (o: nat)
    ensures o < BPS
  {
    k % BPS
  }

  lemma OffTwice(k: nat)
    ensures OffOf(OffOf(k)) == OffOf(k)
  {
  }

  lemma NextSector(at: nat, o: nat, m: nat)
    requires OffOf(o) == OffOf(at) && m <= BPS - OffOf(o)
    ensures m == BPS - OffOf(o) ==> SecOf(at + m) == SecOf(at) + 1 && OffOf(o + m) == OffOf(at + m)
  {
  }

  // ----- one loop step of a method that moves bytes

  /** w is v with the first t bytes of s stored in cluster c from an offset on. */
  ghost predicate Stored(v: Vol, w: Vol, c: nat, off: nat, s: seq<Byte>, t: nat) {
    && 2 <= c < |v.data| + 2 && t <= |s| && off + |s| <= |v.data[c - 2]|
    && w == WithData(v, c, Splice(v.data[c - 2], off, s[..t]))
  }

  lemma StoredStart(v: Vol, c: nat, off: nat, s: seq<Byte>)
    requires 2 <= c < |v.data| + 2 && off + |s| <= |v.data[c - 2]|
    ensures Stored(v, v, c, off, s, 0)
  {
    var b := v.data[c - 2];
    assert Splice(b, off, s[..0]) == b;
    assert v.data[c - 2 := b] == v.data;
  }

  lemma StoredEnd(v: Vol, w: Vol, c: nat, off: nat, s: seq<Byte>)
    requires Stored(v, w, c, off, s, |s|)
    ensures w == WithData(v, c, Splice(v.data[c - 2], off, s))
  {
    assert s[..|s|] == s;
  }

  lemma SpliceMore(b: seq<Byte>, o: nat, s: seq<Byte>, t: nat, m: nat)
    requires o + t + m <= |b| && t + m <= |s|
    ensures Splice(Splice(b, o, s[..t]), o + t, s[t..t + m]) == Splice(b, o, s[..t + m])
  {
  }

  /** Storing a piece that stays within one sector. */
  lemma StoredMore(g: Geometry, d: seq<Sector>, v: Vol, c: nat, off: nat, s: seq<Byte>, t: nat, m: nat)
    requires Fits(g, d) && |v.data| == g.clusters && Stored(v, View(g, d), c, off, s, t)
    requires 0 < m && t + m <= |s| && |v.data[c - 2]| == g.Bpc() && OffOf(off + t) + m <= BPS
    ensures g.FirstSec(c) + SecOf(off + t) < |d|
    ensures var sec := g.FirstSec(c) + SecOf(off + t);
            var d' := d[sec := Splice(d[sec], OffOf(off + t), s[t..t + m])];
            Fits(g, d') && Stored(v, View(g, d'), c, off, s, t + m)
  {
    var i := SecOf(off + t);
    assert i < g.spc by {
      assert i * BPS <= off + t < g.spc * BPS;
    }
    DataWritten(g, d, c, i, OffOf(off + t), s[t..t + m]);
    assert i * BPS + OffOf(off + t) == off + t;
    SpliceMore(v.data[c - 2], off, s, t, m);
  }

  /** A piece of a cluster that stays within one sector is a piece of that sector. */
  lemma Piece(g: Geometry, d: seq<Sector>, c: nat, at: nat, m: nat)
    requires Fits(g, d) && 2 <= c < g.clusters + 2 && at + m <= g.Bpc() && OffOf(at) + m <= BPS && m > 0
    ensures g.FirstSec(c) + SecOf(at) < |d|
    ensures View(g, d).data[c - 2][at..at + m] == d[g.FirstSec(c) + SecOf(at)][OffOf(at)..OffOf(at) + m]
  {
    FirstSecBound(g, c);
    assert SecOf(at) < g.spc;
    var b := View(g, d).data[c - 2];
    assert b == Cluster(g, d, c);
    forall k | at <= k < at + m
      ensures b[k] == d[g.FirstSec(c) + SecOf(at)][OffOf(at) + (k - at)]
    {
      assert k / BPS == SecOf(at) && k % BPS == OffOf(at) + (k - at);
    }
  }

  lemma Joined(b: seq<Byte>, off: nat, t: nat, m: nat)
    requires off + t + m <= |b|
    ensures b[off..off + t] + b[off + t..off + t + m] == b[off..off + (t + m)]
  {
  }

  lemma ZerosSplit(n: nat, i: nat, m: nat)
    requires i + m <= n
    ensures Zeros(n)[i..i + m] == Zeros(m)
  {
  }

  lemma AllZeros(b: seq<Byte>)
    ensures Splice(b, 0, Zeros(|b|)) == Zeros(|b|)
  {
  }

  /** The word the allocator looks at is the FAT entry it means. */
  lemma EntryWord(g: Geometry, d: seq<Sector>, i: nat, j: nat)
    requires Fits(g, d) && i < g.fatSz && j < PER_SEC
    ensures var c := i * PER_SEC + j;
            && c < g.Entries() && g.FatSec(c) == g.rsvd + i < |d| && g.FatOff(c) == 4 * j
            && View(g, d).fat[c] == Word(d[g.rsvd + i], 4 * j)
  {
    var c := i * PER_SEC + j;
    FatSecBound(g, c);
    assert View(g, d).fat[c] == FatEntry(g, d, c);
  }

  /** The FAT slots below n are all in use. */
  ghost predicate NoneBelow(v: Vol, n: nat) {
    n <= |v.fat| && forall e :: 0 <= e < n ==> v.fat[e] != 0
  }

  lemma FreeIsLowest(v: Vol, c: nat)
    requires NoneBelow(v, c) && c < |v.fat| && v.fat[c] == 0
    ensures Lowest(v, c)
  {
  }

  /**
   The lowest free slot is that of a data cluster exactly if a data cluster is free and the first two slots, which stand
   for no cluster, are marked.  On a full disk whose FAT has unmarked slots past the data area it is one of those.
   */
  lemma LowestIsDataIff(v: Vol, c: nat)
    requires |v.data| + 2 <= |v.fat| && |v.data| + 2 <= EOC && Lowest(v, c)
    ensures Data(v, c) <==> v.fat[0] != 0 && v.fat[1] != 0 && exists e :: 2 <= e < |v.data| + 2 && v.fat[e] == 0
  {
  }

  lemma ReservedIsData(v: Vol, c: nat)
    requires Reserved(v) && Lowest(v, c)
    ensures Data(v, c)
  {
  }

  class Volume {
    const g: Geometry
    var disk: seq<Sector>

    ghost predicate Valid()
      reads this
    {
      Fits(g, disk)
    }

    ghost function V(): Vol
      requires Valid()
      reads this
    {
      View(g, disk)
    }

    constructor (g: Geometry, disk: seq<Sector>)
      requires Fits(g, disk)
      ensures Valid() && this.g == g && this.disk == disk
    {
      this.g, this.disk := g, disk;
    }

    method FatRead(c: nat) returns (r: nat)
      requires Valid()
      ensures r == Next(V(), c)
    {
      if c >= EOC {
        return c;
      }
      if c > g.clusters + 1 {
        return 0;
      }
      FatSecBound(g, c);
      r := Word(disk[g.FatSec(c)], g.FatOff(c));
    }

    method FatWrite(c: nat, w: nat) returns (ok: bool)
      requires Valid() && w < 0x1_0000_0000
      modifies this
      ensures Valid() && ok == (c < |V().data| + 2)
      ensures V() == if ok then WithFat(old(V()), c, w) else old(V())
    {
      hide View, Word, SetWord;
      if c > g.clusters + 1 {
        return false;
      }
      FatWritten(g, disk, c, w);
      var sec := g.FatSec(c);
      disk := disk[sec := SetWord(disk[sec], g.FatOff(c), w)];
      ok := true;
    }

    method ClearClus(c: nat)
      requires Valid() && 2 <= c < |V().data| + 2
      modifies this
      ensures Valid() && V() == WithData(old(V()), c, Zeros(g.Bpc()))
    {
      hide View, Splice, Stored, WithData, Zeros;
      ghost var v := V();
      ghost var z := Zeros(g.Bpc());
      var sec := g.FirstSec(c);
      var i := 0;
      StoredStart(v, c, 0, z);
      while i < g.spc
        invariant 0 <= i <= g.spc && sec == g.FirstSec(c) + i
        invariant Valid() && Stored(v, V(), c, 0, z, i * BPS)
      {
        StoredMore(g, disk, v, c, 0, z, i * BPS, BPS);
        ZerosSplit(|z|, i * BPS, BPS);
        disk := disk[sec := Splice(disk[sec], 0, Zeros(BPS))];
        sec, i := sec + 1, i + 1;
      }
      StoredEnd(v, V(), c, 0, z);
      AllZeros(v.data[c - 2]);
    }

    /** Takes the lowest free slot; if that is no data cluster's, sectors outside the data area are cleared. */
    method AllocClus() returns (r: Option<nat>)
      requires Valid()
      modifies this
      ensures r.None? ==> Valid() && disk == old(disk) && NoneBelow(V(), |V().fat|)
      ensures r.Some? ==> Lowest(old(V()), r.value)
      ensures r.Some? && 2 <= r.value < |old(V()).data| + 2 ==> Valid() && V() == Allocated(old(V()), r.value)
    {
      hide View, Word, SetWord, Zeros, Lowest;
      ghost var v := V();
      var sec := g.rsvd;
      var i := 0;
      while i < g.fatSz
        invariant 0 <= i <= g.fatSz && sec == g.rsvd + i
        invariant disk == old(disk) && NoneBelow(v, i * PER_SEC)
      {
        var j := 0;
        while j < PER_SEC
          invariant 0 <= j <= PER_SEC
          invariant disk == old(disk) && NoneBelow(v, i * PER_SEC + j)
        {
          var c := i * PER_SEC + j;
          EntryWord(g, disk, i, j);
          if Word(disk[sec], 4 * j) == 0 {
            FreeIsLowest(v, c);
            FatWritten(g, disk, c, EOC + 7);
            disk := disk[sec := SetWord(disk[sec], 4 * j, EOC + 7)];
            if 2 <= c < g.clusters + 2 {
              ClearClus(c);
            }
            return Some(c);
          }
          j := j + 1;
        }
        sec, i := sec + 1, i + 1;
      }
      r := None;
    }

    /** The part of rwClus that stores: puts s into cluster c at an offset. */
    method WriteClus(c: nat, s: seq<Byte>, off: nat) returns (tot: nat)
      requires Valid() && 2 <= c < |V().data| + 2 && off + |s| <= |V().data[c - 2]|
      modifies this
      ensures Valid() && tot == |s|
      ensures V() == WithData(old(V()), c, Splice(old(V()).data[c - 2], off, s))
    {
      hide SecOf, OffOf, View, Splice, Stored, WithData, Geometry.FirstSec, Geometry.Sectors, Geometry.Entries;
      ghost var v := V();
      var sec := g.FirstSec(c) + SecOf(off);
      var o: nat := OffOf(off);
      OffTwice(off);
      tot := 0;
      StoredStart(v, c, off, s);
      while tot < |s|
        invariant 0 <= tot <= |s|
        invariant tot < |s| ==> sec == g.FirstSec(c) + SecOf(off + tot) && OffOf(o) == OffOf(off + tot)
        invariant Valid() && Stored(v, V(), c, off, s, tot)
      {
        var m := BPS - OffOf(o);
        if |s| - tot < m {
          m := |s| - tot;
        }
        NextSector(off + tot, o, m);
        StoredMore(g, disk, v, c, off, s, tot, m);
        disk := disk[sec := Splice(disk[sec], OffOf(o), s[tot..tot + m])];
        tot, o, sec := tot + m, o + m, sec + 1;
      }
      StoredEnd(v, V(), c, off, s);
    }

    /** The part of rwClus that loads: fetches len bytes of cluster c from an offset on. */
    method ReadClus(c: nat, off: nat, len: nat) returns (s: seq<Byte>)
      requires Valid() && 2 <= c < |V().data| + 2 && off + len <= |V().data[c - 2]|
      ensures s == V().data[c - 2][off..off + len]
    {
      hide SecOf, OffOf, View, Splice, Stored, WithData, Geometry.FirstSec, Geometry.Sectors, Geometry.Entries;
      ghost var b := V().data[c - 2];
      var sec := g.FirstSec(c) + SecOf(off);
      var o: nat := OffOf(off);
      OffTwice(off);
      var tot := 0;
      s := [];
      while tot < len
        invariant 0 <= tot <= len
        invariant tot < len ==> sec == g.FirstSec(c) + SecOf(off + tot) && OffOf(o) == OffOf(off + tot)
        invariant s == b[off..off + tot]
      {
        var m := BPS - OffOf(o);
        if len - tot < m {
          m := len - tot;
        }
        NextSector(off + tot, o, m);
        Piece(g, disk, c, off + tot, m);
        Joined(b, off, tot, m);
        s := s + disk[sec][OffOf(o)..OffOf(o) + m];
        tot, o, sec := tot + m, o + m, sec + 1;
      }
    }
  }
}
