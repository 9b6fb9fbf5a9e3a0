/**
 A file on the volume: the cached cluster cursor, reading, writing and truncating.

 The ghost field `chain` is the file's cluster chain.  The contents of the file are the first `size` bytes of its
 clusters, and each operation is specified by what it does to those contents.
 */
module FatFile {
  import opened Basics
  import opened FatDisk
  import opened FatVolume
  import opened FatChain

  datatype Where = At(off: nat) | Missing | NoSpace
  datatype Written = Wrote(count: nat) | Rejected | Full

  // ----- one step of a growing chain

  /** The chain has grown by cleared clusters. */
  ghost predicate Padded(v: Vol, w: Vol, n: nat, ch: seq<nat>, ch': seq<nat>) {
    && Grown(v, w, n, ch, ch')
    && Bytes(w, ch') == Bytes(v, ch) + Zeros(Pos(|ch'| - |ch|, n))
  }

  lemma PaddedRefl(v: Vol, n: nat, ch: seq<nat>)
    requires Sound(v, n) && (ch == [] || Chain(v, ch))
    ensures Padded(v, v, n, ch, ch)
  {
    GrownRefl(v, n, ch);
  }

  lemma ZerosMore(b: seq<Byte>, k: nat, n: nat)
    ensures b + Zeros(Pos(k, n)) + Zeros(n) == b + Zeros(Pos(k + 1, n))
  {
    PosStep(k, n, k + 1);
  }

  lemma ZerosJoin(b: seq<Byte>, i: nat, j: nat, n: nat)
    ensures b + Zeros(Pos(i, n)) + Zeros(Pos(j, n)) == b + Zeros(Pos(i + j, n))
  {
    assert Pos(i + j, n) == Pos(i, n) + Pos(j, n);
  }

  lemma PaddedMore(v: Vol, w: Vol, n: nat, ch: seq<nat>, ch': seq<nat>, c: nat)
    requires Padded(v, w, n, ch, ch') && ch' != [] && Data(w, c) && w.fat[c] == 0
    ensures Padded(v, Linked(w, ch', c), n, ch, ch' + [c])
  {
    Extended(w, n, ch', c);
    BytesExtended(w, n, ch', c);
    var w' := Linked(w, ch', c);
    GrownTrans(v, w, w', n, ch, ch', ch' + [c]);
    ZerosMore(Bytes(v, ch), |ch'| - |ch|, n);
  }

  lemma PaddedTrans(u: Vol, v: Vol, w: Vol, n: nat, a: seq<nat>, b: seq<nat>, c: seq<nat>)
    requires Padded(u, v, n, a, b) && Padded(v, w, n, b, c)
    ensures Padded(u, w, n, a, c)
  {
    GrownTrans(u, v, w, n, a, b, c);
    ZerosJoin(Bytes(u, a), |b| - |a|, |c| - |b|, n);
  }

  lemma LowestFree(v: Vol, c: nat)
    requires Lowest(v, c) && Data(v, c)
    ensures v.fat[c] == 0 && c < 0x1_0000_0000
  {
  }

  lemma LinkedView(v: Vol, ch: seq<nat>, c: nat)
    requires Chain(v, ch) && Data(v, c)
    ensures ch[|ch| - 1] < |v.data| + 2 <= |v.fat|
    ensures Linked(v, ch, c) == WithFat(Allocated(v, c), ch[|ch| - 1], c)
  {
    assert Data(v, ch[|ch| - 1]);
  }

  /** Where the FAT leads from link k of a chain. */
  lemma NextLink(v: Vol, n: nat, ch: seq<nat>, k: nat)
    requires Sound(v, n) && Chain(v, ch) && k < |ch|
    ensures Data(v, ch[k]) && Next(v, ch[k]) < 0x1000_0000
    ensures k < |ch| - 1 ==> Next(v, ch[k]) == ch[k + 1] < EOC
    ensures k == |ch| - 1 ==> Next(v, ch[k]) >= EOC
  {
    assert k < |ch| - 1 ==> Data(v, ch[k + 1]);
  }

  /** ch is the chain of a file with this first cluster and size. */
  ghost predicate Held(v: Vol, n: nat, ch: seq<nat>, first: nat, size: nat) {
    && Sound(v, n)
    && (first == 0 ==> ch == [] && size == 0)
    && (first != 0 ==> Chain(v, ch) && ch[0] == first)
    && size <= |Bytes(v, ch)|
  }

  lemma HeldPadded(v: Vol, w: Vol, n: nat, ch: seq<nat>, ch': seq<nat>, first: nat, size: nat)
    requires Held(v, n, ch, first, size) && Padded(v, w, n, ch, ch') && first != 0
    ensures Held(w, n, ch', first, size)
  {
  }

  lemma HeldChain(v: Vol, n: nat, ch: seq<nat>, first: nat, size: nat)
    requires Held(v, n, ch, first, size) && first != 0
    ensures n > 0 && Sound(v, n) && Chain(v, ch) && |ch| > 0 && ch[0] == first && Reserved(v)
  {
  }

  // ----- positions

  function LinkOf(off: nat, n: nat): nat
    requires n > 0
  {
    off / n
  }

  function InLink(off: nat, n: nat): (o: nat)
    requires n > 0
    ensures o < n
  {
    off % n
  }

  lemma LinkSplit(off: nat, n: nat)
    requires n > 0
    ensures off == Pos(LinkOf(off, n), n) + InLink(off, n)
  {
  }

  lemma LinkBelow(off: nat, n: nat, l: nat)
    requires n > 0
    ensures LinkOf(off, n) < l <==> off < Pos(l, n)
  {
    LinkSplit(off, n);
    var k := LinkOf(off, n);
    if k < l {
      PosStep(k, n, l);
    } else if l < k {
      PosStep(l, n, k);
    }
  }

  class DirEnt {
    const vol: Volume
    const readOnly: bool
    const directory: bool
    var first: nat
    var size: nat
    var cur: nat
    var cnt: nat
    ghost var chain: seq<nat>

    ghost function N(): nat { vol.g.Bpc() }

    ghost predicate Valid()
      reads this, vol
    {
      && vol.Valid() && Held(vol.V(), N(), chain, first, size)
      && (first != 0 ==> Cursor())
    }

    /** The cursor is where a walk of cnt links from the first cluster ends. */
    ghost predicate Cursor()
      reads this
    {
      cnt < |chain| && cur == chain[cnt]
    }

    /** The contents of the file. */
    ghost function File(): seq<Byte>
      requires Valid()
      reads this, vol
    {
      Bytes(vol.V(), chain)[..size]
    }

    /** A file as its directory entry describes it. */
    constructor (vol: Volume, first: nat, size: nat, readOnly: bool, directory: bool, ghost chain: seq<nat>)
      requires vol.Valid() && Held(vol.V(), vol.g.Bpc(), chain, first, size)
      ensures Valid() && this.vol == vol && this.first == first && this.size == size && this.chain == chain
      ensures this.readOnly == readOnly && this.directory == directory
    {
      this.vol, this.first, this.size, this.readOnly, this.directory := vol, first, size, readOnly, directory;
      this.cur, this.cnt, this.chain := first, 0, chain;
    }

    /** The growing branch of relocClus: hangs a fresh cluster on to the end of the chain. */
    method Lengthen() returns (c: Option<nat>)
      requires Valid() && first != 0 && cnt == |chain| - 1
      modifies vol, this`chain
      ensures c.None? ==> vol.disk == old(vol.disk) && chain == old(chain) && NoneBelow(vol.V(), |vol.V().fat|)
      ensures vol.Valid() && Held(vol.V(), N(), chain, first, size) && old(chain) <= chain
      ensures Padded(old(vol.V()), vol.V(), N(), old(chain), chain)
      ensures c.Some? ==> chain == old(chain) + [c.value]
    {
      hide Padded, Held, Sound, Chain, Bytes, Next, NoneBelow, Linked, Lowest, Reserved, View, Data, Allocated, WithFat,
        Fits;
      ghost var v, n := vol.V(), N();
      HeldChain(v, n, chain, first, size);
      PaddedRefl(v, n, chain);
      c := vol.AllocClus();
      if c.Some? {
        ReservedIsData(v, c.value);
        LowestFree(v, c.value);
        LinkedView(v, chain, c.value);
        PaddedMore(v, v, n, chain, chain, c.value);
        var _ := vol.FatWrite(cur, c.value);
        HeldPadded(v, vol.V(), n, chain, chain + [c.value], first, size);
        chain := chain + [c.value];
      }
    }

    /** The rewinding branch of relocClus.  Its panic cannot happen. */
    method Rewind(num: nat)
      requires Valid() && first != 0 && num < |chain|
      modifies `cur, `cnt
      ensures Valid() && cnt == num
    {
      hide Held, Sound, Chain, Bytes, Next, View;
      HeldChain(vol.V(), N(), chain, first, size);
      cur, cnt := first, 0;
      while cnt < num
        invariant cnt <= num && Cursor()
      {
        NextLink(vol.V(), N(), chain, cnt);
        cur := vol.FatRead(cur);
        if cur >= EOC {
          assert false;
        }
        cnt := cnt + 1;
      }
    }

    /** Moves the cursor to the link an offset lies in. */
    method RelocClus(off: nat, alloc: bool) returns (r: Where)
      requires Valid() && first != 0
      modifies this, vol
      ensures Valid() && first == old(first) && size == old(size)
      ensures Padded(old(vol.V()), vol.V(), N(), old(chain), chain)
      ensures !alloc ==> vol.disk == old(vol.disk) && chain == old(chain)
      ensures r.At? ==> LinkOf(off, N()) < |chain| && cnt == LinkOf(off, N()) && r.off == InLink(off, N())
      ensures LinkOf(off, N()) < |old(chain)| ==> r.At? && chain == old(chain)
      ensures r.Missing? ==> !alloc && LinkOf(off, N()) >= |chain| && cnt == 0
      ensures r.NoSpace? ==> alloc && LinkOf(off, N()) >= |chain| && NoneBelow(vol.V(), |vol.V().fat|)
    {
      hide LinkOf, InLink, Padded, Held, Sound, Chain, Bytes, Next, NoneBelow, View, Data, Fits;
      ghost var v, n := vol.V(), N();
      HeldChain(v, n, chain, first, size);
      var num := LinkOf(off, vol.g.Bpc());
      PaddedRefl(v, n, chain);
      while num > cnt
        invariant Valid() && first == old(first) != 0 && size == old(size)
        invariant Padded(v, vol.V(), n, old(chain), chain) && |old(chain)| <= |chain|
        invariant !alloc || num < |old(chain)| ==> vol.disk == old(vol.disk) && chain == old(chain)
        decreases num - cnt
      {
        HeldChain(vol.V(), n, chain, first, size);
        NextLink(vol.V(), n, chain, cnt);
        var clus := vol.FatRead(cur);
        if clus >= EOC {
          if alloc {
            ghost var w, ch := vol.V(), chain;
            var c := Lengthen();
            if c.None? {
              return NoSpace;
            }
            clus := c.value;
            PaddedTrans(v, w, vol.V(), n, old(chain), ch, chain);
          } else {
            cur, cnt := first, 0;
            return Missing;
          }
        }
        cur, cnt := clus, cnt + 1;
      }
      if num < cnt {
        Rewind(num);
      }
      r := At(InLink(off, vol.g.Bpc()));
    }

    /** Reads the bytes of the file from an offset on, as many as there are. */
    method EntRead(off: nat, len: nat) returns (s: seq<Byte>)
      requires Valid()
      modifies this, vol
      ensures Valid() && vol.disk == old(vol.disk) && chain == old(chain) && first == old(first) && size == old(size)
      ensures s == ReadOf(File(), off, len, directory)
    {
      hide LinkOf, InLink, Pos, Padded, Held, Links, Sound, Chain, Bytes, View, ReadOf, Fits, Data;
      s := [];
      HeldSize(vol.V(), N(), chain, first, size);
      ReadOfSlice(Bytes(vol.V(), chain), size, off, len, directory);
      if off > size || off + len >= 0x1_0000_0000 || directory {
        return;
      }
      var end := if off + len > size then size else off + len;
      var at, tot := off, 0;
      ghost var b := Bytes(vol.V(), chain);
      while cur < EOC && tot < end - off
        invariant Valid() && vol.disk == old(vol.disk) && chain == old(chain) && first == old(first) &&
                  size == old(size)
        invariant 0 <= tot <= end - off && at == off + tot && s == b[off..at]
        invariant tot < end - off ==> cur < EOC
        decreases end - off - tot
      {
        HeldLinks(vol.V(), N(), chain, first, size, at);
        var _ := RelocClus(at, false);
        HeldSize(vol.V(), N(), chain, first, size);
        var m := vol.g.Bpc() - InLink(at, vol.g.Bpc());
        if end - off - tot < m {
          m := end - off - tot;
        }
        BytesRead(vol.V(), N(), chain, LinkOf(at, N()), InLink(at, N()), m);
        var t := vol.ReadClus(cur, InLink(at, vol.g.Bpc()), m);
        assert t == b[off + tot..off + tot + m];
        Joined(b, off, tot, m);
        s := s + t;
        tot, at := tot + m, at + m;
      }
    }

    /** Writes src over the file from an offset on. */
    method EntWrite(src: seq<Byte>, off: nat) returns (r: Written)
      requires Valid()
      modifies this, vol
      ensures Valid() && Grown(old(vol.V()), vol.V(), N(), old(chain), chain)
      ensures r.Rejected? <==> off > old(size) || off + |src| > 0xFFFF_FFFF || readOnly
      ensures r.Rejected? ==> vol.disk == old(vol.disk) && size == old(size) && chain == old(chain)
      ensures r.Wrote? ==> r.count == |src| && File() == Overwritten(old(File()), off, src)
      ensures r.Full? ==> size == old(size) && NoneBelow(vol.V(), |vol.V().fat|)
    {
      hide LinkOf, InLink, Pos, Padded, Held, Links, Sound, Chain, Bytes, View, Splice, Grown, Partly, NoneBelow;
      ghost var v, n, ch := vol.V(), N(), chain;
      HeldSize(v, n, chain, first, size);
      HeldGrown(v, n, chain, first, size);
      if off > size || off + |src| > 0xFFFF_FFFF || readOnly {
        return Rejected;
      }
      if first == 0 {
        var c := vol.AllocClus();
        if c.None? {
          return Full;
        }
        first := c.value;
        cur, cnt, chain := first, 0, [first];
        LowestFree(v, first);
        PaddedFirst(v, n, first);
      }
      PartlyStart(v, vol.V(), n, ch, chain, off, src);
      var at, tot := off, 0;
      while tot < |src|
        invariant Valid() && first != 0 && size == old(size)
        invariant tot <= |src| && at == off + tot && Partly(v, vol.V(), n, ch, chain, off, src, tot)
      {
        ghost var w, c0 := vol.V(), chain;
        var p := RelocClus(at, true);
        PartlyGrown(v, w, vol.V(), n, ch, c0, chain, off, src, tot);
        if p.NoSpace? {
          return Full;
        }
        var m := vol.g.Bpc() - InLink(at, vol.g.Bpc());
        if |src| - tot < m {
          m := |src| - tot;
        }
        PartlyMore(v, vol.V(), n, ch, chain, off, src, tot, m, first, size);
        var _ := vol.WriteClus(cur, src[tot..tot + m], InLink(at, vol.g.Bpc()));
        tot, at := tot + m, at + m;
      }
      PartlyAll(v, vol.V(), n, ch, chain, off, src, size, first);
      if |src| > 0 && at > size {
        size := at;
      }
      r := Wrote(tot);
    }

    /** Frees the clusters of the file.  Nothing is asked of the FAT: the loop ends on a cyclic one too. */
    method EntTrunc()
      requires vol.Valid()
      modifies this, vol
      ensures vol.Valid() && vol.V() == Freed(old(vol.V()), Walk(old(vol.V()), old(first))) && first == 0 && size == 0
      ensures old(Valid()) ==> Valid() && chain == [] && vol.V() == Freed(old(vol.V()), old(chain))
    {
      hide Walk, Freed, Used, Held, View;
      ghost var v := vol.V();
      var clus: nat := first;
      while 2 <= clus < EOC
        invariant vol.Valid() && first == old(first) && size == old(size) && chain == old(chain)
        invariant Freed(vol.V(), Walk(vol.V(), clus)) == Freed(v, Walk(v, first))
        decreases Used(vol.V().fat), if clus >= 2 then 1 else 0
      {
        WalkStep(vol.V(), clus);
        var next := vol.FatRead(clus);
        var _ := vol.FatWrite(clus, 0);
        clus := next;
      }
      WalkEnd(vol.V(), clus);
      HeldFreed(v, N(), chain, first, size);
      size := 0;
      first := 0;
      chain := [];
    }
  }

  // ----- truncation

  lemma WalkStep(v: Vol, c: nat)
    requires |v.data| + 2 <= |v.fat| && 2 <= c < EOC
    ensures var w := if c < |v.data| + 2 then WithFat(v, c, 0) else v;
            && Freed(w, Walk(w, Next(v, c))) == Freed(v, Walk(v, c))
            && (Used(w.fat) < Used(v.fat) || (Used(w.fat) == Used(v.fat) && Next(v, c) == 0))
  {
    if c < |v.data| + 2 {
      var w := WithFat(v, c, 0);
      if v.fat[c] != 0 {
        UsedDrops(v.fat, c);
        FreedStep(v, c, Walk(w, v.fat[c]));
      } else {
        assert w.fat == v.fat;
        FreedStep(v, c, []);
        assert [c] + [] == [c];
      }
    }
  }

  lemma WalkEnd(v: Vol, c: nat)
    requires |v.data| + 2 <= |v.fat| && !(2 <= c < EOC)
    ensures Freed(v, Walk(v, c)) == v
  {
    assert Freed(v, []).fat == v.fat;
  }

  lemma HeldFreed(v: Vol, n: nat, ch: seq<nat>, first: nat, size: nat)
    requires |v.data| + 2 <= |v.fat|
    ensures Held(v, n, ch, first, size) ==> Walk(v, first) == ch && Held(Freed(v, ch), n, [], 0, 0)
  {
    if Held(v, n, ch, first, size) {
      if first != 0 {
        WalkChain(v, ch);
        FilesFreed(v, n, {ch}, ch);
      } else {
        assert Freed(v, ch).fat == v.fat;
      }
    }
  }

  // ----- what reading and writing mean

  /** What a read of len bytes at an offset yields. */
  function ReadOf(file: seq<Byte>, off: nat, len: nat, directory: bool): seq<Byte> {
    if off > |file| || off + len >= 0x1_0000_0000 || directory then []
    else if off + len > |file| then file[off..]
    else file[off..off + len]
  }

  lemma ReadOfSlice(b: seq<Byte>, size: nat, off: nat, len: nat, directory: bool)
    requires size <= |b|
    ensures off > size || off + len >= 0x1_0000_0000 || directory ==> ReadOf(b[..size], off, len, directory) == []
    ensures off <= size && off + len < 0x1_0000_0000 && !directory ==>
              ReadOf(b[..size], off, len, directory) == b[off..if off + len > size then size else off + len]
  {
  }

  /** In a file that has a byte at an offset, the offset lies in a link of the chain. */
  lemma HeldLinks(v: Vol, n: nat, ch: seq<nat>, first: nat, size: nat, off: nat)
    requires Held(v, n, ch, first, size) && off < size
    ensures first != 0 && Links(v, n, ch) && Chain(v, ch) && LinkOf(off, n) < |ch|
    ensures off == Pos(LinkOf(off, n), n) + InLink(off, n)
    ensures Data(v, ch[LinkOf(off, n)])
  {
    LinksOf(v, n, ch);
    LinksLength(v, n, ch);
    LinkBelow(off, n, |ch|);
    LinkSplit(off, n);
  }

  lemma HeldSize(v: Vol, n: nat, ch: seq<nat>, first: nat, size: nat)
    requires Held(v, n, ch, first, size)
    ensures size <= |Bytes(v, ch)| && (first == 0 ==> size == 0)
    ensures first != 0 ==> forall k :: 0 <= k < |ch| ==> ch[k] < EOC
  {
    assert first != 0 ==> forall k :: 0 <= k < |ch| ==> Data(v, ch[k]);
  }

  lemma HeldGrown(v: Vol, n: nat, ch: seq<nat>, first: nat, size: nat)
    requires Held(v, n, ch, first, size)
    ensures Grown(v, v, n, ch, ch) && Padded(v, v, n, ch, ch) && Reserved(v) && Sound(v, n)
    ensures first == 0 ==> ch == []
  {
    PaddedRefl(v, n, ch);
  }

  lemma PaddedFirst(v: Vol, n: nat, c: nat)
    requires Sound(v, n) && Data(v, c) && v.fat[c] == 0
    ensures Padded(v, Allocated(v, c), n, [], [c]) && Held(Allocated(v, c), n, [c], c, 0)
  {
    Begun(v, n, c);
    PosStep(0, n, 1);
    assert [c][..0] == [];
  }

  /** A file with s written over it from an offset on. */
  function Overwritten(file: seq<Byte>, off: nat, s: seq<Byte>): seq<Byte>
    requires off <= |file|
  {
    file[..off] + s + if off + |s| < |file| then file[off + |s|..] else []
  }

  /** The first t bytes of s have been written at an offset; the chain has grown by zeros where it had to. */
  ghost predicate Partly(v: Vol, w: Vol, n: nat, ch: seq<nat>, ch': seq<nat>, off: nat, s: seq<Byte>, t: nat) {
    && Grown(v, w, n, ch, ch') && t <= |s|
    && var b := Bytes(v, ch) + Zeros(Pos(|ch'| - |ch|, n));
       if t == 0 then Bytes(w, ch') == b else off + t <= |b| && Bytes(w, ch') == Splice(b, off, s[..t])
  }

  lemma PartlyStart(v: Vol, w: Vol, n: nat, ch: seq<nat>, ch': seq<nat>, off: nat, s: seq<Byte>)
    requires Padded(v, w, n, ch, ch')
    ensures Partly(v, w, n, ch, ch', off, s, 0)
  {
  }

  lemma PartlyGrown(v: Vol, w: Vol, u: Vol, n: nat, ch: seq<nat>, c1: seq<nat>, c2: seq<nat>, off: nat, s: seq<Byte>,
                    t: nat)
    requires Partly(v, w, n, ch, c1, off, s, t) && Padded(w, u, n, c1, c2)
    ensures Partly(v, u, n, ch, c2, off, s, t) && Grown(v, u, n, ch, c2)
  {
    hide Framed, Sound, Chain, Bytes, Splice, Pos, Zeros;
    GrownTrans(v, w, u, n, ch, c1, c2);
    var b, z := Bytes(v, ch), Zeros(Pos(|c2| - |c1|, n));
    var b1 := b + Zeros(Pos(|c1| - |ch|, n));
    if t > 0 {
      SpliceLeft(b1, z, off, s[..t]);
    }
    ZerosJoin(b, |c1| - |ch|, |c2| - |c1|, n);
  }

  lemma PartlyMore(v: Vol, w: Vol, n: nat, ch: seq<nat>, ch': seq<nat>, off: nat, s: seq<Byte>, t: nat, m: nat,
                  first: nat, size: nat)
    requires Partly(v, w, n, ch, ch', off, s, t) && Held(w, n, ch', first, size) && first != 0
    requires t + m <= |s| && n > 0 && InLink(off + t, n) + m <= n && LinkOf(off + t, n) < |ch'|
    ensures var c := ch'[LinkOf(off + t, n)];
            Data(w, c) && |w.data[c - 2]| == n &&
            var w' := WithData(w, c, Splice(w.data[c - 2], InLink(off + t, n), s[t..t + m]));
            Partly(v, w', n, ch, ch', off, s, t + m) && Held(w', n, ch', first, size)
  {
    hide LinkOf, InLink, Pos, Held, Links, Sound, Chain, Bytes, Splice, Grown, WithData, Zeros;
    var k, o := LinkOf(off + t, n), InLink(off + t, n);
    var c := ch'[k];
    HeldChain(w, n, ch', first, size);
    LinkSplit(off + t, n);
    LinksOf(w, n, ch');
    BytesWritten(w, n, ch', k, o, s[t..t + m]);
    var d := Splice(w.data[c - 2], o, s[t..t + m]);
    Rewritten(w, n, ch', c, d);
    GrownTrans(v, w, WithData(w, c, d), n, ch, ch', ch');
    var b := Bytes(v, ch) + Zeros(Pos(|ch'| - |ch|, n));
    SpliceMore(b, off, s, t, m);
    SpliceNone(b, off, s[..0]);
    HeldRewritten(w, WithData(w, c, d), n, ch', first, size);
  }

  lemma HeldRewritten(v: Vol, w: Vol, n: nat, ch: seq<nat>, first: nat, size: nat)
    requires Held(v, n, ch, first, size) && Grown(v, w, n, ch, ch) && |Bytes(w, ch)| == |Bytes(v, ch)|
    ensures Held(w, n, ch, first, size)
  {
  }

  lemma SpliceNone(b: seq<Byte>, off: nat, s: seq<Byte>)
    requires s == [] && off <= |b|
    ensures Splice(b, off, s) == b
  {
  }

  lemma SpliceFile(b: seq<Byte>, z: seq<Byte>, size: nat, off: nat, s: seq<Byte>)
    requires off <= size <= |b| && off + |s| <= |b + z|
    ensures var size' := if off + |s| > size then off + |s| else size;
            Splice(b + z, off, s)[..size'] == Overwritten(b[..size], off, s)
  {
  }

  lemma PartlyAll(v: Vol, w: Vol, n: nat, ch: seq<nat>, ch': seq<nat>, off: nat, s: seq<Byte>, size: nat, first: nat)
    requires Partly(v, w, n, ch, ch', off, s, |s|) && Held(w, n, ch', first, size) && first != 0
    requires off <= size <= |Bytes(v, ch)|
    ensures var size' := if off + |s| > size then off + |s| else size;
            && Held(w, n, ch', first, size') && Grown(v, w, n, ch, ch') && size' <= |Bytes(w, ch')|
            && Bytes(w, ch')[..size'] == Overwritten(Bytes(v, ch)[..size], off, s)
  {
    hide Sound, Chain, Framed, Splice, Bytes, Pos, Zeros, Overwritten;
    assert s[..|s|] == s;
    if s == [] {
      SpliceNone(Bytes(w, ch'), off, s);
    }
    SpliceFile(Bytes(v, ch), Zeros(Pos(|ch'| - |ch|, n)), size, off, s);
  }
}
