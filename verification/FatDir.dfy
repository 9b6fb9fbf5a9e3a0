/** Directories: writing an entry into a directory's clusters, and finding the next one. */
module FatDir {
  import opened Basics
  import opened FatDisk
  import opened FatVolume
  import opened FatChain
  import opened FatFile
  import opened FatName
  import opened FatScan

  lemma AlignedFits(at: nat, g: Geometry)
    requires at % RECORD == 0 && g.spc > 0
    ensures g.Bpc() > 0 && InLink(at, g.Bpc()) + RECORD <= g.Bpc()
  {
    LinkFits(at, g.Bpc(), 16 * g.spc);
  }

  lemma LinkFits(at: nat, n: nat, k: nat)
    requires at % 32 == 0 && n == 32 * k && k > 0
    ensures at % n + 32 <= n
  {
    var q, r := Parts(at, n);
    AlignedRest(at, k, q, r);
  }

  lemma Parts(at: nat, n: nat) returns (q: nat, r: nat)
    requires n > 0
    ensures at == q * n + r && r == at % n < n
  {
    q, r := at / n, at % n;
  }

  lemma AlignedRest(at: nat, k: nat, q: nat, r: nat)
    requires at % 32 == 0 && at == q * (32 * k) + r && r < 32 * k
    ensures r + 32 <= 32 * k
  {
    ThirtySeconds(q, k);
    var c := q * k;
    assert r == 32 * (at / 32 - c);
  }

  lemma ThirtySeconds(q: nat, k: nat)
    ensures q * (32 * k) == 32 * (q * k)
  {
  }

  lemma EncodedNext(e: Entry, n: nat)
    requires e.Storable() && 0 < n <= e.Pieces()
    ensures RECORD <= |Encoded(e, n)| && Encoded(e, n)[RECORD..] == Encoded(e, n - 1)
  {
    hide Lne;
  }

  /** The records of an entry, one after the other. */
  lemma {:induction false} EncodedAt(e: Entry, n: nat, i: nat)
    requires e.Storable() && i <= n <= e.Pieces()
    ensures RECORD * (n - i) <= |Encoded(e, n)| && Encoded(e, n)[RECORD * (n - i)..] == Encoded(e, i)
    decreases n
  {
    hide Encoded;
    if i < n {
      EncodedAt(e, n - 1, i);
      var s, t := Encoded(e, n), Encoded(e, n - 1);
      EncodedNext(e, n);
      DropMore(s, t, RECORD * (n - 1 - i));
    }
  }

  lemma DropMore(s: seq<Byte>, t: seq<Byte>, k: nat)
    requires RECORD <= |s| && s[RECORD..] == t && k <= |t|
    ensures s[RECORD + k..] == t[k..]
  {
  }

  /** Stores one record where an offset of the directory lies. */
  method PutRecord(d: DirEnt, r: Record, at: nat, ghost v: Vol, ghost ch: seq<nat>, ghost off: nat, ghost s: seq<Byte>)
    returns (ok: bool)
    requires d.Valid() && d.first != 0 && off <= at && at % RECORD == 0 && at - off + RECORD <= |s|
    requires Partly(v, d.vol.V(), d.N(), ch, d.chain, off, s, at - off) && s[at - off..at - off + RECORD] == r
    modifies d, d.vol
    ensures d.Valid() && d.first == old(d.first) && d.size == old(d.size)
    ensures Grown(v, d.vol.V(), d.N(), ch, d.chain)
    ensures ok ==> Partly(v, d.vol.V(), d.N(), ch, d.chain, off, s, at - off + RECORD)
    ensures !ok ==> NoneBelow(d.vol.V(), |d.vol.V().fat|)
  {
    hide LinkOf, InLink, Pos, Padded, Held, Links, Sound, Chain, Bytes, View, Splice, Partly, NoneBelow, Framed,
         WithData;
    ghost var w, c0, n, t := d.vol.V(), d.chain, d.N(), at - off;
    var p := d.RelocClus(at, true);
    PartlyGrown(v, w, d.vol.V(), n, ch, c0, d.chain, off, s, t);
    if p.NoSpace? {
      return false;
    }
    AlignedFits(at, d.vol.g);
    PartlyMore(v, d.vol.V(), n, ch, d.chain, off, s, t, RECORD, d.first, d.size);
    var _ := d.vol.WriteClus(d.cur, r, p.off);
    PartlyIsGrown(v, d.vol.V(), n, ch, d.chain, off, s, t + RECORD);
    ok := true;
  }

  lemma PartlyIsGrown(v: Vol, w: Vol, n: nat, ch: seq<nat>, ch': seq<nat>, off: nat, s: seq<Byte>, t: nat)
    requires Partly(v, w, n, ch, ch', off, s, t)
    ensures Grown(v, w, n, ch, ch')
  {
  }

  /** The first two records of a directory are its own and its parent's. */
  method PutDots(d: DirEnt, first: nat, off: nat) returns (ok: bool)
    requires d.Valid() && d.first != 0 && (off == 0 || off == RECORD) && first < 0x1_0000_0000
    modifies d, d.vol
    ensures d.Valid() && Grown(old(d.vol.V()), d.vol.V(), d.N(), old(d.chain), d.chain)
    ensures !ok ==> NoneBelow(d.vol.V(), |d.vol.V().fat|)
    ensures ok ==> Partly(old(d.vol.V()), d.vol.V(), d.N(), old(d.chain), d.chain, off, DotRecord(off, first), RECORD)
    ensures ok ==> FindsDots(ScanAt(Bytes(d.vol.V(), d.chain), off), off, first)
  {
    hide Pos, Padded, Held, Links, Sound, Chain, Bytes, View, Partly, NoneBelow, Grown, ScanAt, FindsDots, DotRecord;
    ghost var v, ch := d.vol.V(), d.chain;
    ghost var s := DotRecord(off, first);
    HeldGrown(v, d.N(), ch, d.first, d.size);
    PartlyStart(v, v, d.N(), ch, ch, off, s);
    assert s[0..RECORD] == s;
    ok := PutRecord(d, DotRecord(off, first), off, v, ch, off, s);
    if ok {
      DotsCreated(v, d.vol.V(), d.N(), ch, d.chain, off, first);
    }
  }

  lemma DotsCreated(v: Vol, w: Vol, n: nat, ch: seq<nat>, ch': seq<nat>, off: nat, first: nat)
    requires first < 0x1_0000_0000 && Partly(v, w, n, ch, ch', off, DotRecord(off, first), RECORD)
    ensures FindsDots(ScanAt(Bytes(w, ch'), off), off, first)
  {
    hide DotRecord, FindsDots, ScanAt, Splice, Bytes, Pos, Zeros, Sound, Chain, Framed;
    var s := DotRecord(off, first);
    assert s[..|s|] == s;
    var b := Bytes(w, ch');
    assert b[off..off + RECORD] == s;
    DotsRead(b, off, first);
  }

  /** The records of a long name and the short record after them. */
  method PutName(d: DirEnt, e: Entry, off: nat) returns (ok: bool)
    requires d.Valid() && d.first != 0 && off % RECORD == 0 && e.Storable()
    modifies d, d.vol
    ensures d.Valid() && Grown(old(d.vol.V()), d.vol.V(), d.N(), old(d.chain), d.chain)
    ensures !ok ==> NoneBelow(d.vol.V(), |d.vol.V().fat|)
    ensures ok ==> Partly(old(d.vol.V()), d.vol.V(), d.N(), old(d.chain), d.chain, off, Encoded(e, e.Pieces()),
                          |Encoded(e, e.Pieces())|)
    ensures ok && |e.name| <= 247 ==> Finds(ScanAt(Bytes(d.vol.V(), d.chain), off), e)
  {
    hide Pos, Padded, Held, Links, Sound, Chain, Bytes, View, Partly, NoneBelow, Grown, Encoded, Finds, ScanAt, Lne,
         Sne;
    ghost var v, ch, s := d.vol.V(), d.chain, Encoded(e, e.Pieces());
    HeldGrown(v, d.N(), ch, d.first, d.size);
    PartlyStart(v, v, d.N(), ch, ch, off, s);
    var n := e.Pieces();
    var de := new Byte[RECORD](_ => 0);
    de[13] := e.sum;
    de[11] := LONG_NAME;
    var i, at := n, off;
    while i > 0
      invariant 0 <= i <= n && at == off + RECORD * (n - i) && d.Valid() && d.first == old(d.first) && fresh(de)
      invariant Grown(v, d.vol.V(), d.N(), ch, d.chain)
      invariant Partly(v, d.vol.V(), d.N(), ch, d.chain, off, s, at - off)
      invariant forall p :: 0 < p < RECORD && !IsText(p) ==>
        de[p] == (if p == 11 then LONG_NAME else if p == 13 then e.sum else 0)
    {
      PackPiece(de, e.name, i, n, e.sum);
      RecordAt(e, n, i);
      ok := PutRecord(d, de[..], at, v, ch, off, s);
      if !ok {
        return;
      }
      i, at := i - 1, at + RECORD;
    }
    RecordAt(e, n, 0);
    ok := PutRecord(d, Sne(e), at, v, ch, off, s);
    if ok {
      Created(v, d.vol.V(), d.N(), ch, d.chain, off, e);
    }
  }

  /** The records of an entry are in the directory at an offset, nothing else has changed, and they are found there. */
  ghost predicate Written(v: Vol, w: Vol, n: nat, ch: seq<nat>, ch': seq<nat>, off: nat, e: Entry)
    requires e.Storable()
  {
    if off <= RECORD then
      && Partly(v, w, n, ch, ch', off, DotRecord(off, e.first), RECORD)
      && FindsDots(ScanAt(Bytes(w, ch'), off), off, e.first)
    else
      && Partly(v, w, n, ch, ch', off, Encoded(e, e.Pieces()), |Encoded(e, e.Pieces())|)
      && (|e.name| <= 247 ==> Finds(ScanAt(Bytes(w, ch'), off), e))
  }

  lemma FirstTwo(off: nat)
    requires off % RECORD == 0 && off <= RECORD
    ensures off == 0 || off == RECORD
  {
  }

  lemma WrittenDots(v: Vol, w: Vol, n: nat, ch: seq<nat>, ch': seq<nat>, off: nat, e: Entry)
    requires e.Storable() && off <= RECORD && Partly(v, w, n, ch, ch', off, DotRecord(off, e.first), RECORD)
    requires FindsDots(ScanAt(Bytes(w, ch'), off), off, e.first)
    ensures Written(v, w, n, ch, ch', off, e)
  {
  }

  lemma WrittenName(v: Vol, w: Vol, n: nat, ch: seq<nat>, ch': seq<nat>, off: nat, e: Entry)
    requires e.Storable() && off > RECORD
    requires Partly(v, w, n, ch, ch', off, Encoded(e, e.Pieces()), |Encoded(e, e.Pieces())|)
    requires |e.name| <= 247 ==> Finds(ScanAt(Bytes(w, ch'), off), e)
    ensures Written(v, w, n, ch, ch', off, e)
  {
  }

  /** Writes the records of an entry into the directory d; reading at that place then yields the entry. */
  method EntCreateOnDisk(d: DirEnt, e: Entry, off: nat) returns (ok: bool)
    requires d.Valid() && d.first != 0 && d.directory && off % RECORD == 0 && e.Storable()
    modifies d, d.vol
    ensures d.Valid() && Grown(old(d.vol.V()), d.vol.V(), d.N(), old(d.chain), d.chain)
    ensures !ok ==> NoneBelow(d.vol.V(), |d.vol.V().fat|)
    ensures ok ==> Written(old(d.vol.V()), d.vol.V(), d.N(), old(d.chain), d.chain, off, e)
  {
    assert e.first < 0x1_0000_0000;
    if off <= RECORD {
      FirstTwo(off);
    }
    hide *;
    ghost var v, n, ch := d.vol.V(), d.N(), d.chain;
    if off <= RECORD {
      ok := PutDots(d, e.first, off);
      if ok {
        WrittenDots(v, d.vol.V(), n, ch, d.chain, off, e);
      }
    } else {
      ok := PutName(d, e, off);
      if ok {
        WrittenName(v, d.vol.V(), n, ch, d.chain, off, e);
      }
    }
  }

  /** The record written when i pieces remain. */
  lemma RecordAt(e: Entry, n: nat, i: nat)
    requires e.Storable() && i <= n == e.Pieces()
    ensures |Encoded(e, n)| == RECORD * (n + 1)
    ensures var t := RECORD * (n - i);
            Encoded(e, n)[t..t + RECORD] == if i == 0 then Sne(e) else Lne(e.name, i, n, e.sum)
  {
    EncodedAt(e, n, i);
    var t := RECORD * (n - i);
    assert Encoded(e, n)[t..t + RECORD] == Encoded(e, n)[t..][..RECORD];
  }

  lemma Created(v: Vol, w: Vol, n: nat, ch: seq<nat>, ch': seq<nat>, off: nat, e: Entry)
    requires e.Storable() && Partly(v, w, n, ch, ch', off, Encoded(e, e.Pieces()), |Encoded(e, e.Pieces())|)
    ensures |e.name| <= 247 ==> Finds(ScanAt(Bytes(w, ch'), off), e)
  {
    hide Encoded, Finds, ScanAt, Splice, Bytes, Pos, Zeros, Sound, Chain, Framed;
    var s := Encoded(e, e.Pieces());
    assert s[..|s|] == s;
    NameRoundTrip(Bytes(v, ch) + Zeros(Pos(|ch'| - |ch|, n)), off, e);
  }

  /** The bytes at an aligned place of a directory, or that there are none. */
  lemma DirBytes(v: Vol, n: nat, ch: seq<nat>, first: nat, size: nat, at: nat)
    requires Held(v, n, ch, first, size) && first != 0 && n > 0 && InLink(at, n) + RECORD <= n
    ensures LinkOf(at, n) >= |ch| ==> at >= |Bytes(v, ch)|
    ensures LinkOf(at, n) < |ch| ==>
              var c := ch[LinkOf(at, n)];
              && Data(v, c) && |v.data[c - 2]| == n && at + RECORD <= |Bytes(v, ch)|
              && v.data[c - 2][InLink(at, n)..InLink(at, n) + RECORD] == Bytes(v, ch)[at..at + RECORD]
  {
    hide Pos, Bytes, Chain, Sound, Links, InLink, LinkOf;
    LinksOf(v, n, ch);
    LinksLength(v, n, ch);
    LinkBelow(at, n, |ch|);
    LinkSplit(at, n);
    if LinkOf(at, n) < |ch| {
      BytesRead(v, n, ch, LinkOf(at, n), InLink(at, n), RECORD);
    }
  }

  /** The record at an aligned offset of the directory, unless the directory ends there. */
  method ReadRecord(d: DirEnt, at: nat) returns (r: Option<Record>)
    requires d.Valid() && d.first != 0 && at % RECORD == 0
    modifies d, d.vol
    ensures d.Valid() && d.vol.disk == old(d.vol.disk) && d.chain == old(d.chain) && d.first == old(d.first)
    ensures var b := Bytes(d.vol.V(), d.chain);
            if r.None? then at >= |b| else at + RECORD <= |b| && r.value == b[at..at + RECORD]
  {
    hide LinkOf, InLink, Pos, Padded, Held, Links, Sound, Chain, Bytes, View;
    AlignedFits(at, d.vol.g);
    DirBytes(d.vol.V(), d.N(), d.chain, d.first, d.size, at);
    var p := d.RelocClus(at, false);
    if p.Missing? {
      return None;
    }
    var s := d.vol.ReadClus(d.cur, p.off, RECORD);
    var rec: Record := s;
    r := Some(rec);
  }

  /** The entry at an offset of the directory d, or the first one after it. */
  method EntNext(d: DirEnt, off: nat) returns (f: Found)
    requires d.Valid() && d.first != 0 && d.directory && off % RECORD == 0
    modifies d, d.vol
    ensures d.Valid() && d.vol.disk == old(d.vol.disk) && d.chain == old(d.chain)
    ensures f == ScanAt(Bytes(d.vol.V(), d.chain), off) && Tells(Bytes(d.vol.V(), d.chain), off, f)
  {
    hide Held, Bytes, View, Unpacked, Fits, Volume.Valid, Tells;
    ghost var b := Bytes(d.vol.V(), d.chain);
    ScanTells(b, off);
    var deleted, count, long, at := 0, 0, false, off;
    var buf := new Byte[NAME_BUF](_ => 0);
    assert buf[..] == seq(NAME_BUF, _ => 0);
    while true
      invariant d.Valid() && d.vol.disk == old(d.vol.disk) && d.chain == old(d.chain) && d.first == old(d.first)
      invariant fresh(buf) && at % RECORD == 0 && 0 <= deleted && 0 <= count
      invariant Scan(b, at, deleted, count, long, buf[..]) == ScanAt(b, off)
      decreases |b| - at
    {
      var next := ReadRecord(d, at);
      if next.None? {
        return End;
      }
      var r := next.value;
      if r[0] == 0 {
        return End;
      }
      if r[0] == EMPTY {
        deleted := deleted + 1;
      } else if deleted != 0 {
        return Deleted(deleted);
      } else if r[11] == LONG_NAME {
        if Outside(r[0]) {
          return Overrun;
        }
        if LastBit(r[0]) {
          count, long := PieceOf(r[0]) + 1, true;
        }
        ReadEntName(buf, PIECE * (PieceOf(r[0]) - 1), r);
      } else if long {
        return Long(buf[..], count, r[11], FirstOf(r), SizeOf(r));
      } else {
        ReadShortName(buf, r[..11]);
        return Plain(buf[..], r[11], FirstOf(r), SizeOf(r));
      }
      at := at + RECORD;
    }
  }
}
