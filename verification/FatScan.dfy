/**
 What looking for the next entry of a directory finds, told from the directory's bytes: some long-name records, then
 some deleted ones, then the record at which the search ends.
 */
module FatScan {
  import opened Basics
  import opened FatDisk
  import opened FatName

  /** A long-name record that fits the name buffer. */
  predicate IsPiece(d: seq<Byte>, at: nat) {
    at + RECORD <= |d| && d[at] != 0 && d[at] != EMPTY && d[at + 11] == LONG_NAME && !Outside(d[at])
  }

  predicate IsDeleted(d: seq<Byte>, at: nat) { at + RECORD <= |d| && d[at] == EMPTY }

  /** The directory ends there: its bytes, or its used records. */
  predicate Ends(d: seq<Byte>, at: nat) { at + RECORD > |d| || d[at] == 0 }

  ghost predicate PieceRun(d: seq<Byte>, at: nat, k: nat) { forall j :: 0 <= j < k ==> IsPiece(d, at + RECORD * j) }
  ghost predicate DeletedRun(d: seq<Byte>, at: nat, m: nat) { forall j :: 0 <= j < m ==> IsDeleted(d, at + RECORD * j) }

  /** The search passes k long-name records and m deleted ones, and goes no further. */
  ghost predicate Passed(d: seq<Byte>, off: nat, k: nat, m: nat) {
    && PieceRun(d, off, k) && DeletedRun(d, off + RECORD * k, m)
    && !IsDeleted(d, off + RECORD * (k + m)) && (m == 0 ==> !IsPiece(d, off + RECORD * k))
  }

  /** One of the long-name records is marked as the last piece of its name. */
  ghost predicate Marked(d: seq<Byte>, off: nat, k: nat) {
    exists j :: 0 <= j < k && off + RECORD * j < |d| && LastBit(d[off + RECORD * j])
  }

  /** Attribute, first cluster and size as a short record holds them, low bytes first. */
  ghost predicate Fields(d: seq<Byte>, at: nat, attr: Byte, first: nat, size: nat)
    requires at + RECORD <= |d|
  {
    && attr == d[at + 11]
    && first == d[at + 26] as int + 0x100 * d[at + 27] as int + 0x1_0000 * d[at + 20] as int +
                0x100_0000 * d[at + 21] as int
    && size == d[at + 28] as int + 0x100 * d[at + 29] as int + 0x1_0000 * d[at + 30] as int +
               0x100_0000 * d[at + 31] as int
  }

  /** What is found when the search ends at a record, after k long-name records and m deleted ones. */
  ghost predicate FoundAt(d: seq<Byte>, off: nat, k: nat, m: nat, f: Found) {
    var at := off + RECORD * (k + m);
    if Ends(d, at) then f.End?
    else if m > 0 then f == Deleted(m)
    else if d[at + 11] == LONG_NAME then f.Overrun?
    else if Marked(d, off, k) then f.Long? && Fields(d, at, f.attr, f.first, f.size)
    else
      && f.Plain? && Fields(d, at, f.attr, f.first, f.size)
      && |f.name| == NAME_BUF && f.name[..13] == Short(d[at..at + 11])
  }

  /** The name in a short record, filled up with zeros. */
  function Short(short: seq<Byte>): seq<Byte>
    requires |short| == 11
  {
    Dotted(short) + seq(13 - |Dotted(short)|, _ => 0)
  }

  // ----- every directory has that shape

  lemma RunNext(d: seq<Byte>, off: nat, k: nat)
    requires PieceRun(d, off + RECORD, k) && IsPiece(d, off)
    ensures PieceRun(d, off, k + 1)
  {
    forall j | 0 <= j < k + 1 ensures IsPiece(d, off + RECORD * j) {
      assert j > 0 ==> IsPiece(d, off + RECORD + RECORD * (j - 1));
    }
  }

  lemma {:induction false} DeletedParts(d: seq<Byte>, off: nat) returns (m: nat)
    ensures DeletedRun(d, off, m) && !IsDeleted(d, off + RECORD * m)
    decreases |d| - off
  {
    m := 0;
    if IsDeleted(d, off) {
      var n := DeletedParts(d, off + RECORD);
      m := n + 1;
      forall j | 0 <= j < m ensures IsDeleted(d, off + RECORD * j) {
        assert j > 0 ==> IsDeleted(d, off + RECORD + RECORD * (j - 1));
      }
      assert off + RECORD * m == off + RECORD + RECORD * n;
    }
  }

  lemma {:induction false} Parts(d: seq<Byte>, off: nat) returns (k: nat, m: nat)
    ensures Passed(d, off, k, m)
    decreases |d| - off
  {
    if IsPiece(d, off) {
      var n;
      n, m := Parts(d, off + RECORD);
      k := n + 1;
      RunNext(d, off, n);
      assert off + RECORD * k == off + RECORD + RECORD * n;
      assert off + RECORD * (k + m) == off + RECORD + RECORD * (n + m);
    } else {
      k := 0;
      m := DeletedParts(d, off);
    }
  }

  // ----- what the search makes of it

  lemma {:induction false} ScanDeleted(d: seq<Byte>, off: nat, deleted: nat, count: nat, long: bool, buf: seq<Byte>,
                                       m: nat)
    requires |buf| == NAME_BUF && DeletedRun(d, off, m)
    ensures Scan(d, off, deleted, count, long, buf) == Scan(d, off + RECORD * m, deleted + m, count, long, buf)
    decreases m
  {
    if m > 0 {
      assert IsDeleted(d, off + RECORD * 0);
      forall j | 0 <= j < m - 1 ensures IsDeleted(d, off + RECORD + RECORD * j) {
        assert IsDeleted(d, off + RECORD * (j + 1));
      }
      ScanDeleted(d, off + RECORD, deleted + 1, count, long, buf, m - 1);
      assert off + RECORD + RECORD * (m - 1) == off + RECORD * m;
    }
  }

  lemma ScanPiece(d: seq<Byte>, off: nat, count: nat, long: bool, buf: seq<Byte>)
    requires |buf| == NAME_BUF && IsPiece(d, off)
    ensures var r: Record := d[off..off + RECORD];
            var last := LastBit(r[0]);
            && r[0] == d[off] && PieceOf(r[0]) > 0 && PIECE * (PieceOf(r[0]) - 1) + PIECE <= |buf|
            && Scan(d, off, 0, count, long, buf) ==
               Scan(d, off + RECORD, 0, if last then PieceOf(r[0]) + 1 else count, long || last,
                    Unpacked(buf, PIECE * (PieceOf(r[0]) - 1), r))
  {
    hide Unpacked;
  }

  lemma {:induction false} ScanPieces(d: seq<Byte>, off: nat, count: nat, long: bool, buf: seq<Byte>, k: nat)
    returns (count': nat, buf': seq<Byte>)
    requires |buf| == NAME_BUF && PieceRun(d, off, k)
    ensures |buf'| == NAME_BUF
    ensures Scan(d, off, 0, count, long, buf) ==
            Scan(d, off + RECORD * k, 0, count', long || Marked(d, off, k), buf')
    decreases k
  {
    hide Scan, Outside, PieceRun, Marked, Unpacked;
    count', buf' := count, buf;
    if k == 0 {
      MarkedNone(d, off);
    } else {
      RunTail(d, off, k);
      ScanPiece(d, off, count, long, buf);
      var r: Record := d[off..off + RECORD];
      var last := LastBit(r[0]);
      count', buf' := ScanPieces(d, off + RECORD, if last then PieceOf(r[0]) + 1 else count, long || last,
                                 Unpacked(buf, PIECE * (PieceOf(r[0]) - 1), r), k - 1);
      assert off + RECORD + RECORD * (k - 1) == off + RECORD * k;
      MarkedNext(d, off, k);
    }
  }

  lemma RunTail(d: seq<Byte>, off: nat, k: nat)
    requires PieceRun(d, off, k) && k > 0
    ensures IsPiece(d, off) && PieceRun(d, off + RECORD, k - 1)
  {
    assert IsPiece(d, off + RECORD * 0);
    forall j | 0 <= j < k - 1 ensures IsPiece(d, off + RECORD + RECORD * j) {
      assert IsPiece(d, off + RECORD * (j + 1));
    }
  }

  lemma MarkedNone(d: seq<Byte>, off: nat)
    ensures !Marked(d, off, 0)
  {
  }

  lemma MarkedNext(d: seq<Byte>, off: nat, k: nat)
    requires k > 0 && off < |d|
    ensures Marked(d, off, k) <==> LastBit(d[off]) || Marked(d, off + RECORD, k - 1)
  {
    if Marked(d, off, k) {
      var j :| 0 <= j < k && off + RECORD * j < |d| && LastBit(d[off + RECORD * j]);
      assert j > 0 ==> off + RECORD * j == off + RECORD + RECORD * (j - 1);
    }
    if LastBit(d[off]) {
      assert LastBit(d[off + RECORD * 0]);
    }
    if Marked(d, off + RECORD, k - 1) {
      var j :| 0 <= j < k - 1 && off + RECORD + RECORD * j < |d| && LastBit(d[off + RECORD + RECORD * j]);
      assert off + RECORD + RECORD * j == off + RECORD * (j + 1);
    }
  }

  /** The search finds what the record it ends at says. */
  lemma ScanIs(d: seq<Byte>, off: nat, k: nat, m: nat)
    requires Passed(d, off, k, m)
    ensures FoundAt(d, off, k, m, ScanAt(d, off))
  {
    hide Scan, Marked, Fields, Short;
    var at := off + RECORD * (k + m);
    var count, buf := ScanPieces(d, off, 0, false, seq(NAME_BUF, _ => 0), k);
    ScanDeleted(d, off + RECORD * k, 0, count, Marked(d, off, k), buf, m);
    assert off + RECORD * k + RECORD * m == at;
    ScanStops(d, at, m, count, Marked(d, off, k), buf);
  }

  /** A step of the search that goes no further. */
  lemma ScanStops(d: seq<Byte>, at: nat, m: nat, count: nat, long: bool, buf: seq<Byte>)
    requires |buf| == NAME_BUF && !IsDeleted(d, at) && (m == 0 ==> !IsPiece(d, at))
    ensures var f := Scan(d, at, m, count, long, buf);
            if Ends(d, at) then f.End?
            else if m > 0 then f == Deleted(m)
            else if d[at + 11] == LONG_NAME then f.Overrun?
            else if long then f.Long? && Fields(d, at, f.attr, f.first, f.size)
            else
              && f.Plain? && Fields(d, at, f.attr, f.first, f.size) && |f.name| == NAME_BUF
              && f.name[..13] == Short(d[at..at + 11])
  {
    hide Unpacked, Dotted;
    if !Ends(d, at) {
      var r: Record := d[at..at + RECORD];
      RecordFields(d, at);
      assert r[..11] == d[at..at + 11];
      var name := Dotted(r[..11]);
      assert Named(buf, name)[..13] == name + seq(13 - |name|, _ => 0);
    }
  }

  lemma RecordFields(d: seq<Byte>, at: nat)
    requires at + RECORD <= |d|
    ensures var r: Record := d[at..at + RECORD]; Fields(d, at, r[11], FirstOf(r), SizeOf(r))
  {
  }

  /** What is found is what the record says at which the search ends. */
  ghost predicate Tells(d: seq<Byte>, off: nat, f: Found) {
    exists k: nat, m: nat :: Passed(d, off, k, m) && FoundAt(d, off, k, m, f)
  }

  lemma ScanTells(d: seq<Byte>, off: nat)
    ensures Tells(d, off, ScanAt(d, off))
  {
    hide Passed, FoundAt, ScanAt;
    var k, m := Parts(d, off);
    ScanIs(d, off, k, m);
  }

  // ----- the results one by one

  /** Some deleted records and then a live one: the number of the deleted ones. */
  lemma DeletedIs(d: seq<Byte>, off: nat, m: nat)
    requires m > 0 && DeletedRun(d, off, m) && !Ends(d, off + RECORD * m) && !IsDeleted(d, off + RECORD * m)
    ensures ScanAt(d, off) == Deleted(m)
  {
    assert DeletedRun(d, off + RECORD * 0, m);
    ScanIs(d, off, 0, m);
  }

  /** A live short record with no long-name record before it is found as it is. */
  lemma PlainIs(d: seq<Byte>, off: nat)
    requires !Ends(d, off) && !IsDeleted(d, off) && d[off + 11] != LONG_NAME
    ensures var f := ScanAt(d, off);
            && f.Plain? && Fields(d, off, f.attr, f.first, f.size)
            && |f.name| == NAME_BUF && f.name[..13] == Short(d[off..off + 11])
  {
    assert off + RECORD * 0 == off;
    assert !Marked(d, off, 0);
    ScanIs(d, off, 0, 0);
  }

  /** Nothing is found exactly if, after long-name records and then deleted ones, the directory ends. */
  lemma EndIff(d: seq<Byte>, off: nat)
    ensures ScanAt(d, off).End? <==> exists k: nat, m: nat :: Passed(d, off, k, m) && Ends(d, off + RECORD * (k + m))
  {
    hide Passed, ScanAt;
    var k, m := Parts(d, off);
    ScanIs(d, off, k, m);
    if i: nat, j: nat :| Passed(d, off, i, j) && Ends(d, off + RECORD * (i + j)) {
      ScanIs(d, off, i, j);
    }
  }

  // ----- short records written and read back

  /** The times and dates of a record are left zero. */
  ghost predicate Blank(r: Record) { forall p :: 12 <= p < 20 || 22 <= p < 26 ==> r[p] == 0 }

  /** Where the fields of a short record lie. */
  lemma SneLayout(e: Entry)
    requires e.Storable()
    ensures var r := Sne(e); r[..11] == e.short && Fields(r, 0, e.attr, e.first, e.size) && Blank(r)
  {
  }

  const DIRECTORY: Byte := 0x10

  /** The names of the first two records of a directory. */
  function Dots(off: nat): seq<Byte> { if off == 0 then [DOT] else [DOT, DOT] }

  /** The record of a directory itself, or of its parent. */
  function DotRecord(off: nat, first: nat): Record
    requires first < 0x1_0000_0000
  {
    Padded83(Dots(off), []) + [DIRECTORY] + [0, 0, 0, 0, 0, 0, 0, 0] + Word16(first / 0x1_0000) + [0, 0, 0, 0] +
      Word16(first % 0x1_0000) + [0, 0, 0, 0]
  }

  ghost predicate FindsDots(f: Found, off: nat, first: nat) {
    && f.Plain? && CString(f.name) == (if off == 0 then [0x2E] else [0x2E, 0x2E])
    && f.attr == 0x10 && f.first == first && f.size == 0
  }

  lemma DotsRead(d: seq<Byte>, off: nat, first: nat)
    requires first < 0x1_0000_0000 && off + RECORD <= |d| && d[off..off + RECORD] == DotRecord(off, first)
    ensures FindsDots(ScanAt(d, off), off, first)
  {
    hide ScanAt, Dotted, Padded83;
    var r := DotRecord(off, first);
    DotFields(off, first);
    assert forall k :: 0 <= k < RECORD ==> d[off + k] == r[k];
    assert d[off..off + 11] == r[..11];
    PlainIs(d, off);
    var f := ScanAt(d, off);
    var buf := f.name;
    ShortRoundTrip(buf, Dots(off), []);
    assert Dots(off) + [] == Dots(off);
    assert f.name == Named(buf, Dots(off)) by {
      assert f.name == f.name[..13] + f.name[13..];
    }
  }

  lemma DotFields(off: nat, first: nat)
    requires first < 0x1_0000_0000
    ensures var r := DotRecord(off, first);
            && r[..11] == Padded83(Dots(off), []) && r[0] == DOT && Fields(r, 0, DIRECTORY, first, 0) && Blank(r)
  {
  }

  /** A short record written on its own is read back. */
  lemma ShortRead(d: seq<Byte>, off: nat, e: Entry)
    requires e.Storable() && off + RECORD <= |d| && d[off..off + RECORD] == Sne(e)
    ensures var f := ScanAt(d, off);
            && f.Plain? && f.attr == e.attr && f.first == e.first && f.size == e.size
            && |f.name| == NAME_BUF && f.name[..13] == Short(e.short)
  {
    hide Sne, Dotted, ScanAt;
    SneLayout(e);
    var r := Sne(e);
    assert forall k :: 0 <= k < RECORD ==> d[off + k] == r[k];
    assert d[off..off + 11] == r[..11];
    assert r[0] == e.short[0];
    PlainIs(d, off);
  }
}
