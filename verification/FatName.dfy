/**
 Long file names in directory entries: how a name is packed into 32-byte records and how it is read back.

 A name takes one record per 13 characters, written last piece first, then a short-name record with the attribute, the
 first cluster and the size.  `Scan` is what looking for the next entry of a directory makes of the directory's bytes.
 */
module FatName {
  import opened Basics
  import opened FatDisk

  const PIECE: nat := 13
  const RECORD: nat := 32
  const NAME_BUF: nat := 256
  const LONG_NAME: Byte := 0x0F
  const EMPTY: Byte := 0xE5
  const SPACE: Byte := 0x20
  const DOT: Byte := 0x2E

  type Record = r: seq<Byte> | |r| == RECORD witness seq(RECORD, _ => 0)

  datatype Entry = Entry(name: seq<Byte>, attr: Byte, first: nat, size: nat, short: seq<Byte>, sum: Byte) {

    /** A legal name, and nothing in the short record that would read as the end or as a deleted entry. */
    predicate Storable() {
      && 1 <= |name| < NAME_BUF && (forall k :: 0 <= k < |name| ==> name[k] != 0)
      && |short| == 11 && short[0] != 0 && short[0] != EMPTY && attr != LONG_NAME
      && first < 0x1_0000_0000 && size < 0x1_0000_0000
    }

    /** All pieces of the name, the padding of the last one included, lie inside the name buffer. */
    predicate Fits() { |name| <= 19 * PIECE }

    /** The number of long-name records. */
    function Pieces(): nat { (|name| + PIECE - 1) / PIECE }
  }

  // ----- one long-name record

  /** Where character k of a record starts. */
  function Slot(k: nat): nat { if k < 5 then 1 + 2 * k else if k < 11 then 4 + 2 * k else 6 + 2 * k }

  predicate IsText(p: nat) { 1 <= p < 11 || 14 <= p < 26 || 28 <= p < 32 }

  function CharOf(p: nat): nat
    requires IsText(p)
  {
    if p < 11 then (p - 1) / 2 else if p < 26 then (p - 4) / 2 else (p - 6) / 2
  }

  /** The two bytes stored for position q of a name: the character, a zero at the end, 0xFFFF past it. */
  function Low(name: seq<Byte>, q: nat): Byte {
    if q < |name| then name[q] else if q == |name| then 0 else 0xFF
  }

  function High(name: seq<Byte>, q: nat): Byte { if q <= |name| then 0 else 0xFF }

  function Order(i: nat, n: nat): nat { if i == n then i + 0x40 else i }

  function LneByte(name: seq<Byte>, i: nat, n: nat, sum: Byte, p: nat): Byte
    requires 1 <= i <= n <= 0x3F
  {
    if p == 0 then Order(i, n)
    else if p == 11 then LONG_NAME
    else if p == 13 then sum
    else if !IsText(p) then 0
    else
      var q := PIECE * (i - 1) + CharOf(p);
      if p == Slot(CharOf(p)) then Low(name, q) else High(name, q)
  }

  /** Record i of the n that hold a name. */
  function Lne(name: seq<Byte>, i: nat, n: nat, sum: Byte): Record
    requires 1 <= i <= n <= 0x3F
  {
    seq(RECORD, p requires 0 <= p < RECORD => LneByte(name, i, n, sum, p))
  }

  /** Fills in one long-name record, character by character. */
  method PackPiece(de: array<Byte>, name: seq<Byte>, i: nat, n: nat, ghost sum: Byte)
    requires de.Length == RECORD && 1 <= i <= n <= 0x3F && forall k :: 0 <= k < |name| ==> name[k] != 0
    requires PIECE * (i - 1) <= |name|
    requires forall p :: 0 < p < RECORD && !IsText(p) ==> de[p] == LneByte(name, i, n, sum, p)
    modifies de
    ensures de[..] == Lne(name, i, n, sum) && forall p :: 0 < p < RECORD && !IsText(p) ==> de[p] == old(de[p])
  {
    de[0] := Order(i, n);
    ghost var base := PIECE * (i - 1);
    var q := PIECE * (i - 1);
    var w, end, j := 1, false, 1;
    while j <= PIECE
      invariant 1 <= j <= PIECE + 1 && q == (if end then |name| + 1 else base + j - 1)
      invariant (j <= PIECE ==> w == Slot(j - 1)) && (end <==> base + j - 1 > |name|) && de[0] == Order(i, n)
      invariant forall p :: 0 < p < RECORD && !IsText(p) ==> de[p] == old(de[p])
      invariant forall k :: 0 <= k < j - 1 ==>
                de[Slot(k)] == Low(name, base + k) && de[Slot(k) + 1] == High(name, base + k)
    {
      if end {
        de[w], de[w + 1] := 0xFF, 0xFF;
      } else {
        de[w] := if q < |name| then name[q] else 0;
        end := de[w] == 0;
        de[w + 1] := 0;
        q := q + 1;
      }
      w := w + 2;
      if j == 5 {
        w := 14;
      } else if j == 11 {
        w := 28;
      }
      j := j + 1;
    }
    Packed(de[..], name, i, n, sum);
  }

  lemma Packed(r: seq<Byte>, name: seq<Byte>, i: nat, n: nat, sum: Byte)
    requires |r| == RECORD && 1 <= i <= n <= 0x3F && r[0] == Order(i, n)
    requires forall p :: 0 < p < RECORD && !IsText(p) ==> r[p] == LneByte(name, i, n, sum, p)
    requires forall k :: 0 <= k < PIECE ==>
      r[Slot(k)] == Low(name, PIECE * (i - 1) + k) && r[Slot(k) + 1] == High(name, PIECE * (i - 1) + k)
    ensures r == Lne(name, i, n, sum)
  {
    forall p | 0 <= p < RECORD ensures r[p] == LneByte(name, i, n, sum, p) {
      if IsText(p) {
        var k := CharOf(p);
        assert p == Slot(k) || p == Slot(k) + 1;
      }
    }
  }

  // ----- reading a name back

  function Code(r: Record, k: nat): (c: int)
    requires k < PIECE
    ensures 0 <= c < 0x1_0000
  {
    (r[Slot(k)] as int) + 256 * (r[Slot(k) + 1] as int)
  }

  function Codes(r: Record, from: nat, n: nat): (s: seq<int>)
    requires from + n <= PIECE
    ensures |s| == n
  {
    seq(n, k requires 0 <= k < n => Code(r, from + k))
  }

  /** The characters before the first zero code. */
  function Until(src: seq<int>): (z: nat)
    ensures z <= |src| && (z < |src| ==> src[z] == 0) && forall k :: 0 <= k < z ==> src[k] != 0
  {
    if src == [] || src[0] == 0 then 0 else 1 + Until(src[1..])
  }

  /** Narrowing wide characters.  After a zero code the rest is cleared, except the last place. */
  function Narrowed(dst: seq<Byte>, at: nat, src: seq<int>): (r: seq<Byte>)
    requires at + |src| <= |dst|
    ensures |r| == |dst|
  {
    seq(|dst|, p requires 0 <= p < |dst| =>
      if at <= p < at + Until(src) then src[p - at] % 256
      else if at + Until(src) <= p < at + |src| - 1 then 0
      else dst[p])
  }

  method Snstr(dst: array<Byte>, at: nat, src: seq<int>)
    requires at + |src| <= dst.Length
    modifies dst
    ensures dst[..] == Narrowed(old(dst[..]), at, src)
    ensures forall p :: at <= p < at + Until(src) ==> dst[p] == src[p - at] % 256
    ensures forall p :: at + Until(src) <= p < at + |src| - 1 ==> dst[p] == 0
    ensures Until(src) < |src| ==> dst[at + |src| - 1] == old(dst[at + |src| - 1])
    ensures forall p :: 0 <= p < dst.Length && !(at <= p < at + |src|) ==> dst[p] == old(dst[p])
  {
    ghost var was := dst[..];
    var len, k := |src|, 0;
    while len > 0 && src[k] != 0
      invariant 0 <= k <= |src| && len == |src| - k && forall e :: 0 <= e < k ==> src[e] != 0
      invariant forall p :: 0 <= p < dst.Length ==> dst[p] == if at <= p < at + k then src[p - at] % 256 else was[p]
    {
      dst[at + k] := src[k] % 256;
      k, len := k + 1, len - 1;
    }
    // the failed test has counted len down once more
    len := len - 1;
    ghost var z := k;
    while len > 0
      invariant z <= k && (z < |src| ==> k <= |src| - 1 && len == |src| - 1 - k) && (z == |src| ==> k == z && len == -1)
      invariant forall p :: 0 <= p < dst.Length ==>
        dst[p] == (if at <= p < at + z then src[p - at] % 256 else if at + z <= p < at + k then 0 else was[p])
    {
      dst[at + k] := 0;
      k, len := k + 1, len - 1;
    }
    assert z == Until(src);
    assert dst[..] == Narrowed(was, at, src);
  }

  /** The name buffer after the 13 characters of a record are stored in it. */
  function Unpacked(buf: seq<Byte>, base: nat, r: Record): (b: seq<Byte>)
    requires base + PIECE <= |buf|
    ensures |b| == |buf|
  {
    Narrowed(Narrowed(Narrowed(buf, base, Codes(r, 0, 5)), base + 5, Codes(r, 5, 6)), base + 11, Codes(r, 11, 2))
  }

  method ReadEntName(buf: array<Byte>, base: nat, r: Record)
    requires base + PIECE <= buf.Length
    modifies buf
    ensures buf[..] == Unpacked(old(buf[..]), base, r)
  {
    Snstr(buf, base, Codes(r, 0, 5));
    Snstr(buf, base + 5, Codes(r, 5, 6));
    Snstr(buf, base + 11, Codes(r, 11, 2));
  }

  // ----- the name in a short record

  /** The characters before the first space. */
  function UntilSpace(s: seq<Byte>): (z: nat)
    ensures z <= |s| && (z < |s| ==> s[z] == SPACE) && forall k :: 0 <= k < z ==> s[k] != SPACE
  {
    if s == [] || s[0] == SPACE then 0 else 1 + UntilSpace(s[1..])
  }

  /** The name and, if there is one, the extension after a dot. */
  function Dotted(short: seq<Byte>): (name: seq<Byte>)
    requires |short| == 11
    ensures |name| <= 12
  {
    short[..UntilSpace(short[..8])] + if short[8] == SPACE then [] else [DOT] + short[8..8 + UntilSpace(short[8..])]
  }

  /** The name buffer after a short name is stored in it: the first 13 places are cleared before. */
  function Named(buf: seq<Byte>, name: seq<Byte>): (b: seq<Byte>)
    requires |name| <= 13 <= |buf|
    ensures |b| == |buf|
  {
    name + seq(13 - |name|, _ => 0) + buf[13..]
  }

  lemma {:induction false} SpaceIs(s: seq<Byte>, z: nat)
    requires z <= |s| && (z < |s| ==> s[z] == SPACE) && forall k :: 0 <= k < z ==> s[k] != SPACE
    ensures UntilSpace(s) == z
  {
    if z > 0 {
      SpaceIs(s[1..], z - 1);
    }
  }

  method CopyToSpace(buf: array<Byte>, at: nat, src: seq<Byte>) returns (z: nat)
    requires at + |src| <= buf.Length
    modifies buf
    ensures z == UntilSpace(src) && buf[..] == Splice(old(buf[..]), at, src[..z])
  {
    ghost var was := buf[..];
    z := 0;
    while z < |src| && src[z] != SPACE
      invariant 0 <= z <= |src| && forall k :: 0 <= k < z ==> src[k] != SPACE
      invariant forall p :: 0 <= p < buf.Length ==> buf[p] == if at <= p < at + z then src[p - at] else was[p]
    {
      buf[at + z] := src[z];
      z := z + 1;
    }
    SpaceIs(src, z);
    assert buf[..] == Splice(was, at, src[..z]);
  }

  method ClearName(buf: array<Byte>)
    requires buf.Length >= 13
    modifies buf
    ensures buf[..] == Named(old(buf[..]), [])
  {
    ghost var was := buf[..];
    var c := 0;
    while c < 13
      invariant 0 <= c <= 13 && forall p :: 0 <= p < buf.Length ==> buf[p] == if p < c then 0 else was[p]
    {
      buf[c] := 0;
      c := c + 1;
    }
    assert buf[..] == Named(was, []);
  }

  method ReadShortName(buf: array<Byte>, short: seq<Byte>)
    requires |short| == 11 && buf.Length >= 13
    modifies buf
    ensures buf[..] == Named(old(buf[..]), Dotted(short))
  {
    hide Named, Splice, Dotted, UntilSpace;
    ghost var was := buf[..];
    ClearName(buf);
    var i := CopyToSpace(buf, 0, short[..8]);
    ghost var name := short[..8][..i];
    NamedMore(was, [], name);
    assert buf[..] == Named(was, name) by { assert [] + name == name; }
    if short[8] != SPACE {
      ghost var b := buf[..];
      buf[i] := DOT;
      assert buf[..] == b[i := DOT];
      NamedDot(was, name);
      name, i := name + [DOT], i + 1;
    }
    var z := CopyToSpace(buf, i, short[8..]);
    NamedMore(was, name, short[8..][..z]);
    DottedIs(short);
    assert name == short[..8][..UntilSpace(short[..8])] + if short[8] == SPACE then [] else [DOT];
  }

  lemma DottedIs(short: seq<Byte>)
    requires |short| == 11
    ensures var z := UntilSpace(short[8..]);
            Dotted(short) ==
            short[..8][..UntilSpace(short[..8])] + (if short[8] == SPACE then [] else [DOT]) + short[8..][..z]
  {
    assert short[8..][0] == short[8];
  }

  lemma NamedMore(was: seq<Byte>, name: seq<Byte>, more: seq<Byte>)
    requires |name| + |more| <= 13 <= |was|
    ensures Splice(Named(was, name), |name|, more) == Named(was, name + more)
  {
  }

  lemma NamedDot(was: seq<Byte>, name: seq<Byte>)
    requires |name| < 13 <= |was|
    ensures Named(was, name)[|name| := DOT] == Named(was, name + [DOT])
  {
  }

  /** A name and an extension without spaces, each padded with them. */
  function Padded83(base: seq<Byte>, ext: seq<Byte>): (short: seq<Byte>)
    requires |base| <= 8 && |ext| <= 3
    ensures |short| == 11
  {
    base + seq(8 - |base|, _ => SPACE) + ext + seq(3 - |ext|, _ => SPACE)
  }

  /** A padded name is read back with a dot before its extension. */
  lemma ShortRoundTrip(buf: seq<Byte>, base: seq<Byte>, ext: seq<Byte>)
    requires |base| <= 8 && |ext| <= 3 && |buf| >= 13
    requires forall k :: 0 <= k < |base| ==> base[k] != SPACE && base[k] != 0
    requires forall k :: 0 <= k < |ext| ==> ext[k] != SPACE && ext[k] != 0
    ensures var name := base + if ext == [] then [] else [DOT] + ext;
            Dotted(Padded83(base, ext)) == name && CString(Named(buf, name)) == name
  {
    var short := Padded83(base, ext);
    assert short[..8] == base + seq(8 - |base|, _ => SPACE) && short[8..] == ext + seq(3 - |ext|, _ => SPACE);
    SpaceIs(short[..8], |base|);
    SpaceIs(short[8..], |ext|);
    assert short[..|base|] == base && short[8..8 + |ext|] == ext;
    var name := base + if ext == [] then [] else [DOT] + ext;
    CStringIs(name, Named(buf, name));
  }

  // ----- the records of an entry

  function Word16(w: nat): seq<Byte>
    requires w < 0x1_0000
  {
    [w % 256, w / 256]
  }

  function Sne(e: Entry): Record
    requires e.Storable()
  {
    e.short + [e.attr] + [0, 0, 0, 0, 0, 0, 0, 0] + Word16(e.first / 0x1_0000) + [0, 0, 0, 0] +
      Word16(e.first % 0x1_0000)
    + Word16(e.size % 0x1_0000) + Word16(e.size / 0x1_0000)
  }

  /** The records from long-name piece i down to the first, and the short record. */
  function Encoded(e: Entry, i: nat): (r: seq<Byte>)
    requires e.Storable() && i <= e.Pieces()
    ensures |r| == RECORD * (i + 1)
  {
    if i == 0 then Sne(e) else Lne(e.name, i, e.Pieces(), e.sum) + Encoded(e, i - 1)
  }

  // ----- looking for the next entry

  datatype Found =
    | End
    | Deleted(count: nat)
    | Long(name: seq<Byte>, count: nat, attr: Byte, first: nat, size: nat)
    | Plain(name: seq<Byte>, attr: Byte, first: nat, size: nat)
    | Overrun

  function FirstOf(r: Record): nat {
    ((r[20] as int) + 256 * (r[21] as int)) * 0x1_0000 + (r[26] as int) + 256 * (r[27] as int)
  }

  function SizeOf(r: Record): nat { Word(r, 28) }

  predicate LastBit(b: Byte) { (b / 0x40) % 2 == 1 }

  /** The piece number in an order byte. */
  function PieceOf(b: Byte): nat { if LastBit(b) then b - 0x40 else b }

  /** The order byte: the piece number, and a bit for the last piece. */
  lemma OrderBits(b: bv8)
    ensures LastBit(b as int) <==> b & 0x40 != 0
    ensures PieceOf(b as int) == (b & 0xBF) as int
  {
  }

  /** The piece does not fit the name buffer: the source would write outside it. */
  predicate Outside(b: Byte) { PieceOf(b) == 0 || PIECE * PieceOf(b) > NAME_BUF }

  /** What entNext makes of a directory's bytes from an offset on. */
  function Scan(d: seq<Byte>, off: nat, deleted: nat, count: nat, long: bool, buf: seq<Byte>): Found
    requires |buf| == NAME_BUF
    decreases |d| - off
  {
    if off + RECORD > |d| then End
    else
      var r: Record := d[off..off + RECORD];
      if r[0] == 0 then End
      else if r[0] == EMPTY then Scan(d, off + RECORD, deleted + 1, count, long, buf)
      else if deleted != 0 then Deleted(deleted)
      else if r[11] == LONG_NAME then
        if Outside(r[0]) then Overrun
        else
          var last := LastBit(r[0]);
          Scan(d, off + RECORD, 0, if last then PieceOf(r[0]) + 1 else count, long || last,
               Unpacked(buf, PIECE * (PieceOf(r[0]) - 1), r))
      else if long then Long(buf, count, r[11], FirstOf(r), SizeOf(r))
      else Plain(Named(buf, Dotted(r[..11])), r[11], FirstOf(r), SizeOf(r))
  }

  /** A buffer read as a C string. */
  function CString(buf: seq<Byte>): seq<Byte> {
    if buf == [] || buf[0] == 0 then [] else [buf[0]] + CString(buf[1..])
  }

  // ----- a name written is the name read

  /** The code stored for position q of a name. */
  function CodeOf(name: seq<Byte>, q: nat): int {
    if q < |name| then name[q] else if q == |name| then 0 else 0xFFFF
  }

  lemma LneCode(name: seq<Byte>, i: nat, n: nat, sum: Byte, k: nat)
    requires 1 <= i <= n <= 0x3F && k < PIECE
    ensures Code(Lne(name, i, n, sum), k) == CodeOf(name, PIECE * (i - 1) + k)
  {
    assert CharOf(Slot(k)) == k && CharOf(Slot(k) + 1) == k;
  }

  /** b' is b with the text of a name put in places lo to hi: the end of the name may be cleared or left as it was. */
  ghost predicate Copied(name: seq<Byte>, lo: nat, hi: nat, b: seq<Byte>, b': seq<Byte>) {
    && |b'| == |b|
    && (forall p :: 0 <= p < |b| && !(lo <= p < hi) ==> b'[p] == b[p])
    && (forall p :: 0 <= p < |b| && lo <= p < hi && p < |name| ==> b'[p] == name[p])
    && (lo <= |name| < hi && |name| < |b| ==> b'[|name|] == 0 || b'[|name|] == b[|name|])
  }

  lemma CopiedJoin(name: seq<Byte>, lo: nat, mid: nat, hi: nat, a: seq<Byte>, b: seq<Byte>, c: seq<Byte>)
    requires lo <= mid <= hi && Copied(name, lo, mid, a, b) && Copied(name, mid, hi, b, c)
    ensures Copied(name, lo, hi, a, c)
  {
  }

  lemma GroupCopied(name: seq<Byte>, buf: seq<Byte>, at: nat, src: seq<int>)
    requires at + |src| <= |buf| && forall k :: 0 <= k < |name| ==> name[k] != 0
    requires forall k :: 0 <= k < |src| ==> src[k] == CodeOf(name, at + k)
    ensures Copied(name, at, at + |src|, buf, Narrowed(buf, at, src))
  {
    var z := Until(src);
    assert z < |src| ==> src[z] == CodeOf(name, at + z) && at + z == |name|;
    assert at <= |name| < at + |src| ==> src[|name| - at] == 0 && z < |src|;
    assert forall p :: at <= p < at + |src| && p < |name| ==> src[p - at] == name[p];
  }

  lemma PieceCopied(name: seq<Byte>, i: nat, n: nat, sum: Byte, buf: seq<Byte>)
    requires 1 <= i <= n <= 0x3F && PIECE * i <= |buf| && forall k :: 0 <= k < |name| ==> name[k] != 0
    ensures Copied(name, PIECE * (i - 1), PIECE * i, buf, Unpacked(buf, PIECE * (i - 1), Lne(name, i, n, sum)))
  {
    hide Lne, Narrowed, Copied, Code;
    var r := Lne(name, i, n, sum);
    var base := PIECE * (i - 1);
    forall k: nat | k < PIECE ensures Code(r, k) == CodeOf(name, base + k) {
      LneCode(name, i, n, sum, k);
    }
    var b1 := Narrowed(buf, base, Codes(r, 0, 5));
    var b2 := Narrowed(b1, base + 5, Codes(r, 5, 6));
    var b3 := Narrowed(b2, base + 11, Codes(r, 11, 2));
    GroupCopied(name, buf, base, Codes(r, 0, 5));
    GroupCopied(name, b1, base + 5, Codes(r, 5, 6));
    GroupCopied(name, b2, base + 11, Codes(r, 11, 2));
    CopiedJoin(name, base, base + 5, base + 11, buf, b1, b2);
    CopiedJoin(name, base, base + 11, base + 13, buf, b2, b3);
  }

  /** The buffer once all pieces above i have been read. */
  ghost predicate ReadBack(name: seq<Byte>, i: nat, buf: seq<Byte>) {
    && |buf| == NAME_BUF && |name| < NAME_BUF && buf[|name|] == 0
    && (forall p :: PIECE * i <= p < |name| ==> buf[p] == name[p])
  }

  lemma ReadBackStep(e: Entry, i: nat, buf: seq<Byte>)
    requires e.Storable() && e.Fits() && 1 <= i <= e.Pieces() && ReadBack(e.name, i, buf)
    ensures PIECE * i <= NAME_BUF == |buf|
    ensures ReadBack(e.name, i - 1, Unpacked(buf, PIECE * (i - 1), Lne(e.name, i, e.Pieces(), e.sum)))
  {
    hide Unpacked, Lne;
    PieceCopied(e.name, i, e.Pieces(), e.sum, buf);
  }

  lemma {:induction false} CStringIs(name: seq<Byte>, buf: seq<Byte>)
    requires |name| < |buf| && buf[|name|] == 0 && forall p :: 0 <= p < |name| ==> buf[p] == name[p] && name[p] != 0
    ensures CString(buf) == name
  {
    if name != [] {
      CStringIs(name[1..], buf[1..]);
    }
  }

  lemma SneFields(e: Entry)
    requires e.Storable()
    ensures var r := Sne(e);
            && r[0] == e.short[0] && r[11] == e.attr && FirstOf(r) == e.first && SizeOf(r) == e.size
  {
  }

  /** The scan goes through the records of an entry and finds it. */
  lemma {:induction false} ScanFrom(d: seq<Byte>, off: nat, e: Entry, i: nat, count: nat, long: bool, buf: seq<Byte>)
    requires e.Storable() && e.Fits() && i <= e.Pieces() && ReadBack(e.name, i, buf)
    requires off + RECORD * (i + 1) <= |d| && d[off..off + RECORD * (i + 1)] == Encoded(e, i)
    requires i < e.Pieces() ==> long && count == e.Pieces() + 1
    ensures var f := Scan(d, off, 0, count, long, buf);
            && f.Long? && CString(f.name) == e.name && f.count == e.Pieces() + 1
            && f.attr == e.attr && f.first == e.first && f.size == e.size
    decreases i
  {
    hide Unpacked, Lne, Sne, ReadBack, CString;
    var n := e.Pieces();
    var r: Record := d[off..off + RECORD];
    assert r == Encoded(e, i)[..RECORD];
    if i == 0 {
      assert r == Sne(e);
      SneFields(e);
      ReadBackDone(e, buf);
    } else {
      var l := Lne(e.name, i, n, e.sum);
      assert r == l;
      LneFields(e.name, i, n, e.sum);
      ReadBackStep(e, i, buf);
      assert d[off + RECORD..off + RECORD + RECORD * i] == Encoded(e, i)[RECORD..] == Encoded(e, i - 1);
      ScanFrom(d, off + RECORD, e, i - 1, n + 1, true, Unpacked(buf, PIECE * (i - 1), l));
    }
  }

  lemma LneFields(name: seq<Byte>, i: nat, n: nat, sum: Byte)
    requires 1 <= i <= n <= 19
    ensures var r := Lne(name, i, n, sum);
            && r[0] != 0 && r[0] != EMPTY && r[11] == LONG_NAME
            && PieceOf(r[0]) == i && !Outside(r[0]) && (LastBit(r[0]) <==> i == n)
  {
  }

  lemma ReadBackDone(e: Entry, buf: seq<Byte>)
    requires e.Storable() && ReadBack(e.name, 0, buf)
    ensures CString(buf) == e.name
  {
    CStringIs(e.name, buf);
  }

  /** A scan result that is the entry. */
  ghost predicate Finds(f: Found, e: Entry) {
    && f.Long? && CString(f.name) == e.name && f.count == (|e.name| + PIECE - 1) / PIECE + 1
    && f.attr == e.attr && f.first == e.first && f.size == e.size
  }

  function ScanAt(d: seq<Byte>, off: nat): Found { Scan(d, off, 0, 0, false, seq(NAME_BUF, _ => 0)) }

  /**
   Whatever else the directory holds, the next entry at the place an entry was written is that entry, for names of up
   to 247 characters; for the longer ones that are legal, the reader leaves the name buffer.
   */
  lemma NameRoundTrip(d: seq<Byte>, off: nat, e: Entry)
    requires e.Storable() && off + RECORD * (e.Pieces() + 1) <= |d|
    ensures var f := ScanAt(Splice(d, off, Encoded(e, e.Pieces())), off);
            if |e.name| <= 247 then Finds(f, e) else f == Overrun
  {
    var n := e.Pieces();
    var s := Encoded(e, n);
    var d' := Splice(d, off, s);
    assert d'[off..off + |s|] == s;
    if e.Fits() {
      ScanFrom(d', off, e, n, 0, false, seq(NAME_BUF, _ => 0));
    } else {
      assert n == 20;
      assert d'[off..off + RECORD] == s[..RECORD] == Lne(e.name, n, n, e.sum);
    }
  }
}
