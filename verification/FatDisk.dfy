/**
 A FAT32 volume as its disk holds it: sectors of 512 bytes, FAT entries of four bytes, clusters of several sectors.

 `Vol` is what the sectors say, the FAT as a sequence of numbers and the contents of the data clusters, and `View`
 reads it off the disk.  The two lemmas at the end say what one write to the disk does to the view; everything above
 this file argues about views.
 */
module FatDisk {
  import opened Basics

  const BPS: nat := 512
  const PER_SEC: nat := 128
  const EOC: nat := 0x0FFF_FFF8

  type Sector = s: seq<Byte> | |s| == BPS witness seq(BPS, _ => 0)

  /** Cluster c holds data[c - 2]. */
  datatype Vol = Vol(fat: seq<nat>, data: seq<seq<Byte>>)

  /** Reserved sectors, sectors per FAT, number of FATs, sectors per cluster, data clusters. */
  datatype Geometry = Geometry(rsvd: nat, fatSz: nat, fatCnt: nat, spc: nat, clusters: nat) {

    function FirstDataSec(): nat { rsvd + fatCnt * fatSz }

    function Bpc(): nat { spc * BPS }

    function Entries(): nat { fatSz * PER_SEC }

    function FirstSec(c: nat): nat
      requires c >= 2
    {
      (c - 2) * spc + FirstDataSec()
    }

    function FatSec(c: nat): nat { rsvd + (4 * c) / BPS }

    function FatOff(c: nat): nat { (4 * c) % BPS }

    predicate Valid() {
      fatCnt > 0 && spc > 0 && clusters + 2 <= Entries() && clusters + 2 <= EOC
    }

    function Sectors(): nat { FirstDataSec() + clusters * spc }
  }

  // ----- bytes

  /** The little-endian word at offset o. */
  function Word(b: seq<Byte>, o: nat): (w: nat)
    requires o + 4 <= |b|
    ensures w < 0x1_0000_0000
  {
    (b[o] as int) + 256 * ((b[o + 1] as int) + 256 * ((b[o + 2] as int) + 256 * (b[o + 3] as int)))
  }

  function SetWord(b: seq<Byte>, o: nat, w: nat): (r: seq<Byte>)
    requires o + 4 <= |b| && w < 0x1_0000_0000
    ensures |r| == |b| && Word(r, o) == w
    ensures forall i :: 0 <= i < |b| && !(o <= i < o + 4) ==> r[i] == b[i]
  {
    var w1 := w / 256;
    var w2 := w1 / 256;
    b[o := w % 256][o + 1 := w1 % 256][o + 2 := w2 % 256][o + 3 := w2 / 256]
  }

  /** b with the bytes from o on replaced by s. */
  function Splice(b: seq<Byte>, o: nat, s: seq<Byte>): (r: seq<Byte>)
    requires o + |s| <= |b|
    ensures |r| == |b|
    ensures forall i :: 0 <= i < |b| ==> r[i] == if o <= i < o + |s| then s[i - o] else b[i]
  {
    b[..o] + s + b[o + |s|..]
  }

  // ----- what the disk says

  ghost predicate Fits(g: Geometry, d: seq<Sector>) {
    g.Valid() && |d| >= g.Sectors()
  }

  lemma FatSecBound(g: Geometry, c: nat)
    requires g.Valid() && c < g.Entries()
    ensures g.FatSec(c) == g.rsvd + c / PER_SEC && g.FatOff(c) == 4 * (c % PER_SEC)
    ensures g.FatSec(c) < g.rsvd + g.fatSz <= g.FirstDataSec() && g.FatOff(c) + 4 <= BPS
  {
    assert g.fatCnt * g.fatSz >= 1 * g.fatSz;
  }

  lemma Rows(i: nat, n: nat, width: nat)
    requires i < n
    ensures 0 <= i * width && i * width + width <= n * width
  {
    assert i * width + width == (i + 1) * width <= n * width;
  }

  lemma FirstSecBound(g: Geometry, c: nat)
    requires g.Valid() && 2 <= c < g.clusters + 2
    ensures g.FirstDataSec() <= g.FirstSec(c) && g.FirstSec(c) + g.spc <= g.Sectors()
  {
    Rows(c - 2, g.clusters, g.spc);
  }

  lemma ClustersApart(g: Geometry, c: nat, e: nat)
    requires 2 <= c < e
    ensures g.FirstSec(c) + g.spc <= g.FirstSec(e)
  {
    Rows(c - 2, e - 2, g.spc);
  }

  function FatEntry(g: Geometry, d: seq<Sector>, c: nat): (w: nat)
    requires g.Valid() && |d| >= g.Sectors() && c < g.Entries()
    ensures w < 0x1_0000_0000
  {
    FatSecBound(g, c);
    Word(d[g.FatSec(c)], g.FatOff(c))
  }

  /** Byte k of the stretch that starts at a sector. */
  function ByteAt(d: seq<Sector>, sec: nat, k: nat): Byte
    requires sec + k / BPS < |d|
  {
    d[sec + k / BPS][k % BPS]
  }

  function Cluster(g: Geometry, d: seq<Sector>, c: nat): (b: seq<Byte>)
    requires g.Valid() && |d| >= g.Sectors() && 2 <= c < g.clusters + 2
    ensures |b| == g.Bpc()
  {
    FirstSecBound(g, c);
    seq(g.Bpc(), k requires 0 <= k < g.Bpc() => ByteAt(d, g.FirstSec(c), k))
  }

  function View(g: Geometry, d: seq<Sector>): (v: Vol)
    requires g.Valid() && |d| >= g.Sectors()
    ensures |v.fat| == g.Entries() && |v.data| == g.clusters
    ensures forall c :: 0 <= c < |v.fat| ==> v.fat[c] < 0x1_0000_0000
    ensures forall j :: 0 <= j < |v.data| ==> |v.data[j]| == g.Bpc()
  {
    Vol(seq(g.Entries(), c requires 0 <= c < g.Entries() => FatEntry(g, d, c)),
        seq(g.clusters, j requires 0 <= j < g.clusters => Cluster(g, d, j + 2)))
  }

  // ----- where things lie, in bytes from the start of the disk

  function Flat(d: seq<Sector>, a: nat): Byte
    requires a / BPS < |d|
  {
    d[a / BPS][a % BPS]
  }

  lemma Place(sec: nat, k: nat)
    ensures (sec * BPS + k) / BPS == sec + k / BPS && (sec * BPS + k) % BPS == k % BPS
  {
  }

  /** Entry c of the FAT is the four bytes at 4 * c behind the reserved sectors, low byte first. */
  lemma FatAddress(g: Geometry, d: seq<Sector>, c: nat)
    requires Fits(g, d) && c < g.Entries()
    ensures var a := g.rsvd * 512 + 4 * c;
            && (a + 3) / BPS < |d|
            && View(g, d).fat[c] == Flat(d, a) as int + 0x100 * Flat(d, a + 1) as int +
                                    0x1_0000 * Flat(d, a + 2) as int + 0x100_0000 * Flat(d, a + 3) as int
  {
    FatSecBound(g, c);
    FatPlace(g, c, 0);
    FatPlace(g, c, 1);
    FatPlace(g, c, 2);
    FatPlace(g, c, 3);
    hide Geometry.FatSec, Geometry.FatOff;
  }

  lemma FatPlace(g: Geometry, c: nat, j: nat)
    requires j < 4
    ensures var a := g.rsvd * 512 + 4 * c + j; a / BPS == g.FatSec(c) && a % BPS == g.FatOff(c) + j
  {
    Place(g.rsvd, 4 * c + j);
    Quads(c, j);
  }

  lemma Quads(c: nat, j: nat)
    requires j < 4
    ensures (4 * c + j) / 512 == (4 * c) / 512 && (4 * c + j) % 512 == (4 * c) % 512 + j
  {
  }

  /** Byte k of cluster c lies k behind c - 2 clusters behind the reserved sectors and all FATs. */
  lemma DataAddress(g: Geometry, d: seq<Sector>, c: nat, k: nat)
    requires Fits(g, d) && 2 <= c < g.clusters + 2 && k < g.spc * 512
    ensures var a := (g.rsvd + g.fatCnt * g.fatSz + (c - 2) * g.spc) * 512 + k;
            a / BPS < |d| && View(g, d).data[c - 2][k] == Flat(d, a)
  {
    FirstSecBound(g, c);
    Place(g.FirstSec(c), k);
  }

  // ----- what a write changes

  lemma ClusterSame(g: Geometry, d: seq<Sector>, d': seq<Sector>, c: nat)
    requires Fits(g, d) && Fits(g, d') && 2 <= c < g.clusters + 2
    requires forall s :: g.FirstSec(c) <= s < g.FirstSec(c) + g.spc ==> s < |d| && s < |d'| && d'[s] == d[s]
    ensures Cluster(g, d', c) == Cluster(g, d, c)
  {
  }

  lemma EntrySame(g: Geometry, d: seq<Sector>, d': seq<Sector>, c: nat)
    requires Fits(g, d) && Fits(g, d') && c < g.Entries()
    requires g.FatSec(c) < |d| && g.FatSec(c) < |d'| && d'[g.FatSec(c)] == d[g.FatSec(c)]
    ensures FatEntry(g, d', c) == FatEntry(g, d, c)
  {
  }

  lemma EntryWritten(g: Geometry, d: seq<Sector>, c: nat, w: nat, e: nat)
    requires Fits(g, d) && c < g.Entries() && e < g.Entries() && w < 0x1_0000_0000
    ensures g.FatSec(c) < |d| && g.FatOff(c) + 4 <= BPS
    ensures var d' := d[g.FatSec(c) := SetWord(d[g.FatSec(c)], g.FatOff(c), w)];
            FatEntry(g, d', e) == if e == c then w else FatEntry(g, d, e)
  {
    hide SetWord;
    FatSecBound(g, c);
    FatSecBound(g, e);
  }

  /** Setting one word of one FAT sector changes one entry of the FAT and no data. */
  lemma FatWritten(g: Geometry, d: seq<Sector>, c: nat, w: nat)
    requires Fits(g, d) && c < g.Entries() && w < 0x1_0000_0000
    ensures g.FatSec(c) < |d| && g.FatOff(c) + 4 <= BPS
    ensures var d' := d[g.FatSec(c) := SetWord(d[g.FatSec(c)], g.FatOff(c), w)];
            View(g, d') == View(g, d).(fat := View(g, d).fat[c := w])
  {
    hide SetWord, Word;
    FatSecBound(g, c);
    var d' := d[g.FatSec(c) := SetWord(d[g.FatSec(c)], g.FatOff(c), w)];
    forall e | 0 <= e < g.Entries() ensures FatEntry(g, d', e) == if e == c then w else FatEntry(g, d, e) {
      EntryWritten(g, d, c, w, e);
    }
    forall e | 2 <= e < g.clusters + 2 ensures Cluster(g, d', e) == Cluster(g, d, e) {
      FirstSecBound(g, e);
      ClusterSame(g, d, d', e);
    }
    assert View(g, d').fat == View(g, d).fat[c := w];
    assert View(g, d').data == View(g, d).data;
  }

  /** Splicing bytes into one sector of a cluster splices them into the cluster, and changes nothing else. */
  lemma DataWritten(g: Geometry, d: seq<Sector>, c: nat, i: nat, o: nat, s: seq<Byte>)
    requires Fits(g, d) && 2 <= c < g.clusters + 2 && i < g.spc && o + |s| <= BPS
    ensures g.FirstSec(c) + i < |d| && i * BPS + o + |s| <= g.Bpc()
    ensures var d' := d[g.FirstSec(c) + i := Splice(d[g.FirstSec(c) + i], o, s)];
            View(g, d') == View(g, d).(data := View(g, d).data[c - 2 := Splice(View(g, d).data[c - 2], i * BPS + o, s)])
  {
    FirstSecBound(g, c);
    var sec := g.FirstSec(c) + i;
    var d' := d[sec := Splice(d[sec], o, s)];
    forall e | 0 <= e < g.Entries() ensures FatEntry(g, d', e) == FatEntry(g, d, e) {
      FatSecBound(g, e);
      EntrySame(g, d, d', e);
    }
    forall e | 2 <= e < g.clusters + 2 && e != c ensures Cluster(g, d', e) == Cluster(g, d, e) {
      FirstSecBound(g, e);
      if e < c {
        ClustersApart(g, e, c);
      } else {
        ClustersApart(g, c, e);
      }
      ClusterSame(g, d, d', e);
    }
    OwnCluster(g, d, c, i, o, s);
    assert View(g, d').fat == View(g, d).fat;
    assert View(g, d').data == View(g, d).data[c - 2 := Splice(View(g, d).data[c - 2], i * BPS + o, s)];
  }

  lemma OwnCluster(g: Geometry, d: seq<Sector>, c: nat, i: nat, o: nat, s: seq<Byte>)
    requires Fits(g, d) && 2 <= c < g.clusters + 2 && i < g.spc && o + |s| <= BPS && g.FirstSec(c) + i < |d|
    ensures i * BPS + o + |s| <= g.Bpc()
    ensures Cluster(g, d[g.FirstSec(c) + i := Splice(d[g.FirstSec(c) + i], o, s)], c)
         == Splice(Cluster(g, d, c), i * BPS + o, s)
  {
    FirstSecBound(g, c);
    var sec := g.FirstSec(c) + i;
    var d' := d[sec := Splice(d[sec], o, s)];
    forall k | 0 <= k < g.Bpc()
      ensures Cluster(g, d', c)[k] == Splice(Cluster(g, d, c), i * BPS + o, s)[k]
    {
      assert k == k / BPS * BPS + k % BPS;
    }
  }
}
