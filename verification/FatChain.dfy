/**
 Cluster chains: what a chain is, that it cannot loop, and what growing or freeing one does to the others.
 */
module FatChain {
  import opened Basics
  import opened FatDisk
  import opened FatVolume

  /** A volume the file system can work on: clusters of n bytes, reserved FAT slots in use, 28-bit entries. */
  ghost predicate Sound(v: Vol, n: nat) {
    && n > 0 && Reserved(v)
    && (forall c :: 0 <= c < |v.fat| ==> v.fat[c] < 0x1000_0000)
    && (forall j :: 0 <= j < |v.data| ==> |v.data[j]| == n)
  }

  /** ch is a cluster chain: each FAT entry names the next cluster, and the last one holds an end mark. */
  ghost predicate Chain(v: Vol, ch: seq<nat>) {
    && |ch| > 0 && (forall i :: 0 <= i < |ch| ==> Data(v, ch[i]))
    && (forall i :: 0 <= i < |ch| - 1 ==> v.fat[ch[i]] == ch[i + 1])
    && v.fat[ch[|ch| - 1]] >= EOC
  }

  lemma ChainTail(v: Vol, ch: seq<nat>, i: nat)
    requires Chain(v, ch) && i < |ch|
    ensures Chain(v, ch[i..])
  {
  }

  lemma {:induction false} ChainUnique(v: Vol, a: seq<nat>, b: seq<nat>)
    requires Chain(v, a) && Chain(v, b) && a[0] == b[0]
    ensures a == b
    decreases |a|
  {
    assert v.fat[a[0]] == if |a| == 1 then v.fat[a[|a| - 1]] else a[1];
    assert v.fat[b[0]] == if |b| == 1 then v.fat[b[|b| - 1]] else b[1];
    if |a| > 1 && |b| > 1 {
      ChainTail(v, a, 1);
      ChainTail(v, b, 1);
      ChainUnique(v, a[1..], b[1..]);
      assert a == [a[0]] + a[1..] && b == [b[0]] + b[1..];
    }
  }

  /** A chain visits no cluster twice. */
  lemma ChainAcyclic(v: Vol, ch: seq<nat>)
    requires Chain(v, ch)
    ensures forall i, j :: 0 <= i < j < |ch| ==> ch[i] != ch[j]
  {
    forall i, j | 0 <= i < j < |ch| ensures ch[i] != ch[j] {
      if ch[i] == ch[j] {
        ChainTail(v, ch, i);
        ChainTail(v, ch, j);
        assert |ch[i..]| != |ch[j..]|;
        ChainUnique(v, ch[i..], ch[j..]);
      }
    }
  }

  // ----- growth

  /** Every cluster in use outside ch has the same FAT entry and the same contents in w as in v. */
  ghost predicate Framed(v: Vol, w: Vol, ch: seq<nat>) {
    && |w.fat| == |v.fat| && |w.data| == |v.data|
    && (forall c: nat :: Data(v, c) && c !in ch && v.fat[c] != 0 ==>
          w.fat[c] == v.fat[c] && w.data[c - 2] == v.data[c - 2])
  }

  /** w is a volume in which the chain ch of v has become ch', longer by clusters that were free. */
  ghost predicate Grown(v: Vol, w: Vol, n: nat, ch: seq<nat>, ch': seq<nat>) {
    && Sound(v, n) && Sound(w, n) && Framed(v, w, ch) && ch <= ch'
    && (ch == [] || Chain(v, ch)) && (ch' == [] || Chain(w, ch'))
    && (forall i :: |ch| <= i < |ch'| ==> Data(v, ch'[i]) && v.fat[ch'[i]] == 0)
  }

  lemma GrownRefl(v: Vol, n: nat, ch: seq<nat>)
    requires Sound(v, n) && (ch == [] || Chain(v, ch))
    ensures Grown(v, v, n, ch, ch)
  {
  }

  /** The clusters of ch' that ch lacks are in no use in v. */
  lemma GrownFresh(v: Vol, w: Vol, n: nat, ch: seq<nat>, ch': seq<nat>, c: nat)
    requires Grown(v, w, n, ch, ch') && c in ch' && c !in ch
    ensures Data(v, c) && v.fat[c] == 0
  {
    var i :| 0 <= i < |ch'| && ch'[i] == c;
    if i < |ch| {
      assert false;
    }
  }

  lemma InUse(v: Vol, ch: seq<nat>, c: nat)
    requires Chain(v, ch) && c in ch
    ensures Data(v, c) && v.fat[c] != 0
  {
    var i :| 0 <= i < |ch| && ch[i] == c;
    assert i < |ch| - 1 ==> v.fat[c] == ch[i + 1] && Data(v, ch[i + 1]);
  }

  lemma GrownTrans(u: Vol, v: Vol, w: Vol, n: nat, a: seq<nat>, b: seq<nat>, c: seq<nat>)
    requires Grown(u, v, n, a, b) && Grown(v, w, n, b, c)
    ensures Grown(u, w, n, a, c)
  {
    assert Framed(u, w, a) by {
      forall e: nat | Data(u, e) && e !in a && u.fat[e] != 0
        ensures w.fat[e] == u.fat[e] && w.data[e - 2] == u.data[e - 2]
      {
        if e in b {
          GrownFresh(u, v, n, a, b, e);
        }
        assert Data(v, e);
      }
    }
    forall i | |a| <= i < |c| ensures Data(u, c[i]) && u.fat[c[i]] == 0 {
      if i < |b| {
        assert c[i] == b[i];
      } else {
        assert Data(v, c[i]) && v.fat[c[i]] == 0;
        if c[i] in a {
          assert c[i] in b;
          InUse(v, b, c[i]);
        }
        assert Data(u, c[i]);
      }
    }
  }

  /** The volume after a fresh cluster c is allocated and hung on to the end of a chain. */
  function Linked(v: Vol, ch: seq<nat>, c: nat): Vol
    requires |ch| > 0 && ch[|ch| - 1] < |v.fat| && 2 <= c < |v.data| + 2 <= |v.fat|
  {
    WithFat(Allocated(v, c), ch[|ch| - 1], c)
  }

  lemma Extended(v: Vol, n: nat, ch: seq<nat>, c: nat)
    requires Sound(v, n) && Chain(v, ch) && Data(v, c) && v.fat[c] == 0
    ensures Grown(v, Linked(v, ch, c), n, ch, ch + [c])
  {
    ChainAcyclic(v, ch);
    if c in ch {
      InUse(v, ch, c);
    }
    var w := Linked(v, ch, c);
    var ch' := ch + [c];
    forall i | 0 <= i < |ch'| - 1 ensures w.fat[ch'[i]] == ch'[i + 1] {
      assert ch'[i] == ch[i] != c;
      assert i < |ch| - 1 ==> ch[i] != ch[|ch| - 1];
    }
    assert forall i :: 0 <= i < |ch'| ==> Data(w, ch'[i]);
  }

  /** A first cluster for a file that has none. */
  lemma Begun(v: Vol, n: nat, c: nat)
    requires Sound(v, n) && Data(v, c) && v.fat[c] == 0
    ensures Grown(v, Allocated(v, c), n, [], [c])
  {
    var w := Allocated(v, c);
    assert Data(w, c);
  }

  lemma Rewritten(v: Vol, n: nat, ch: seq<nat>, c: nat, b: seq<Byte>)
    requires Sound(v, n) && Chain(v, ch) && c in ch && Data(v, c) && |b| == n
    ensures Grown(v, WithData(v, c, b), n, ch, ch)
  {
    var w := WithData(v, c, b);
    assert forall i :: 0 <= i < |ch| ==> Data(w, ch[i]);
  }

  // ----- the other files

  ghost predicate Disjoint(a: seq<nat>, b: seq<nat>) {
    forall c :: c in a ==> c !in b
  }

  /** A file system: every member of fs is a chain, and no two share a cluster. */
  ghost predicate Files(v: Vol, fs: set<seq<nat>>) {
    && (forall ch :: ch in fs ==> Chain(v, ch))
    && (forall a, b :: a in fs && b in fs && a != b ==> Disjoint(a, b))
  }

  /** A chain apart from ch is still a chain, apart from ch', and reads the same. */
  lemma OtherChain(v: Vol, w: Vol, n: nat, ch: seq<nat>, ch': seq<nat>, o: seq<nat>)
    requires Grown(v, w, n, ch, ch') && Chain(v, o) && Disjoint(o, ch)
    ensures Chain(w, o) && Disjoint(o, ch') && Disjoint(ch', o) && Bytes(w, o) == Bytes(v, o)
  {
    forall i | 0 <= i < |o|
      ensures Data(w, o[i]) && w.fat[o[i]] == v.fat[o[i]] && w.data[o[i] - 2] == v.data[o[i] - 2] && o[i] !in ch'
    {
      InUse(v, o, o[i]);
      assert o[i] in o && o[i] !in ch;
      if o[i] in ch' {
        GrownFresh(v, w, n, ch, ch', o[i]);
      }
    }
    BytesSame(v, w, o);
  }

  /** Growing one file keeps the file system: the chains stay acyclic and pairwise disjoint. */
  lemma FilesGrown(v: Vol, w: Vol, n: nat, fs: set<seq<nat>>, ch: seq<nat>, ch': seq<nat>)
    requires Files(v, fs) && Grown(v, w, n, ch, ch') && ch' != []
    requires forall o :: o in fs && o != ch ==> Disjoint(o, ch)
    ensures Files(w, fs - {ch} + {ch'})
    ensures forall o :: o in fs - {ch} ==> Bytes(w, o) == Bytes(v, o)
  {
    forall o | o in fs - {ch}
      ensures Chain(w, o) && Disjoint(o, ch') && Disjoint(ch', o) && Bytes(w, o) == Bytes(v, o)
    {
      OtherChain(v, w, n, ch, ch', o);
    }
  }

  // ----- freeing

  /** How many FAT slots are in use. */
  function Used(fat: seq<nat>): (u: nat)
    ensures u <= |fat| && (u == 0 <==> forall c :: 0 <= c < |fat| ==> fat[c] == 0)
  {
    if fat == [] then 0 else Used(fat[..|fat| - 1]) + if fat[|fat| - 1] != 0 then 1 else 0
  }

  lemma {:induction false} UsedDrops(fat: seq<nat>, c: nat)
    requires c < |fat| && fat[c] != 0
    ensures Used(fat[c := 0]) == Used(fat) - 1
  {
    var l := |fat| - 1;
    if c == l {
      assert fat[c := 0][..l] == fat[..l];
    } else {
      UsedDrops(fat[..l], c);
      assert fat[c := 0][..l] == fat[..l][c := 0];
    }
  }

  /** The clusters a truncation visits from c on, in order, on any FAT at all: it clears each as it leaves it. */
  ghost function Walk(v: Vol, c: nat): seq<nat>
    requires |v.data| + 2 <= |v.fat|
    decreases Used(v.fat), if c >= 2 then 1 else 0
  {
    if 2 <= c < |v.data| + 2 && c < EOC then
      if v.fat[c] != 0 then UsedDrops(v.fat, c); [c] + Walk(WithFat(v, c, 0), v.fat[c]) else [c]
    else []
  }

  /** The volume with the clusters of cs marked free. */
  function Freed(v: Vol, cs: seq<nat>): Vol {
    v.(fat := seq(|v.fat|, c requires 0 <= c < |v.fat| => if c in cs then 0 else v.fat[c]))
  }

  lemma FreedStep(v: Vol, c: nat, cs: seq<nat>)
    requires c < |v.fat|
    ensures Freed(WithFat(v, c, 0), cs) == Freed(v, [c] + cs)
  {
  }

  /** A free cluster can only be the last one visited. */
  lemma {:induction false} WalkAvoids(v: Vol, c: nat, e: nat)
    requires |v.data| + 2 <= |v.fat| && e < |v.fat| && v.fat[e] == 0
    ensures forall i :: 0 <= i < |Walk(v, c)| - 1 ==> Walk(v, c)[i] != e
    decreases Used(v.fat), if c >= 2 then 1 else 0
  {
    if 2 <= c < |v.data| + 2 && c < EOC && v.fat[c] != 0 {
      UsedDrops(v.fat, c);
      WalkAvoids(WithFat(v, c, 0), v.fat[c], e);
    }
  }

  /** The truncation loop goes on at c, and c has a FAT entry. */
  ghost predicate InArea(v: Vol, c: nat) {
    2 <= c < |v.data| + 2 <= |v.fat| && c < EOC
  }

  /** ws follows the links of v, and no link of v leads out of it to another data cluster. */
  ghost predicate Follows(v: Vol, ws: seq<nat>) {
    && (forall i :: 0 <= i < |ws| ==> InArea(v, ws[i]))
    && (forall i :: 0 <= i < |ws| - 1 ==> ws[i + 1] == v.fat[ws[i]])
    && (forall c :: c in ws && InArea(v, c) && InArea(v, v.fat[c]) ==> v.fat[c] in ws)
  }

  /** On any FAT, cyclic ones included, the walk visits exactly the clusters that c leads to. */
  lemma {:induction false} WalkFollows(v: Vol, c: nat)
    requires |v.data| + 2 <= |v.fat|
    ensures Follows(v, Walk(v, c)) && (InArea(v, c) <==> Walk(v, c) != [])
    ensures InArea(v, c) ==> Walk(v, c)[0] == c
    decreases Used(v.fat), if c >= 2 then 1 else 0
  {
    if InArea(v, c) && v.fat[c] != 0 {
      UsedDrops(v.fat, c);
      var w := WithFat(v, c, 0);
      var ws := Walk(w, v.fat[c]);
      WalkFollows(w, v.fat[c]);
      WalkAvoids(w, v.fat[c], c);
      FollowsStep(v, c, ws);
    }
  }

  lemma FollowsStep(v: Vol, c: nat, ws: seq<nat>)
    requires InArea(v, c) && v.fat[c] != 0 && Follows(WithFat(v, c, 0), ws)
    requires InArea(v, v.fat[c]) <==> ws != []
    requires ws != [] ==> ws[0] == v.fat[c]
    requires forall i :: 0 <= i < |ws| - 1 ==> ws[i] != c
    ensures Follows(v, [c] + ws)
  {
    var w := WithFat(v, c, 0);
    var us := [c] + ws;
    forall i | 0 <= i < |us| ensures InArea(v, us[i]) {
      assert i > 0 ==> us[i] == ws[i - 1] && InArea(w, ws[i - 1]);
    }
    forall i | 0 <= i < |us| - 1 ensures us[i + 1] == v.fat[us[i]] {
      assert i > 0 ==> ws[i - 1 + 1] == w.fat[ws[i - 1]];
    }
    forall e | e in us && InArea(v, e) && InArea(v, v.fat[e]) ensures v.fat[e] in us {
      if e == c {
        assert us[1] == v.fat[c];
      } else {
        assert e in ws && InArea(w, e) && InArea(w, w.fat[e]);
      }
    }
  }

  /** From the head of a chain, the walk is the chain. */
  lemma {:induction false} WalkChain(v: Vol, ch: seq<nat>)
    requires Chain(v, ch)
    ensures Walk(v, ch[0]) == ch
    decreases |ch|
  {
    var c := ch[0];
    InUse(v, ch, c);
    if |ch| > 1 {
      ChainAcyclic(v, ch);
      var w := WithFat(v, c, 0);
      var t := ch[1..];
      assert forall i :: 0 <= i < |t| ==> t[i] == ch[i + 1] && Data(w, t[i]);
      assert Chain(w, t);
      WalkChain(w, t);
      assert ch == [c] + t;
    }
  }

  /** Freeing one chain keeps the file system of the others, and frees nothing else. */
  lemma FilesFreed(v: Vol, n: nat, fs: set<seq<nat>>, ch: seq<nat>)
    requires Sound(v, n) && Files(v, fs) && ch in fs
    ensures Sound(Freed(v, ch), n) && Files(Freed(v, ch), fs - {ch})
    ensures forall o :: o in fs - {ch} ==> Bytes(Freed(v, ch), o) == Bytes(v, o)
    ensures forall c :: 0 <= c < |v.fat| ==> (Freed(v, ch).fat[c] == 0 <==> v.fat[c] == 0 || c in ch)
  {
    var w := Freed(v, ch);
    assert forall c :: c in ch ==> Data(v, c);
    forall o | o in fs - {ch} ensures Chain(w, o) && Bytes(w, o) == Bytes(v, o) {
      assert Chain(v, o) && Disjoint(o, ch);
      assert forall i :: 0 <= i < |o| ==> o[i] in o && Data(v, o[i]) && Data(w, o[i]);
      BytesSame(v, w, o);
    }
  }

  // ----- contents

  /** The bytes of a chain, cluster after cluster. */
  function Bytes(v: Vol, ch: seq<nat>): (b: seq<Byte>) {
    if ch == [] then []
    else Bytes(v, ch[..|ch| - 1]) + var c := ch[|ch| - 1]; if 2 <= c < |v.data| + 2 then v.data[c - 2] else []
  }

  lemma {:induction false} BytesSame(v: Vol, w: Vol, ch: seq<nat>)
    requires forall i :: 0 <= i < |ch| ==> Data(v, ch[i]) && Data(w, ch[i]) && w.data[ch[i] - 2] == v.data[ch[i] - 2]
    ensures Bytes(w, ch) == Bytes(v, ch)
  {
    if ch != [] {
      BytesSame(v, w, ch[..|ch| - 1]);
    }
  }

  /** Where link k starts. */
  function Pos(k: nat, n: nat): nat { k * n }

  lemma PosStep(k: nat, n: nat, l: nat)
    requires k < l
    ensures Pos(0, n) == 0 && Pos(k + 1, n) == Pos(k, n) + n <= Pos(l, n)
  {
    Rows(k, l, n);
  }

  /** A fresh cluster adds zeros to the contents. */
  lemma BytesExtended(v: Vol, n: nat, ch: seq<nat>, c: nat)
    requires Sound(v, n) && Chain(v, ch) && Data(v, c) && v.fat[c] == 0
    ensures Bytes(Linked(v, ch, c), ch + [c]) == Bytes(v, ch) + Zeros(n)
  {
    if c in ch {
      InUse(v, ch, c);
    }
    var w := Linked(v, ch, c);
    assert forall i :: 0 <= i < |ch| ==> Data(w, ch[i]) && ch[i] != c;
    BytesSame(v, w, ch);
    assert (ch + [c])[..|ch|] == ch;
  }

  lemma SpliceLeft(a: seq<Byte>, b: seq<Byte>, o: nat, s: seq<Byte>)
    requires o + |s| <= |a|
    ensures Splice(a + b, o, s) == Splice(a, o, s) + b
  {
  }

  lemma SpliceRight(a: seq<Byte>, b: seq<Byte>, o: nat, s: seq<Byte>)
    requires o + |s| <= |b|
    ensures Splice(a + b, |a| + o, s) == a + Splice(b, o, s)
  {
  }

  ghost predicate Links(v: Vol, n: nat, ch: seq<nat>) {
    && (forall i :: 0 <= i < |ch| ==> Data(v, ch[i]) && |v.data[ch[i] - 2]| == n)
    && (forall i, j :: 0 <= i < j < |ch| ==> ch[i] != ch[j])
  }

  lemma LinksOf(v: Vol, n: nat, ch: seq<nat>)
    requires Sound(v, n) && Chain(v, ch)
    ensures Links(v, n, ch)
  {
    ChainAcyclic(v, ch);
  }

  /** One step down a sequence of links. */
  lemma LinksFront(v: Vol, n: nat, ch: seq<nat>)
    requires Links(v, n, ch) && |ch| > 0
    ensures Links(v, n, ch[..|ch| - 1]) && Data(v, ch[|ch| - 1]) && |v.data[ch[|ch| - 1] - 2]| == n
    ensures Bytes(v, ch) == Bytes(v, ch[..|ch| - 1]) + v.data[ch[|ch| - 1] - 2]
  {
  }

  lemma {:induction false} LinksLength(v: Vol, n: nat, ch: seq<nat>)
    requires Links(v, n, ch)
    ensures |Bytes(v, ch)| == Pos(|ch|, n)
  {
    if ch != [] {
      LinksFront(v, n, ch);
      LinksLength(v, n, ch[..|ch| - 1]);
      PosStep(|ch| - 1, n, |ch|);
    }
  }

  lemma LastWritten(v: Vol, n: nat, ch: seq<nat>, b: seq<Byte>)
    requires |ch| > 0 && Links(v, n, ch)
    ensures Data(v, ch[|ch| - 1]) && Bytes(WithData(v, ch[|ch| - 1], b), ch) == Bytes(v, ch[..|ch| - 1]) + b
  {
    var l := |ch| - 1;
    BytesSame(v, WithData(v, ch[l], b), ch[..l]);
  }

  lemma FrontWritten(v: Vol, n: nat, ch: seq<nat>, k: nat, b: seq<Byte>)
    requires k < |ch| - 1 && Links(v, n, ch)
    ensures Data(v, ch[k]) && Data(v, ch[|ch| - 1])
    ensures Bytes(WithData(v, ch[k], b), ch)
         == Bytes(WithData(v, ch[k], b), ch[..|ch| - 1]) + v.data[ch[|ch| - 1] - 2]
  {
    assert ch[k] != ch[|ch| - 1];
  }

  /** Storing into link k of a chain stores into its contents. */
  lemma {:induction false} BytesWritten(v: Vol, n: nat, ch: seq<nat>, k: nat, o: nat, s: seq<Byte>)
    requires Links(v, n, ch) && k < |ch| && o + |s| <= n
    ensures Data(v, ch[k]) && |v.data[ch[k] - 2]| == n && Pos(k, n) + o + |s| <= |Bytes(v, ch)|
    ensures Bytes(WithData(v, ch[k], Splice(v.data[ch[k] - 2], o, s)), ch) == Splice(Bytes(v, ch), Pos(k, n) + o, s)
  {
    hide Links, Bytes, Pos, Splice, WithData;
    var l := |ch| - 1;
    LinksFront(v, n, ch);
    LinksLength(v, n, ch[..l]);
    if k == l {
      var b := Splice(v.data[ch[k] - 2], o, s);
      SpliceRight(Bytes(v, ch[..l]), v.data[ch[l] - 2], o, s);
      LastWritten(v, n, ch, b);
    } else {
      BytesWritten(v, n, ch[..l], k, o, s);
      FrontWritten(v, n, ch, k, Splice(v.data[ch[k] - 2], o, s));
      SpliceLeft(Bytes(v, ch[..l]), v.data[ch[l] - 2], Pos(k, n) + o, s);
    }
  }

  /** A stretch of link k is a stretch of the contents. */
  lemma {:induction false} BytesRead(v: Vol, n: nat, ch: seq<nat>, k: nat, o: nat, m: nat)
    requires Links(v, n, ch) && k < |ch| && o + m <= n
    ensures Data(v, ch[k]) && |v.data[ch[k] - 2]| == n && Pos(k, n) + o + m <= |Bytes(v, ch)|
    ensures v.data[ch[k] - 2][o..o + m] == Bytes(v, ch)[Pos(k, n) + o..Pos(k, n) + o + m]
  {
    hide Links, Bytes, Pos, Splice, WithData;
    var l := |ch| - 1;
    LinksFront(v, n, ch);
    LinksLength(v, n, ch[..l]);
    if k < l {
      BytesRead(v, n, ch[..l], k, o, m);
    }
  }
}
