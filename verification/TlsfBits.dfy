/**
 The bit scans of the TLSF allocator, on 32-bit words as sequences of bits, lowest first.
 */
module TlsfBits {
  import opened Powers

  const WORD: nat := 32

  type Word = w: seq<bool> | |w| == WORD witness seq(WORD, _ => false)

  function Zero(): Word { seq(WORD, _ => false) }

  function Shl(w: Word, k: nat): Word { seq(WORD, i requires 0 <= i < WORD => i >= k && w[i - k]) }

  function Not(w: seq<bool>): (r: seq<bool>)
    ensures |r| == |w|
  {
    seq(|w|, i requires 0 <= i < |w| => !w[i])
  }

  function And(v: Word, w: Word): Word { seq(WORD, i requires 0 <= i < WORD => v[i] && w[i]) }

  /** Adding one: the carry runs through the leading ones. */
  function Inc(w: seq<bool>): (r: seq<bool>)
    ensures |r| == |w|
  {
    if w == [] then [] else if w[0] then [false] + Inc(w[1..]) else [true] + w[1..]
  }

  /** Nothing is set from place k on. */
  ghost predicate ClearFrom(w: seq<bool>, k: nat) { forall i :: k <= i < |w| ==> !w[i] }

  ghost predicate ClearBelow(w: seq<bool>, k: nat) { forall i :: 0 <= i < k && i < |w| ==> !w[i] }

  /** k is the highest set place. */
  ghost predicate Highest(w: seq<bool>, k: int) { 0 <= k < |w| && w[k] && ClearFrom(w, k + 1) }

  /** k is the lowest set place. */
  ghost predicate Lowest(w: seq<bool>, k: int) { 0 <= k < |w| && w[k] && ClearBelow(w, k) }

  /** One halving step of the scan: shift if the top n places are clear. */
  method ShiftIfClear(word: Word, bit: nat, n: nat, ghost w: Word) returns (word': Word, bit': nat)
    requires 0 < n <= 16 && 2 * n <= bit <= WORD && word == Shl(w, WORD - bit) && ClearFrom(w, bit)
    requires exists i :: 0 <= i < bit && bit - 2 * n <= i && w[i]
    ensures n <= bit' <= WORD && word' == Shl(w, WORD - bit') && ClearFrom(w, bit')
    ensures exists i :: 0 <= i < bit' && bit' - n <= i && w[i]
  {
    var clear := forall i :: WORD - n <= i < WORD ==> !word[i];
    if clear {
      word', bit' := Shl(word, n), bit - n;
      assert forall i :: bit - n <= i < bit ==> word[i + (WORD - bit)] == w[i];
      assert word' == Shl(w, WORD - bit');
    } else {
      word', bit' := word, bit;
      var i :| WORD - n <= i < WORD && word[i];
      assert w[i - (WORD - bit)];
    }
  }

  method FlsGeneric(w: Word) returns (bit: nat)
    ensures bit <= WORD && (bit == 0 <==> ClearFrom(w, 0)) && (bit > 0 ==> Highest(w, bit - 1))
  {
    var word: Word := w;
    bit := 32;
    if forall i :: 0 <= i < WORD ==> !word[i] {
      // one from the first test, then 16, 8, 4, 2 and 1: a word of zeros stays one through all shifts
      bit := bit - 1 - 16 - 8 - 4 - 2 - 1;
      return;
    }
    assert Shl(w, 0) == w;
    word, bit := ShiftIfClear(word, bit, 16, w);
    word, bit := ShiftIfClear(word, bit, 8, w);
    word, bit := ShiftIfClear(word, bit, 4, w);
    word, bit := ShiftIfClear(word, bit, 2, w);
    word, bit := ShiftIfClear(word, bit, 1, w);
  }

  /** Negating a word and adding one keeps the lowest set place and clears, in the conjunction, all others. */
  lemma {:induction false} LowestAlone(w: seq<bool>, k: nat)
    requires Lowest(w, k)
    ensures forall i :: 0 <= i < |w| ==> (w[i] && Inc(Not(w))[i] <==> i == k)
    decreases k
  {
    var n := Not(w);
    if k > 0 {
      var t := w[1..];
      assert forall i :: 0 <= i < |t| ==> t[i] == w[i + 1];
      LowestAlone(t, k - 1);
      assert n[1..] == Not(t);
      assert Inc(n) == [false] + Inc(Not(t));
      forall i | 0 <= i < |w| ensures w[i] && Inc(n)[i] <==> i == k {
        if i > 0 {
          assert w[i] == t[i - 1] && Inc(n)[i] == Inc(Not(t))[i - 1];
        }
      }
    } else {
      assert Inc(n) == [true] + n[1..];
    }
  }

  /** The lowest set place, -1 if none is. */
  method Ffs(w: Word) returns (r: int)
    ensures -1 <= r < WORD && (r == -1 <==> ClearFrom(w, 0)) && (r >= 0 ==> Lowest(w, r))
  {
    var alone := And(w, Inc(Not(w)));
    if k: nat :| Lowest(w, k) {
      LowestAlone(w, k);
      assert w[k] && alone[k];
    } else {
      NoLowest(w, WORD);
      assert ClearFrom(w, 0) && ClearFrom(alone, 0);
    }
    assert ClearFrom(alone, 0) <==> ClearFrom(w, 0);
    r := FlsGeneric(alone);
    r := r - 1;
  }

  lemma {:induction false} NoLowest(w: seq<bool>, n: nat)
    requires n <= |w| && forall k: nat :: !Lowest(w, k)
    ensures ClearBelow(w, n)
  {
    if n > 0 {
      NoLowest(w, n - 1);
      assert !Lowest(w, n - 1);
    }
  }

  // ----- words of numbers

  /** The lowest k bits of n. */
  function Bits(n: nat, k: nat): (w: seq<bool>)
    ensures |w| == k
    decreases k
  {
    if k == 0 then [] else [n % 2 == 1] + Bits(n / 2, k - 1)
  }

  lemma {:induction false} ClearIsZero(n: nat, k: nat)
    requires n < Pow2(k)
    ensures ClearFrom(Bits(n, k), 0) <==> n == 0
    decreases k
  {
    if k > 0 {
      ClearIsZero(n / 2, k - 1);
      var w, t := Bits(n, k), Bits(n / 2, k - 1);
      assert w[0] == (n % 2 == 1);
      assert forall i :: 0 <= i < |t| ==> t[i] == w[i + 1];
      assert ClearFrom(w, 0) <==> !w[0] && ClearFrom(t, 0);
    }
  }

  /** The highest set bit is the binary logarithm. */
  lemma {:induction false} HighestIsLog(n: nat, k: nat, h: nat)
    requires n < Pow2(k) && Highest(Bits(n, k), h)
    ensures Pow2(h) <= n < Pow2(h + 1)
    decreases k
  {
    var w, t := Bits(n, k), Bits(n / 2, k - 1);
    assert forall i :: 0 <= i < |t| ==> t[i] == w[i + 1];
    if h == 0 {
      ClearIsZero(n / 2, k - 1);
    } else {
      HighestIsLog(n / 2, k - 1, h - 1);
    }
  }

  lemma Pow32()
    ensures Pow2(32) == 0x1_0000_0000
  {
    Pow2Add(8, 8);
    Pow2Add(16, 16);
    assert Pow2(8) == 256 by {
      Pow2Add(4, 4);
      assert Pow2(4) == 16;
    }
  }

  method Fls(n: nat) returns (r: int)
    requires n < 0x1_0000_0000
    ensures n == 0 ==> r == -1
    ensures n > 0 ==> 0 <= r < 32 && Pow2(r) <= n < Pow2(r + 1)
  {
    Pow32();
    ClearIsZero(n, 32);
    r := FlsGeneric(Bits(n, 32));
    r := r - 1;
    if r >= 0 {
      HighestIsLog(n, 32, r);
    }
  }

  /** The binary logarithm of a 64-bit size. */
  method FlsSizet(size: nat) returns (r: int)
    requires size < 0x1_0000_0000_0000_0000
    ensures size == 0 ==> r == -1
    ensures size > 0 ==> 0 <= r < 64 && Pow2(r) <= size < Pow2(r + 1)
  {
    var high := size / 0x1_0000_0000;
    if high != 0 {
      r := Fls(high);
      Pow32();
      Pow2Add(32, r);
      Pow2Add(32, r + 1);
      r := 32 + r;
    } else {
      r := Fls(size % 0x1_0000_0000);
    }
  }
}
