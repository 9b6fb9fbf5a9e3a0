/**
 The size classes of the TLSF allocator.

 Class c = 4 * fl + sl holds the sizes from Lo(c) up to, not including, Lo(c + 1): four classes between one power of
 two and the next.
 */
module TlsfClass {
  import opened Powers
  import opened TlsfBits

  const SL_COUNT: nat := 4
  const FL_COUNT: nat := 27
  const CLASSES: nat := 108
  const SMALL: nat := 16
  const MAX_BLOCK: nat := 0x4000_0000
  /** The largest request whose class, rounded up, is still in the table: 2^30 - 2^27. */
  const MAX_REQUEST: nat := 0x3800_0000

  /** The smallest size of a class. */
  function Lo(c: nat): nat { if c < 4 then 4 * c else (4 + c % 4) * Pow2(c / 4 + 1) }

  function Class(fl: nat, sl: nat): nat { 4 * fl + sl }

  /** c is the class of a size. */
  ghost predicate Fits(size: nat, c: nat) { Lo(c) <= size < Lo(c + 1) }

  lemma LoIs(fl: nat, sl: nat)
    requires sl <= 4 && fl > 0
    ensures Lo(4 * fl + sl) == (4 + sl) * Pow2(fl + 1)
  {
    var c := 4 * fl + sl;
    if sl == 4 {
      Quarters(c, fl + 1, 0);
      assert Pow2(fl + 2) == 2 * Pow2(fl + 1);
    } else {
      Quarters(c, fl, sl);
    }
  }

  lemma Quarters(c: nat, q: nat, r: nat)
    requires c == 4 * q + r && r < 4
    ensures c / 4 == q && c % 4 == r
  {
  }

  lemma LoGrows(c: nat)
    ensures Lo(c) < Lo(c + 1)
  {
    if c >= 4 {
      LoIs(c / 4, c % 4);
      LoIs(c / 4, c % 4 + 1);
    } else if c == 3 {
      assert Pow2(2) == 4;
    }
  }

  lemma {:induction false} LoMono(c: nat, d: nat)
    requires c <= d
    ensures Lo(c) <= Lo(d)
    decreases d - c
  {
    if c < d {
      LoMono(c, d - 1);
      LoGrows(d - 1);
    }
  }

  /** A size has one class. */
  lemma FitsOnce(size: nat, c: nat, d: nat)
    requires Fits(size, c) && Fits(size, d)
    ensures c == d
  {
    if c < d {
      LoMono(c + 1, d);
    } else if d < c {
      LoMono(d + 1, c);
    }
  }

  lemma Pow30()
    ensures Pow2(27) == 0x800_0000 && Pow2(30) == MAX_BLOCK
  {
    Pow2Add(8, 8);
    Pow2Add(16, 11);
    assert Pow2(4) == 16;
    Pow2Add(4, 4);
    assert Pow2(11) == 8 * Pow2(8);
    assert Pow2(30) == 8 * Pow2(27);
  }

  lemma LoEnds()
    ensures Lo(CLASSES) == MAX_BLOCK && Lo(CLASSES - 1) == MAX_BLOCK - Pow2(27)
  {
    Pow30();
    assert Pow2(27) == 2 * Pow2(26);
    hide Lo, Pow2;
    LoIs(26, 4);
    LoIs(26, 3);
  }

  /** A class is in the table exactly if its sizes are below 2^30. */
  lemma InTable(size: nat, c: nat)
    requires Fits(size, c)
    ensures c < CLASSES <==> size < MAX_BLOCK
  {
    LoEnds();
    if c < CLASSES {
      LoMono(c + 1, CLASSES);
    } else {
      LoMono(CLASSES, c);
    }
  }

  method MappingInsert(size: nat) returns (fl: nat, sl: nat)
    requires size < 0x1_0000_0000
    ensures sl < SL_COUNT && Fits(size, Class(fl, sl))
  {
    if size < SMALL {
      fl := 0;
      sl := size / 4;
      assert Pow2(2) == 4;
    } else {
      var f := FlsSizet(size);
      LogAtLeast(size, f);
      var q := size / Pow2(f - 2);
      Quotient(size, f);
      // exclusive or with 4, of a number from 4 to 7
      sl := q - 4;
      fl := f - 3;
      LoIs(fl, sl);
      LoIs(fl, sl + 1);
    }
  }

  lemma LogAtLeast(size: nat, f: nat)
    requires size >= SMALL && Pow2(f) <= size < Pow2(f + 1)
    ensures f >= 4
  {
    assert Pow2(4) == 16;
    if f < 4 {
      Pow2Mono(f + 1, 4);
    }
  }

  lemma Mul(a: int, b: int, p: nat)
    requires a <= b
    ensures a * p <= b * p
  {
  }

  lemma Succ(a: nat, p: nat)
    ensures (a + 1) * p == a * p + p
  {
  }

  lemma Divided(s: nat, p: nat)
    requires 0 < p && 4 * p <= s < 8 * p
    ensures 4 <= s / p < 8 && s / p * p <= s < (s / p + 1) * p
  {
    var q := s / p;
    assert s == q * p + s % p;
    if q < 4 {
      Mul(q + 1, 4, p);
    } else if q >= 8 {
      Mul(8, q, p);
    }
  }

  lemma Quarter(f: nat)
    requires f >= 2
    ensures Pow2(f) == 4 * Pow2(f - 2) && Pow2(f + 1) == 8 * Pow2(f - 2)
  {
  }

  lemma Quotient(size: nat, f: nat)
    requires f >= 2 && Pow2(f) <= size < Pow2(f + 1)
    ensures var q := size / Pow2(f - 2); 4 <= q < 8 && q * Pow2(f - 2) <= size < (q + 1) * Pow2(f - 2)
  {
    hide Pow2;
    Quarter(f);
    Divided(size, Pow2(f - 2));
  }

  /** c is the first class all of whose sizes are large enough: the request rounded up to a class boundary. */
  ghost predicate RoundedUp(size: nat, c: nat) { size <= Lo(c) && (c > 0 ==> Lo(c - 1) < size) }

  /** A boundary is at most a quarter above the request. */
  lemma ClassStep(request: nat, c: nat)
    requires RoundedUp(request, c) && request > SMALL
    ensures 4 * Lo(c) <= 5 * request
  {
    assert Pow2(2) == 4;
    if c <= 4 {
      assert Lo(4) == 16;
      LoMono(c, 4);
    } else {
      var fl, sl := (c - 1) / 4, (c - 1) % 4;
      Quarters(c - 1, fl, sl);
      hide Lo, Pow2;
      LoIs(fl, sl);
      LoIs(fl, sl + 1);
    }
  }

  /** The class a search for a request starts in. */
  method MappingSearch(request: nat) returns (fl: nat, sl: nat)
    requires SMALL <= request < MAX_BLOCK
    ensures sl < SL_COUNT && RoundedUp(request, Class(fl, sl))
    ensures Class(fl, sl) < CLASSES <==> request <= MAX_REQUEST
  {
    var f := FlsSizet(request);
    LogAtLeast(request, f);
    var size := request + (Pow2(f - 2) - 1);
    assert Pow2(f) == 4 * Pow2(f - 2);
    fl, sl := MappingInsert(size);
    SearchClass(request, f, Class(fl, sl));
    RequestInTable(request, Class(fl, sl));
  }

  /** The width of the class a size between 2^f and 2^(f+1) is in. */
  lemma SearchClass(request: nat, f: nat, c: nat)
    requires f >= 4 && Pow2(f) <= request < Pow2(f + 1) && Fits(request + (Pow2(f - 2) - 1), c)
    ensures RoundedUp(request, c)
  {
    hide Lo, Pow2;
    var p := Pow2(f - 2);
    Quotient(request, f);
    var q := request / p;
    var s := request + (p - 1);
    var fl := f - 3;
    LoIs(fl, q - 4);
    LoIs(fl, q - 3);
    if request == q * p {
      // already on a boundary
      assert Fits(s, 4 * fl + (q - 4));
      FitsOnce(s, c, 4 * fl + (q - 4));
      LoGrows(c - 1);
    } else {
      LoGrows(4 * fl + (q - 3));
      NextWidth(fl, q - 3);
      FitsOnce(s, c, 4 * fl + (q - 3));
    }
  }

  /** A class is at least as wide as those before it. */
  lemma NextWidth(fl: nat, sl: nat)
    requires fl > 0 && sl <= 4
    ensures Lo(4 * fl + sl + 1) >= Lo(4 * fl + sl) + Pow2(fl + 1)
  {
    assert Pow2(fl + 2) == 2 * Pow2(fl + 1);
    hide Lo, Pow2;
    LoIs(fl, sl);
    if sl < 4 {
      LoIs(fl, sl + 1);
      Succ(4 + sl, Pow2(fl + 1));
    } else {
      assert 4 * fl + sl + 1 == 4 * (fl + 1) + 1;
      LoIs(fl + 1, 1);
    }
  }

  lemma RequestInTable(request: nat, c: nat)
    requires RoundedUp(request, c)
    ensures c < CLASSES <==> request <= MAX_REQUEST
  {
    LoEnds();
    Pow30();
    if c < CLASSES {
      LoMono(c, CLASSES - 1);
    } else {
      LoMono(CLASSES - 1, c - 1);
    }
  }
}
