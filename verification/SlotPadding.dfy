/** padPointer of the memory pool: size_t arithmetic that wraps around, and what it aligns. */
module SlotPadding {
  import opened Remainders

  const WORD := 8
  const BLOCK := 4096
  const MAX_SLOT := 512
  const TWO64 := 0x1_0000_0000_0000_0000

  // ---------------------------------------------------------------- padding

  /** padPointer: the difference wraps around before the remainder is taken. */
  function PadPointer(p: nat, align: nat): nat
    requires align > 0
  {
    (align - p) % TWO64 % align
  }

  /** The wrapped difference: whether it wraps is whether `p` is past `align`. */
  lemma Wrapped(p: nat, align: nat)
    requires 0 < align <= MAX_SLOT && p < TWO64
    ensures (align - p) % TWO64 == if p <= align then align - p else TWO64 + align - p
  {
    if p <= align {
      ModUnique(align - p, 0, TWO64, align - p);
    } else {
      ModUnique(align - p, -1, TWO64, TWO64 + align - p);
    }
  }

  /** The remainder of words by words is in words. */
  lemma ModInWords(y: nat, k: nat)
    requires k > 0
    ensures (WORD * y) % (WORD * k) == WORD * (y % k) <= WORD * k - WORD
  {
    var q := y / k;
    assert y == q * k + y % k;
    assert WORD * y == q * (WORD * k) + WORD * (y % k);
    ModUnique(WORD * y, q, WORD * k, WORD * (y % k));
  }

  /** The padding is a whole number of words and leaves room for one slot behind it. */
  lemma PadInWords(p: nat, align: nat)
    requires 0 < align <= MAX_SLOT && align % WORD == 0 && p < TWO64 && p % WORD == 0
    ensures PadPointer(p, align) % WORD == 0 && PadPointer(p, align) <= align - WORD
  {
    Wrapped(p, align);
    var x := (align - p) % TWO64;
    var y, k := x / WORD, align / WORD;
    assert x == WORD * y && align == WORD * k;
    ModInWords(y, k);
    var r := y % k;
    assert PadPointer(p, align) == WORD * r;
  }

  /** What the wrapped padding adds up to. */
  lemma PadRemainder(p: nat, align: nat)
    requires 0 < align <= MAX_SLOT && p < TWO64
    ensures (p + PadPointer(p, align)) % align == if p <= align then 0 else TWO64 % align
  {
    Wrapped(p, align);
    var x := (align - p) % TWO64;
    var q := x / align;
    assert x == q * align + x % align;
    var base := if p <= align then 0 else TWO64;
    assert p + x % align == base + (1 - q) * align by {
      assert (1 - q) * align == align - q * align;
    }
    ModShift(base, 1 - q, align);
    if p <= align {
      ModUnique(0, 0, align, 0);
    }
  }

  predicate PowerOfTwo(n: nat) {
    n == 1 || (n > 1 && n % 2 == 0 && PowerOfTwo(n / 2))
  }

  function Pow2(e: nat): nat {
    if e == 0 then 1 else 2 * Pow2(e - 1)
  }

  /** Twice `x` is a multiple of the even `n` when `x` is one of its half. */
  lemma HalveBoth(x: nat, n: nat)
    requires n > 1 && n % 2 == 0
    ensures (2 * x) % n == 0 <==> x % (n / 2) == 0
  {
    var h := n / 2;
    if (2 * x) % n == 0 {
      var q := (2 * x) / n;
      assert 2 * x == n * q + (2 * x) % n;
      assert n * q == 2 * (h * q);
      ModUnique(x, q, h, 0);
    }
    if x % h == 0 {
      var q := x / h;
      assert x == h * q + x % h;
      assert 2 * x == q * n;
      ModUnique(2 * x, q, n, 0);
    }
  }

  /** An odd divisor of twice `x` divides `x`. */
  lemma OddDivides(x: nat, n: nat)
    requires n % 2 == 1 && (2 * x) % n == 0
    ensures x % n == 0
  {
    var q := (2 * x) / n;
    assert 2 * x == n * q + (2 * x) % n;
    var k := n / 2;
    assert n * q == 2 * (k * q) + q;
    assert q == 2 * (x - k * q);
    var h := x - k * q;
    assert x == h * n by {
      assert n * (2 * h) == 2 * (h * n);
    }
    ModUnique(x, h, n, 0);
  }

  /** Up to 2^e, exactly the powers of two divide 2^e. */
  lemma {:induction false} DividesPow2(n: nat, e: nat)
    requires 0 < n <= Pow2(e)
    ensures Pow2(e) % n == 0 <==> PowerOfTwo(n)
    decreases e
  {
    if e == 0 || n == 1 {
    } else if n % 2 == 0 {
      HalveBoth(Pow2(e - 1), n);
      DividesPow2(n / 2, e - 1);
    } else if Pow2(e) % n == 0 {
      Pow2Positive(e - 1);
      OddDivides(Pow2(e - 1), n);
      if n <= Pow2(e - 1) {
        DividesPow2(n, e - 1);
      } else {
        ModUnique(Pow2(e - 1), 0, n, Pow2(e - 1));
      }
    }
  }

  lemma Pow2Positive(e: nat)
    ensures Pow2(e) > 0
  {
  }

  lemma {:induction false} Pow2Sum(a: nat, b: nat)
    ensures Pow2(a + b) == Pow2(a) * Pow2(b)
  {
    if a > 0 {
      Pow2Sum(a - 1, b);
      assert (2 * Pow2(a - 1)) * Pow2(b) == 2 * (Pow2(a - 1) * Pow2(b));
    }
  }

  lemma Pow2At64()
    ensures Pow2(64) == TWO64
  {
    assert Pow2(8) == 0x100;
    Pow2Sum(8, 8);
    Pow2Sum(16, 16);
    Pow2Sum(32, 32);
  }

  /** The padding aligns a pointer past `align` exactly when `align` is a power of two. */
  lemma PadAligns(p: nat, align: nat)
    requires 0 < align <= MAX_SLOT && p < TWO64
    ensures (p + PadPointer(p, align)) % align == 0 <==> p <= align || PowerOfTwo(align)
  {
    PadRemainder(p, align);
    Pow2At64();
    DividesPow2(align, 64);
  }

  /** The wrap-around misses the alignment for a slot size of three words. */
  lemma PadMisses24()
    ensures (4104 + PadPointer(4104, 24)) % 24 != 0
  {
    PadAligns(4104, 24);
    assert !PowerOfTwo(3);
    assert !PowerOfTwo(6);
    assert !PowerOfTwo(12);
  }
}
