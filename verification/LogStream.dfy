/** LogStream::formatInteger: the decimal text of an integer, least significant digit first. */
module DecimalText {

  /** Division in C rounds towards zero … */
  function CDiv(n: int): int {
    if n >= 0 then n / 10 else -(-n / 10)
  }

  /** … and the remainder has the sign of the dividend. */
  function CMod(n: int): int {
    n - 10 * CDiv(n)
  }

  function Abs(n: int): nat {
    if n >= 0 then n else -n
  }

  /** Dividing moves towards zero, so no value leaves the range of the argument's type. */
  lemma CDivFacts(n: int)
    ensures Abs(CDiv(n)) == Abs(n) / 10 && Abs(CMod(n)) == Abs(n) % 10
    ensures -9 <= CMod(n) <= 9
    ensures n <= CDiv(n) <= 0 || 0 <= CDiv(n) <= n
  {
  }

  const DIGITS := "9876543210123456789"

  /** zero[remainder], with `zero` at the middle of the table. */
  function TableDigit(remainder: int): char
    requires -9 <= remainder <= 9
  {
    DIGITS[9 + remainder]
  }

  function DigitChar(d: nat): char
    requires d < 10
  {
    '0' + d as char
  }

  lemma TableSymmetric(r: int)
    requires -9 <= r <= 9
    ensures TableDigit(r) == DigitChar(Abs(r))
  {
    assert DIGITS[9 + r] == DigitChar(Abs(r));
  }

  /** The characters of the do-while loop in the order in which they are written. */
  function Digits(n: int): string
    decreases Abs(n)
  {
    CDivFacts(n);
    if CDiv(n) == 0 then [TableDigit(CMod(n))] else [TableDigit(CMod(n))] + Digits(CDiv(n))
  }

  function Written(n: int): string {
    Digits(n) + if n < 0 then "-" else ""
  }

  function Reversed<T>(s: seq<T>): seq<T> {
    if s == [] then [] else Reversed(s[1..]) + [s[0]]
  }

  // ---------------------------------------------------------------- reading it back

  predicate IsDigit(c: char) {
    '0' <= c <= '9'
  }

  ghost predicate AllDigits(s: string) {
    forall i :: 0 <= i < |s| ==> IsDigit(s[i])
  }

  /** The value of a digit string, read from the left. */
  function Value(s: string): nat
    requires AllDigits(s)
  {
    if s == "" then 0 else 10 * Value(s[..|s| - 1]) + (s[|s| - 1] - '0') as nat
  }

  /** Digits without a superfluous leading zero. */
  ghost predicate Numeral(s: string) {
    s != "" && AllDigits(s) && (|s| > 1 ==> s[0] != '0')
  }

  /** The decimal notation of an integer: a numeral, signed only if it is negative. */
  ghost predicate Canonical(s: string) {
    if s != "" && s[0] == '-' then Numeral(s[1..]) && s[1..] != "0" else Numeral(s)
  }

  ghost function Parse(s: string): int
    requires Canonical(s)
  {
    if s[0] == '-' then 0 - Value(s[1..]) else Value(s)
  }

  lemma {:induction false} NumeralPositive(s: string)
    requires Numeral(s) && s[0] != '0'
    ensures Value(s) >= 1
  {
    if |s| > 1 {
      NumeralPositive(s[..|s| - 1]);
    }
  }

  lemma {:induction false} NumeralUnique(s: string, t: string)
    requires Numeral(s) && Numeral(t) && Value(s) == Value(t)
    ensures s == t
  {
    var x, y := s[..|s| - 1], t[..|t| - 1];
    assert s == x + [s[|s| - 1]] && t == y + [t[|t| - 1]];
    assert Value(x) == Value(y) && s[|s| - 1] == t[|t| - 1];
    if x != "" {
      NumeralPositive(x);
    }
    if y != "" {
      NumeralPositive(y);
    }
    if x != "" && y != "" {
      NumeralUnique(x, y);
    }
  }

  lemma NumeralZero(s: string)
    requires Numeral(s)
    ensures Value(s) == 0 <==> s == "0"
  {
    if s[0] != '0' {
      NumeralPositive(s);
    }
  }

  /** Every integer has one decimal notation. */
  lemma CanonicalUnique(s: string, t: string)
    requires Canonical(s) && Canonical(t) && Parse(s) == Parse(t)
    ensures s == t
  {
    var sneg, tneg := s[0] == '-', t[0] == '-';
    var x := if sneg then s[1..] else s;
    var y := if tneg then t[1..] else t;
    NumeralZero(x);
    NumeralZero(y);
    NumeralUnique(x, y);
    assert sneg ==> s == "-" + x;
    assert tneg ==> t == "-" + y;
  }

  // ---------------------------------------------------------------- the loop writes that

  lemma {:induction false} ReversedPlus<T>(s: seq<T>, x: T)
    ensures Reversed(s + [x]) == [x] + Reversed(s)
  {
    if s != [] {
      assert (s + [x])[1..] == s[1..] + [x];
      ReversedPlus(s[1..], x);
    } else {
      assert ([x])[1..] == [];
    }
  }

  lemma TableValue(n: int)
    ensures -9 <= CMod(n) <= 9
    ensures
      var c := TableDigit(CMod(n));
      IsDigit(c) && (c - '0') as nat == Abs(n) % 10
  {
    CDivFacts(n);
    TableSymmetric(CMod(n));
  }

  lemma ReversedDigits(n: int)
    ensures -9 <= CMod(n) <= 9
    ensures Reversed(Digits(n)) == (if CDiv(n) == 0 then "" else Reversed(Digits(CDiv(n)))) + [TableDigit(CMod(n))]
  {
    CDivFacts(n);
    if CDiv(n) != 0 {
      assert Digits(n)[1..] == Digits(CDiv(n));
    }
  }

  lemma ValuePlus(s: string, c: char)
    requires AllDigits(s) && IsDigit(c)
    ensures AllDigits(s + [c]) && Value(s + [c]) == 10 * Value(s) + (c - '0') as nat
  {
    assert (s + [c])[..|s|] == s;
  }

  /** `r` reads as `n`, without a superfluous zero. */
  ghost predicate Reads(r: string, n: nat) {
    Numeral(r) && Value(r) == n && (r[0] == '0' ==> n == 0)
  }

  lemma OneDigitReads(c: char)
    requires IsDigit(c)
    ensures Reads([c], (c - '0') as nat)
  {
    ValuePlus("", c);
    assert "" + [c] == [c];
  }

  lemma MoreDigitsRead(r: string, q: nat, c: char)
    requires Reads(r, q) && q > 0 && IsDigit(c)
    ensures Reads(r + [c], 10 * q + (c - '0') as nat)
  {
    ValuePlus(r, c);
  }

  lemma {:induction false} DigitsRead(n: int)
    ensures Reads(Reversed(Digits(n)), Abs(n))
    decreases Abs(n)
  {
    CDivFacts(n);
    TableValue(n);
    ReversedDigits(n);
    var q, c := CDiv(n), TableDigit(CMod(n));
    if q == 0 {
      OneDigitReads(c);
      assert "" + [c] == [c];
    } else {
      DigitsRead(q);
      MoreDigitsRead(Reversed(Digits(q)), Abs(q), c);
    }
  }

  /** What formatInteger leaves in the buffer is the decimal notation of its argument. */
  lemma WrittenReads(n: int)
    ensures Canonical(Reversed(Written(n))) && Parse(Reversed(Written(n))) == n
  {
    DigitsRead(n);
    var r := Reversed(Digits(n));
    if n < 0 {
      ReversedPlus(Digits(n), '-');
      assert Reversed(Written(n)) == ['-'] + r;
      assert (['-'] + r)[1..] == r;
      NumeralZero(r);
    } else {
      assert Written(n) == Digits(n);
    }
  }

  function Pow10(k: nat): nat {
    if k == 0 then 1 else 10 * Pow10(k - 1)
  }

  lemma {:induction false} DigitsLength(n: int, k: nat)
    requires Abs(n) < Pow10(k) && k > 0
    ensures 1 <= |Digits(n)| <= k
    decreases k
  {
    CDivFacts(n);
    if CDiv(n) != 0 {
      DigitsLength(CDiv(n), k - 1);
    }
  }

  predicate In64(n: int) {
    -0x8000_0000_0000_0000 <= n < 0x1_0000_0000_0000_0000
  }

  /** At most 20 characters for any signed or unsigned 64-bit integer. */
  lemma WrittenLength(n: int)
    requires In64(n)
    ensures 1 <= |Written(n)| <= 20
  {
    assert Pow10(10) == 10_000_000_000;
    assert Pow10(19) == 10_000_000_000_000_000_000;
    if n < 0 {
      DigitsLength(n, 19);
    } else {
      DigitsLength(n, 20);
    }
  }
}

module LogStreams {
  import opened DecimalText
  import opened FixedBuffers

  const MAX_NUMBER := 32

  /** std::reverse(start, cur) */
  method ReverseRange(a: array<char>, lo: nat, hi: nat)
    requires lo <= hi <= a.Length
    modifies a
    ensures a[lo..hi] == Reversed(old(a[lo..hi]))
    ensures a[..lo] == old(a[..lo]) && a[hi..] == old(a[hi..])
  {
    var i, j := lo, hi;
    while i < j && i < j - 1
      invariant lo <= i <= hi && j == hi - (i - lo) && i <= j + 1
      invariant forall k :: lo <= k < i || j <= k < hi ==> a[k] == old(a[lo + hi - 1 - k])
      invariant forall k :: i <= k < j ==> a[k] == old(a[k])
      invariant a[..lo] == old(a[..lo]) && a[hi..] == old(a[hi..])
    {
      j := j - 1;
      a[i], a[j] := a[j], a[i];
      i := i + 1;
    }
    ghost var was, now := old(a[lo..hi]), a[lo..hi];
    forall k | 0 <= k < hi - lo ensures now[k] == was[|was| - 1 - k] {
      assert a[lo + k] == old(a[lo + hi - 1 - (lo + k)]);
    }
    ReversedIs(was, now);
  }

  lemma {:induction false} ReversedIs(s: string, t: string)
    requires |s| == |t| && forall k :: 0 <= k < |s| ==> t[k] == s[|s| - 1 - k]
    ensures t == Reversed(s)
  {
    if s != "" {
      var n := |s| - 1;
      ReversedIs(s[1..], t[..n]);
      assert t == t[..n] + [s[0]];
    }
  }

  /** *cur++ = c */
  method PutChar(a: array<char>, ghost start: nat, cur: nat, c: char) returns (after: nat)
    requires start <= cur < a.Length
    modifies a
    ensures after == cur + 1 && a[start..after] == old(a[start..cur]) + [c] && a[..start] == old(a[..start])
  {
    a[cur] := c;
    after := cur + 1;
  }

  /** One turn of the do-while loop: the digit of `num`, then the quotient. */
  method WriteDigit(a: array<char>, ghost start: nat, cur: nat, num: int, ghost done: string)
    returns (next: nat, quotient: int, ghost written: string)
    requires start <= cur < a.Length && a[start..cur] == done
    modifies a
    ensures next == cur + 1 && a[start..next] == written && a[..start] == old(a[..start])
    ensures quotient == CDiv(num) && Abs(quotient) <= Abs(num)
    ensures quotient != 0 ==> Abs(quotient) < Abs(num) && done + Digits(num) == written + Digits(quotient)
    ensures quotient == 0 ==> done + Digits(num) == written
  {
    CDivFacts(num);
    var remainder := CMod(num);
    next := PutChar(a, start, cur, TableDigit(remainder));
    quotient := CDiv(num);
    written := done + [TableDigit(remainder)];
  }

  method WriteDigits(a: array<char>, start: nat, n: int) returns (cur: nat)
    requires start + |Digits(n)| <= a.Length
    modifies a
    ensures cur == start + |Digits(n)| && a[start..cur] == Digits(n)
    ensures a[..start] == old(a[..start])
  {
    var num := n;
    cur := start;
    ghost var done := "";
    while true
      invariant done + Digits(num) == Digits(n) && |Digits(num)| > 0
      invariant cur == start + |done| && a[start..cur] == done
      invariant a[..start] == old(a[..start])
      decreases Abs(num)
    {
      cur, num, done := WriteDigit(a, start, cur, num, done);
      if num == 0 {
        break;
      }
    }
  }

  class LogStream {
    const buffer: FixedBuffer

    constructor (buffer: FixedBuffer)
      ensures this.buffer == buffer
    {
      this.buffer := buffer;
    }

    /** The digits and the sign from `buffer.current()` on, in writing order. */
    method WriteNumber(n: int) returns (cur: nat)
      requires buffer.Valid() && buffer.Avail() >= MAX_NUMBER && In64(n)
      modifies buffer.data
      ensures cur == buffer.cur + |Written(n)| && |Written(n)| <= 20
      ensures buffer.data[buffer.cur..cur] == Written(n)
      ensures buffer.data[..buffer.cur] == old(buffer.data[..buffer.cur])
    {
      WrittenLength(n);
      var negative := n < 0;
      cur := WriteDigits(buffer.data, buffer.cur, n);
      if negative {
        cur := PutChar(buffer.data, buffer.cur, cur, '-');
      }
    }

    method FormatInteger(n: int)
      requires buffer.Valid() && In64(n)
      modifies buffer, buffer.data
      ensures buffer.Valid()
      ensures old(buffer.Avail()) < MAX_NUMBER ==> buffer.Contents() == old(buffer.Contents())
      ensures old(buffer.Avail()) >= MAX_NUMBER ==>
        exists t :: Canonical(t) && Parse(t) == n && |t| <= 20 &&
          buffer.Contents() == old(buffer.Contents()) + t && buffer.Avail() > 0 && buffer.data[buffer.size] == '\0'
    {
      if buffer.Avail() >= MAX_NUMBER {
        var start := buffer.cur;
        var cur := WriteNumber(n);
        buffer.data[cur] := '\0';
        ReverseRange(buffer.data, start, cur);
        buffer.Add(cur - start);
        WrittenReads(n);
        assert buffer.data[start..cur] == Reversed(Written(n));
        assert buffer.Contents() == old(buffer.Contents()) + Reversed(Written(n));
      }
    }
  }
}
