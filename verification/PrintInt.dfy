/**
snprintUInt64: decimal output of a 64-bit number into a buffer of n characters.  It divides by
100 in 64-bit arithmetic while the number is large, by 100 in 32-bit arithmetic while it has
more than 16 bits, and then by 10 with a multiplication and a shift.
*/
module PrintInt {
  import opened DivMod
  import opened Radix
  import opened MachineIntegers

  const U32: nat := 0x1_0000_0000
  const U64: nat := 0x1_0000_0000_0000_0000

  // ---------------------------------------------------------------------------------------
  // Decimal numerals
  // ---------------------------------------------------------------------------------------

  /** The decimal digits of n; zero has one. */
  function Decimal(n: nat): (d: seq<nat>)
    ensures AreDigits(d, 10) && |d| >= 1
  {
    if n == 0 then [0] else Digits(n, 10)
  }

  /** The digit characters; the entries after '9' are never used. */
  function Character(d: nat): char
    requires d < 10
  {
    "0123456789"[d]
  }

  function Text(digits: seq<nat>): (s: string)
    requires AreDigits(digits, 10)
    ensures |s| == |digits|
  {
    seq(|digits|, i requires 0 <= i < |digits| => Character(digits[i]))
  }

  /** The two characters that the tables DigitTens and DigitOnes hold for r. */
  function DigitTens(r: nat): char
    requires r < 100
  {
    Character(r / 10)
  }

  function DigitOnes(r: nat): char
    requires r < 100
  {
    Character(r % 10)
  }

  /** The numeral means n, and starts with 0 only if it is "0". */
  lemma DecimalMeaning(n: nat)
    ensures Value(Decimal(n), 10) == n
    ensures Decimal(n)[0] == 0 ==> Decimal(n) == [0]
  {
    ValueOfDigits(n, 10);
    assert [0][..0] == [];
  }

  /** Character codes minus that of '0'. */
  function CodeDigits(s: string): (d: seq<int>)
    ensures |d| == |s|
  {
    seq(|s|, i requires 0 <= i < |s| => s[i] as int - '0' as int)
  }

  lemma CharacterCode(d: nat)
    requires d < 10
    ensures Character(d) as int == '0' as int + d
  {}

  /** The text of a numeral, read back through its character codes, is the number. */
  lemma TextMeans(n: nat)
    ensures forall i | 0 <= i < |Text(Decimal(n))| :: '0' <= Text(Decimal(n))[i] <= '9'
    ensures var d := CodeDigits(Text(Decimal(n)));
            AreDecimal(d) && Value(d, 10) == n
  {
    var t, d := Text(Decimal(n)), Decimal(n);
    forall i | 0 <= i < |d| ensures CodeDigits(t)[i] == d[i] && '0' <= t[i] <= '9' {
      CharacterCode(d[i]);
    }
    assert CodeDigits(t) == d;
    DecimalMeaning(n);
  }

  predicate AreDecimal(d: seq<int>) {
    forall i | 0 <= i < |d| :: 0 <= d[i] < 10
  }

  lemma DecimalSplits(n: nat)
    requires n >= 10
    ensures Decimal(n) == Decimal(n / 10) + [n % 10]
  {}

  lemma DecimalOfSmall(n: nat)
    requires n < 10
    ensures Decimal(n) == [n]
  {
    if n > 0 {
      assert Digits(n, 10) == Digits(0, 10) + [n];
    }
  }

  lemma DecimalSplitsTwice(n: nat)
    requires n >= 100
    ensures Decimal(n) == Decimal(n / 100) + [(n % 100) / 10, (n % 100) % 10]
  {
    DecimalSplits(n);
    DecimalSplits(n / 10);
    assert (n / 10) / 10 == n / 100 && (n / 10) % 10 == (n % 100) / 10 && n % 10 == (n % 100) % 10;
  }

  /** A number has at most k > 0 decimal digits exactly when it is below 10^k. */
  lemma DecimalCount(n: nat, k: nat)
    requires k > 0
    ensures |Decimal(n)| <= k <==> n < Pow(10, k)
  {
    DigitCount(n, k, 10);
    PowPositive(10, k);
  }

  // ---------------------------------------------------------------------------------------
  // Machine arithmetic
  // ---------------------------------------------------------------------------------------

  /** The last phase's division: i * 52429 stays within 32 bits and, shifted by 19, is i / 10. */
  lemma MultiplyAndShift(i: nat)
    requires i < 65536
    ensures i * 52429 < U32
    ensures (i * 52429 % U32) / 0x8_0000 == i / 10
  {
    var q, r := i / 10, i % 10;
    assert i * 52429 == q * 0x8_0000 + (2 * q + 52429 * r);
    ModUnique(i * 52429, 0x8_0000, q, 2 * q + 52429 * r);
  }

  /** 100q as a sum of shifts, in arithmetic modulo m. */
  function Hundredfold(q: nat, m: nat): nat
    requires m > 0
  {
    ((q * 64 % m + q * 32 % m) % m + q * 4 % m) % m
  }

  function Rest100(x: nat, q: nat, m: nat): int
    requires m > 0
  {
    (x - Hundredfold(q, m)) % m
  }

  lemma ModSmall(x: nat, m: nat)
    requires x < m
    ensures x % m == x
  {
    ModUnique(x, m, 0, x);
  }

  lemma HundredfoldExact(q: nat, m: nat)
    requires q * 100 < m
    ensures Hundredfold(q, m) == q * 100
  {
    ModSmall(q * 64, m);
    ModSmall(q * 32, m);
    ModSmall(q * 4, m);
    ModSmall(q * 96, m);
    ModSmall(q * 100, m);
  }

  lemma Rest100Exact(x: nat, m: nat)
    requires x < m
    ensures Rest100(x, x / 100, m) == x % 100
  {
    HundredfoldExact(x / 100, m);
    ModSmall(x % 100, m);
  }

  /** The last two digits of x, as the 64-bit phase computes them and stores them in 32 bits. */
  function LastTwo64(x: Uint64): (r: nat)
    ensures r == x % 100
  {
    Rest100Exact(x, U64);
    Rest100(x, x / 100, U64) % U32
  }

  function LastTwo32(x: nat): (r: nat)
    requires x < U32
    ensures r == x % 100
  {
    Rest100Exact(x, U32);
    Rest100(x, x / 100, U32)
  }

  function Tenth16(x: nat): (q: nat)
    requires x < 65536
    ensures q == x / 10
  {
    MultiplyAndShift(x);
    (x * 52429 % U32) / 0x8_0000
  }

  // ---------------------------------------------------------------------------------------
  // The printer
  // ---------------------------------------------------------------------------------------

  method StringSize(l: Uint64) returns (size: nat)
    ensures size == |Decimal(l)|
  {
    var p := 10;
    size := 1;
    assert Pow(10, 0) == 1 && Pow(10, 1) == 10;
    while size < 20
      invariant 1 <= size <= 20
      invariant size < 20 ==> p == Pow(10, size)
      invariant size > 1 ==> l >= Pow(10, size - 1)
    {
      if l < p {
        DecimalCount(l, size);
        if size > 1 { DecimalCount(l, size - 1); }
        return;
      }
      p := 10 * p % U64;
      size := size + 1;
      Powers(size);
    }
    Powers(20);
    DecimalCount(l, 19);
    DecimalCount(l, 20);
  }

  lemma {:induction false} Powers(k: nat)
    ensures k > 0 ==> Pow(10, k) == 10 * Pow(10, k - 1)
    ensures k < 20 ==> Pow(10, k) < U64
    ensures k == 20 ==> Pow(10, k) > U64
  {
    PowMonotone(10, k, if k < 20 then 19 else k);
    assert Pow(10, 10) == 10_000_000_000;
    assert Pow(10, 9) == 1_000_000_000;
    PowAdds(10, 10, 9);
    PowAdds(10, 10, 10);
  }

  /** From charPos to length, s holds the text of the numeral. */
  ghost predicate Stored(s: seq<char>, charPos: nat, length: nat, numeral: seq<nat>) {
    && charPos <= length == |numeral| <= |s|
    && AreDigits(numeral, 10)
    && forall i | charPos <= i < length :: s[i] == Character(numeral[i])
  }

  /** Between phases: the digits of x are still to be stored, before charPos. */
  ghost predicate Written(s: seq<char>, charPos: nat, length: nat, x: nat, numeral: seq<nat>) {
    Stored(s, charPos, length, numeral) && numeral[..charPos] == Decimal(x)
  }

  lemma StoreOne(s: seq<char>, charPos: nat, length: nat, numeral: seq<nat>, front: seq<nat>, d: nat)
    requires Stored(s, charPos, length, numeral) && d < 10 && numeral[..charPos] == front + [d]
    ensures charPos == |front| + 1 && numeral[..charPos - 1] == front
    ensures Stored(s[charPos - 1 := Character(d)], charPos - 1, length, numeral)
  {
    assert numeral[charPos - 1] == numeral[..charPos][charPos - 1] == d;
    assert numeral[..charPos - 1] == numeral[..charPos][..charPos - 1];
  }

  lemma TwoMoreWritten(s: seq<char>, charPos: nat, length: nat, x: nat, numeral: seq<nat>)
    requires Written(s, charPos, length, x, numeral) && x >= 100
    ensures charPos >= 3
    ensures var r := x % 100;
            Written(s[charPos - 1 := DigitOnes(r)][charPos - 2 := DigitTens(r)], charPos - 2, length, x / 100, numeral)
  {
    var r, front := x % 100, Decimal(x / 100);
    DecimalSplitsTwice(x);
    assert numeral[..charPos] == (front + [r / 10]) + [r % 10];
    StoreOne(s, charPos, length, numeral, front + [r / 10], r % 10);
    StoreOne(s[charPos - 1 := DigitOnes(r)], charPos - 1, length, numeral, front, r / 10);
  }

  lemma OneMoreWritten(s: seq<char>, charPos: nat, length: nat, x: nat, numeral: seq<nat>)
    requires Written(s, charPos, length, x, numeral)
    ensures charPos >= 1
    ensures var t := s[charPos - 1 := Character(x % 10)];
            if x >= 10 then Written(t, charPos - 1, length, x / 10, numeral)
            else charPos == 1 && t[..length] == Text(numeral)
  {
    if x >= 10 {
      DecimalSplits(x);
      StoreOne(s, charPos, length, numeral, Decimal(x / 10), x % 10);
    } else {
      DecimalOfSmall(x);
      StoreOne(s, charPos, length, numeral, [], x);
    }
  }

  /** Two characters at a time in 64-bit arithmetic, until 31 bits are left. */
  method PrintHigh(s: array<char>, start: nat, x: Uint64, length: nat, ghost numeral: seq<nat>)
    returns (tmp: Uint64, charPos: nat)
    requires Written(s[..], start, length, x, numeral)
    modifies s
    ensures tmp <= 0x7FFF_FFFF && Written(s[..], charPos, length, tmp, numeral)
    ensures s[length..] == old(s[length..])
  {
    tmp, charPos := x, start;
    while tmp > 0x7FFF_FFFF
      invariant Written(s[..], charPos, length, tmp, numeral)
      invariant s[length..] == old(s[length..])
    {
      var q := tmp / 100;
      var r := LastTwo64(tmp);
      TwoMoreWritten(s[..], charPos, length, tmp, numeral);
      tmp := q;
      charPos := charPos - 1;
      s[charPos] := DigitOnes(r);
      charPos := charPos - 1;
      s[charPos] := DigitTens(r);
    }
  }

  /** The same in 32-bit arithmetic, until 16 bits are left. */
  method PrintMiddle(s: array<char>, start: nat, x: nat, length: nat, ghost numeral: seq<nat>)
    returns (i2: nat, charPos: nat)
    requires x < U32 && Written(s[..], start, length, x, numeral)
    modifies s
    ensures i2 < 65536 && Written(s[..], charPos, length, i2, numeral)
    ensures s[length..] == old(s[length..])
  {
    i2, charPos := x, start;
    while i2 >= 65536
      invariant i2 < U32 && Written(s[..], charPos, length, i2, numeral)
      invariant s[length..] == old(s[length..])
    {
      var q2 := i2 / 100;
      var r := LastTwo32(i2);
      TwoMoreWritten(s[..], charPos, length, i2, numeral);
      i2 := q2;
      charPos := charPos - 1;
      s[charPos] := DigitOnes(r);
      charPos := charPos - 1;
      s[charPos] := DigitTens(r);
    }
  }

  /** One character at a time, by multiplication and shift; the last one lands on position 0. */
  method PrintLow(s: array<char>, start: nat, x: nat, length: nat, ghost numeral: seq<nat>)
    returns (charPos: nat)
    requires x < 65536 && Written(s[..], start, length, x, numeral)
    modifies s
    ensures charPos == 0
    ensures s[..length] == Text(numeral)
    ensures s[length..] == old(s[length..])
  {
    charPos := start;
    var i2: nat := x;
    while true
      invariant i2 < 65536 && Written(s[..], charPos, length, i2, numeral)
      invariant s[length..] == old(s[length..])
      decreases i2
    {
      OneMoreWritten(s[..], charPos, length, i2, numeral);
      var q2 := Tenth16(i2);
      var r := i2 - (q2 * 8 + q2 * 2);
      charPos := charPos - 1;
      s[charPos] := Character(r);
      i2 := q2;
      if i2 == 0 {
        return;
      }
    }
  }

  function Min(a: int, b: int): int {
    if a < b then a else b
  }

  /** The characters the printer may store: at most n - 1, and at most the whole numeral. */
  function Fits(l: nat, n: nat): nat
    requires n > 0
  {
    Min(n - 1, |Decimal(l)|)
  }

  /**
  Stores the leading min(n - 1, digits) digits of l and a terminator, and nothing else.  With
  n == 1 the source writes before the buffer; PrintsNeedTwo says that no other n does.
  */
  method SnprintUInt64(s: array?<char>, n: nat, l: Uint64) returns (length: nat)
    requires s != null ==> n <= s.Length && n != 1
    modifies if s == null then {} else {s}
    ensures s == null || n == 0 ==> length == 0
    ensures s != null && n == 0 ==> s[..] == old(s[..])
    ensures s != null && n > 0 ==>
              && length == Fits(l, n)
              && s[..length] == Text(Decimal(l))[..length]
              && s[length] == '\0'
              && s[length + 1..] == old(s[length + 1..])
  {
    if s == null || n == 0 {
      return 0;
    }
    var tmp;
    tmp, length := Truncate(n, l);
    PrintDigits(s, tmp, length);
  }

  /** Drops low digits until fewer than n are left. */
  method Truncate(n: nat, l: Uint64) returns (tmp: Uint64, length: nat)
    requires n >= 2
    ensures length == Fits(l, n) && Decimal(tmp) == Decimal(l)[..length]
  {
    tmp := l;
    length := StringSize(l);
    while length >= n
      invariant 1 <= length <= |Decimal(l)|
      invariant length >= Fits(l, n)
      invariant Decimal(tmp) == Decimal(l)[..length]
    {
      DecimalSplitsBack(tmp);
      assert Decimal(l)[..length - 1] == Decimal(l)[..length][..length - 1];
      tmp := tmp / 10;
      length := length - 1;
    }
  }

  method PrintDigits(s: array<char>, x: Uint64, length: nat)
    requires length == |Decimal(x)| < s.Length
    modifies s
    ensures s[..length] == Text(Decimal(x)) && s[length] == '\0'
    ensures s[length + 1..] == old(s[length + 1..])
  {
    s[length] := '\0';
    ghost var after := s[length..];
    PrintPhases(s, x, length, Decimal(x));
    assert s[length..] == after;
    assert s[length] == after[0];
    assert s[length + 1..] == after[1..];
  }

  method PrintPhases(s: array<char>, x: Uint64, length: nat, ghost numeral: seq<nat>)
    requires Written(s[..], length, length, x, numeral)
    modifies s
    ensures s[..length] == Text(numeral)
    ensures s[length..] == old(s[length..])
  {
    var tmp, charPos := PrintHigh(s, length, x, length, numeral);
    var i2;
    i2, charPos := PrintMiddle(s, charPos, tmp, length, numeral);
    charPos := PrintLow(s, charPos, i2, length, numeral);
  }

  lemma DecimalSplitsBack(x: nat)
    requires |Decimal(x)| >= 2
    ensures x >= 10 && Decimal(x) == Decimal(x / 10) + [x % 10]
  {
    if x < 10 {
      DecimalOfSmall(x);
    } else {
      DecimalSplits(x);
    }
  }

  /** The value left after dropping digits until fewer than n remain. */
  function Truncated(l: nat, length: nat, n: nat): nat
    requires n > 0
    decreases length
  {
    if length < n then l else Truncated(l / 10, length - 1, n)
  }

  /** The last phase always stores at least one character, so the buffer needs n >= 2, and n >= 2 is enough. */
  lemma PrintsNeedTwo(l: nat, n: nat)
    requires n > 0
    ensures |Decimal(Truncated(l, |Decimal(l)|, n))| <= Fits(l, n) <==> n >= 2
  {
    if n >= 2 {
      TruncatedLength(l, |Decimal(l)|, n);
    }
  }

  /** For instance with n == 1 nothing may be stored, and the zero that is left would be. */
  lemma {:induction false} OneIsTooSmall(l: nat, length: nat)
    requires length == |Decimal(l)|
    ensures Decimal(Truncated(l, length, 1)) == [0] && Fits(l, 1) == 0
    decreases length
  {
    if length >= 2 {
      DecimalSplitsBack(l);
      OneIsTooSmall(l / 10, length - 1);
    } else {
      if l >= 10 {
        DecimalSplits(l);
      }
      assert Truncated(l, 1, 1) == Truncated(l / 10, 0, 1) == 0;
    }
  }

  lemma {:induction false} TruncatedLength(l: nat, length: nat, n: nat)
    requires n >= 2 && length == |Decimal(l)|
    ensures |Decimal(Truncated(l, length, n))| == Min(n - 1, length)
    decreases length
  {
    if length >= n {
      DecimalSplitsBack(l);
      TruncatedLength(l / 10, length - 1, n);
    }
  }
}
