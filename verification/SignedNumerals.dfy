/**
ltoa and itoa: the numeral of a signed integer in a radix, written backwards and then reversed in
place.  The two functions differ only in the width of the integer.  Negating the least integer of
a width wraps around to itself.
*/
module SignedNumerals {
  import opened DivMod
  import opened Radix
  import opened MachineIntegers
  import opened Wrappers

  datatype Width = Int | Long

  function Least(w: Width): int {
    if w.Int? then -0x8000_0000 else -0x8000_0000_0000_0000
  }

  predicate Fits(w: Width, v: int) {
    Least(w) <= v < -Least(w)
  }

  /** The value that the negation of v leaves. */
  function Negated(w: Width, v: int): (n: int)
    requires Fits(w, v)
    ensures Fits(w, n)
  {
    if v == Least(w) then v else -v
  }

  type Base = r: int | 2 <= r <= 36 witness 10

  // ---------------------------------------------------------------------------------------
  // Division of the language: towards zero
  // ---------------------------------------------------------------------------------------

  function Quotient(v: int, r: Base): (q: int)
    ensures v >= 0 ==> 0 <= q <= v
    ensures v < 0 ==> v <= q <= 0
  {
    QuotientBound(Magnitude(v), r);
    if v >= 0 then v / r else -((-v) / r)
  }

  lemma QuotientBound(n: nat, r: Base)
    ensures 0 <= n / r <= n
  {
    if n > 0 {
      DivShrinks(n, r);
    }
  }

  function Remainder(v: int, r: Base): (m: int)
    ensures -(r as int) < m < r
  {
    if v >= 0 then v % r else -((-v) % r)
  }

  lemma QuotientShrinks(v: Int64, r: Base)
    requires v != 0
    ensures Magnitude(Quotient(v, r)) == Magnitude(v) / r < Magnitude(v)
    ensures v > 0 ==> Quotient(v, r) >= 0
    ensures v < 0 ==> Quotient(v, r) <= 0
    ensures Magnitude(Remainder(v, r)) == Magnitude(v) % r
    ensures v > 0 ==> Remainder(v, r) >= 0
    ensures v < 0 ==> Remainder(v, r) <= 0
  {
    DivShrinks(Magnitude(v), r);
  }

  function Magnitude(v: int): nat {
    if v < 0 then -v else v
  }

  // ---------------------------------------------------------------------------------------
  // What is printed
  // ---------------------------------------------------------------------------------------

  /** The character for a remainder; for a negative one it lies before '0'. */
  function Character(m: int): char
    requires -36 < m < 36
  {
    if m > 9 then (m - 10 + 'a' as int) as char else (m + '0' as int) as char
  }

  /** The characters of the digits of v, which carry the sign of v. */
  function Characters(v: int, r: Base): (s: string)
    ensures v != 0 ==> s != ""
  {
    var d := Digits(Magnitude(v), r);
    seq(|d|, i requires 0 <= i < |d| => Character(if v < 0 then -(d[i] as int) else d[i]))
  }

  function Rendered(w: Width, v: int, r: Base): (s: string)
    requires Fits(w, v)
    ensures s != ""
  {
    if v == 0 then "0"
    else if v < 0 && r == 10 then "-" + Characters(Negated(w, v), r)
    else Characters(v, r)
  }

  lemma CharactersSplit(v: Int64, r: Base)
    requires v != 0
    ensures Characters(v, r) == Characters(Quotient(v, r), r) + [Character(Remainder(v, r))]
  {
    QuotientShrinks(v, r);
    var n := Magnitude(v);
    var d, front := Digits(n, r), Digits(n / r, r);
    assert d == front + [n % r];
    var s, q := Characters(v, r), Characters(Quotient(v, r), r);
    assert |s| == |q| + 1;
    forall i | 0 <= i < |q| ensures s[i] == q[i] {
      assert d[i] == front[i];
      assert Quotient(v, r) != 0;
    }
    assert s[|q|] == Character(Remainder(v, r));
  }

  // ---------------------------------------------------------------------------------------
  // Reading a numeral
  // ---------------------------------------------------------------------------------------

  function DigitOf(c: char): int {
    if '0' <= c <= '9' then c as int - '0' as int
    else if 'a' <= c <= 'z' then c as int - 'a' as int + 10
    else -1
  }

  predicate IsNumeral(s: string, r: Base) {
    s != "" && forall i | 0 <= i < |s| :: 0 <= DigitOf(s[i]) < r
  }

  function DigitsOf(s: string, r: Base): (d: seq<nat>)
    requires IsNumeral(s, r)
    ensures |d| == |s| && forall i | 0 <= i < |d| :: d[i] == DigitOf(s[i])
  {
    seq(|s|, i requires 0 <= i < |s| => DigitOf(s[i]) as nat)
  }

  /** An optional minus sign and then one or more digits of the radix. */
  function Read(s: string, r: Base): Option<int> {
    if IsNumeral(s, r) then Some(Value(DigitsOf(s, r), r))
    else if s != "" && s[0] == '-' && IsNumeral(s[1..], r) then Some(-(Value(DigitsOf(s[1..], r), r) as int))
    else None
  }

  lemma ReadCharacters(v: int, r: Base)
    requires v > 0
    ensures IsNumeral(Characters(v, r), r)
    ensures Value(DigitsOf(Characters(v, r), r), r) == v
  {
    assert DigitsOf(Characters(v, r), r) == Digits(v, r);
    ValueOfDigits(v, r);
  }

  /** The characters of a negative number start with one that is no digit. */
  lemma NegativeCharacters(v: int, r: Base)
    requires v < 0
    ensures DigitOf(Characters(v, r)[0]) == -1
    ensures forall i | 0 <= i < |Characters(v, r)| :: Characters(v, r)[i] <= '0'
  {
    var s, d := Characters(v, r), Digits(Magnitude(v), r);
    assert s[0] == Character(-(d[0] as int));
  }

  /** No negative number comes back when the radix is not ten: its digits are not digits. */
  lemma NegativeUnreadable(v: int, r: Base)
    requires v < 0
    ensures Read(Characters(v, r), r) != Some(v)
  {
    var s := Characters(v, r);
    NegativeCharacters(v, r);
    assert !IsNumeral(s, r);
    if s[0] == '-' && IsNumeral(s[1..], r) {
      var rest := DigitsOf(s[1..], r);
      forall i | 0 <= i < |rest| ensures rest[i] == 0 {
        assert s[1..][i] == s[i + 1] <= '0';
      }
      assert rest == Zeros(|rest|);
      ValueOfZeros(|rest|, r);
    }
  }

  lemma SignedReadBack(w: Width, v: int)
    requires Fits(w, v) && v < 0
    ensures Read(Rendered(w, v, 10), 10) == if v == Least(w) then None else Some(v)
  {
    var s, n := Rendered(w, v, 10), Negated(w, v);
    assert s[1..] == Characters(n, 10);
    assert DigitOf(s[0]) == -1;
    if v == Least(w) {
      NegativeCharacters(n, 10);
      assert !IsNumeral(s[1..], 10);
    } else {
      ReadCharacters(n, 10);
    }
  }

  lemma ReadZero(r: Base)
    ensures Read("0", r) == Some(0)
  {
    assert IsNumeral("0", r);
    assert DigitsOf("0", r) == [0];
    assert [0][..0] == [];
    assert Value([0], r) == Value([], r) * r + 0;
  }

  /** Exactly the numbers that are printed as numerals read back. */
  lemma ReadBackIff(w: Width, v: int, r: Base)
    requires Fits(w, v)
    ensures Read(Rendered(w, v, r), r) == Some(v) <==> v >= 0 || (r == 10 && v != Least(w))
  {
    if v == 0 {
      ReadZero(r);
    } else if v > 0 {
      ReadCharacters(v, r);
    } else if r == 10 {
      SignedReadBack(w, v);
    } else {
      NegativeUnreadable(v, r);
    }
  }

  /** For instance -1 in radix 16, which comes out as a slash. */
  lemma UnreadableExample()
    ensures Rendered(Long, -1, 16) == "/" && Read("/", 16) == None
  {
    assert Digits(1, 16) == Digits(0, 16) + [1];
    assert Characters(-1, 16) == "/";
    assert DigitOf('/') == -1 && "/"[0] != '-';
  }

  lemma DigitsInjective(m: nat, n: nat, r: Base)
    requires Digits(m, r) == Digits(n, r)
    ensures m == n
  {
    ValueOfDigits(m, r);
    ValueOfDigits(n, r);
  }

  /** The characters carry sign and digits, so they determine the number. */
  lemma CharactersInjective(u: int, v: int, r: Base)
    ensures Characters(u, r) == Characters(v, r) ==> u == v
  {
    var c, d := Digits(Magnitude(u), r), Digits(Magnitude(v), r);
    var s, t := Characters(u, r), Characters(v, r);
    if s == t {
      assert |c| == |d|;
      if u != 0 && v != 0 {
        assert s[0] == Character(if u < 0 then -(c[0] as int) else c[0]);
        assert t[0] == Character(if v < 0 then -(d[0] as int) else d[0]);
        assert u < 0 <==> v < 0;
      }
      forall i | 0 <= i < |c| ensures c[i] == d[i] {
        assert s[i] == Character(if u < 0 then -(c[i] as int) else c[i]);
        assert t[i] == Character(if v < 0 then -(d[i] as int) else d[i]);
      }
      DigitsInjective(Magnitude(u), Magnitude(v), r);
    }
  }

  lemma OnlyZeroPrintsZero(v: int, r: Base)
    requires Characters(v, r) == "0"
    ensures v == 0
  {
    var d := Digits(Magnitude(v), r);
    assert "0"[0] == Character(if v < 0 then -(d[0] as int) else d[0]);
    assert d[0] == 0;
  }

  lemma NonzeroPrintsOther(w: Width, v: int, r: Base)
    requires Fits(w, v) && v != 0
    ensures Rendered(w, v, r) != "0"
  {
    if v < 0 && r == 10 {
      assert Rendered(w, v, r)[0] == '-';
    } else if Characters(v, r) == "0" {
      OnlyZeroPrintsZero(v, r);
    }
  }

  lemma SignIsNoDigit(u: int, v: int)
    requires v > 0
    ensures "-" + Characters(u, 10) != Characters(v, 10)
  {
    ReadCharacters(v, 10);
    assert DigitOf(Characters(v, 10)[0]) >= 0;
    assert ("-" + Characters(u, 10))[0] == '-' && DigitOf('-') == -1;
  }

  /** The digits in order. */
  lemma DigitsInOrder(m: int)
    requires 0 <= m < 10
    ensures Character(m) == "0123456789"[m]
  {
    assert "0123456789"[m] as int == 48 + m;
  }

  lemma LettersInOrder(m: int)
    requires 10 <= m < 36
    ensures Character(m) == "abcdefghijklmnopqrstuvwxyz"[m - 10]
  {
    assert "abcdefghijklmnopqrstuvwxyz"[m - 10] as int == 87 + m;
  }

  function Below(c: char): nat {
    if c as int <= 48 then 48 - c as int else 0
  }

  /** How far the codes lie below that of '0'. */
  function DigitsBelow(s: string): (d: seq<nat>)
    ensures |d| == |s| && forall i | 0 <= i < |d| :: d[i] == Below(s[i])
  {
    seq(|s|, i requires 0 <= i < |s| => Below(s[i]))
  }

  lemma NegativeCharacterAt(v: int, r: Base, i: nat)
    requires v < 0 && i < |Characters(v, r)|
    ensures |Digits(Magnitude(v), r)| == |Characters(v, r)|
    ensures Characters(v, r)[i] as int == 48 - Digits(Magnitude(v), r)[i]
  {
    var d := Digits(Magnitude(v), r);
    assert Characters(v, r)[i] == Character(-(d[i] as int));
  }

  /** A negative number in another radix than ten: each code is as far below '0' as its digit says. */
  lemma NegativeMeans(w: Width, v: int, r: Base)
    requires Fits(w, v) && v < 0 && r != 10
    ensures var s := Rendered(w, v, r);
            && (forall i | 0 <= i < |s| :: 48 - r < s[i] as int <= 48)
            && Value(DigitsBelow(s), r) == -v
  {
    var s, d := Characters(v, r), Digits(Magnitude(v), r);
    forall i | 0 <= i < |s| ensures |d| == |s| && s[i] as int == 48 - d[i] {
      NegativeCharacterAt(v, r, i);
    }
    assert DigitsBelow(s) == d;
    ValueOfDigits(Magnitude(v), r);
  }

  /** The text determines the number, in every radix. */
  lemma RenderedInjective(w: Width, u: int, v: int, r: Base)
    requires Fits(w, u) && Fits(w, v)
    requires Rendered(w, u, r) == Rendered(w, v, r)
    ensures u == v
  {
    if u == 0 || v == 0 {
      if u != 0 {
        NonzeroPrintsOther(w, u, r);
      }
      if v != 0 {
        NonzeroPrintsOther(w, v, r);
      }
    } else if r == 10 && u < 0 && v < 0 {
      assert Characters(Negated(w, u), r) == Rendered(w, u, r)[1..] == Rendered(w, v, r)[1..];
      assert Rendered(w, v, r)[1..] == Characters(Negated(w, v), r);
      CharactersInjective(Negated(w, u), Negated(w, v), r);
    } else if r == 10 && u < 0 {
      SignIsNoDigit(Negated(w, u), v);
    } else if r == 10 && v < 0 {
      SignIsNoDigit(Negated(w, v), u);
    } else {
      CharactersInjective(u, v, r);
    }
  }

  lemma {:induction false} PowGrowsWithBase(b: nat, c: nat, n: nat)
    requires b <= c
    ensures Pow(b, n) <= Pow(c, n)
  {
    if n > 0 {
      PowGrowsWithBase(b, c, n - 1);
      MulMonotone(Pow(b, n - 1), Pow(c, n - 1), b);
      MulMonotone(b, c, Pow(c, n - 1));
    }
  }

  lemma PowTwo64()
    ensures Pow(2, 64) == 0x1_0000_0000_0000_0000
  {
    PowAdds(2, 8, 8);
    PowAdds(2, 16, 16);
    PowAdds(2, 32, 32);
    assert Pow(2, 8) == 256;
  }

  lemma PowTen24()
    ensures Pow(10, 24) > 0x1_0000_0000_0000_0000
  {
    PowAdds(10, 8, 8);
    PowAdds(10, 16, 8);
    assert Pow(10, 8) == 1_0000_0000;
  }

  lemma CharactersFit(v: int, r: Base)
    requires Least(Long) <= v <= -Least(Long)
    ensures |Characters(v, r)| <= 64
    ensures r == 10 ==> |Characters(v, r)| <= 24
  {
    PowTwo64();
    PowGrowsWithBase(2, r, 64);
    DigitCount(Magnitude(v), 64, r);
    if r == 10 {
      PowTen24();
      DigitCount(Magnitude(v), 24, 10);
    }
  }

  /** 64 characters and the terminator always suffice. */
  lemma RenderedFits(w: Width, v: int, r: Base)
    requires Fits(w, v)
    ensures |Rendered(w, v, r)| <= 64
  {
    CharactersFit(v, r);
    CharactersFit(Negated(w, v), r);
  }

  // ---------------------------------------------------------------------------------------
  // In place
  // ---------------------------------------------------------------------------------------

  function Backwards(s: string): (t: string)
    ensures |t| == |s|
  {
    seq(|s|, i requires 0 <= i < |s| => s[|s| - 1 - i])
  }

  lemma BackwardsOfAppend(s: string, c: char)
    ensures Backwards(s + [c]) == [c] + Backwards(s)
  {}

  /** Reverses the characters at indices 0 to last, both included. */
  method Reverse(a: array<char>, last: nat)
    requires last < a.Length
    modifies a
    ensures a[..last + 1] == Backwards(old(a[..last + 1]))
    ensures a[last + 1..] == old(a[last + 1..])
  {
    var start, end := 0, last;
    while start < end
      invariant 0 <= start <= end + 1 <= last + 1
      invariant start + end == last
      invariant forall k | 0 <= k < start || end < k <= last :: a[k] == old(a[last - k])
      invariant forall k | start <= k <= end :: a[k] == old(a[k])
      invariant a[last + 1..] == old(a[last + 1..])
    {
      a[start], a[end] := a[end], a[start];
      start := start + 1;
      end := end - 1;
    }
    assert forall k | 0 <= k <= last :: a[k] == old(a[last - k]);
  }

  lemma OneMoreDigit(v: Int64, r: Base, done: string, text: string)
    requires v != 0 && Characters(v, r) + Backwards(done) == text
    ensures Magnitude(Quotient(v, r)) < Magnitude(v)
    ensures |text| == |Characters(Quotient(v, r), r)| + 1 + |done|
    ensures Characters(Quotient(v, r), r) + Backwards(done + [Character(Remainder(v, r))]) == text
  {
    QuotientShrinks(v, r);
    CharactersSplit(v, r);
    var c, front := Character(Remainder(v, r)), Characters(Quotient(v, r), r);
    BackwardsOfAppend(done, c);
    assert front + ([c] + Backwards(done)) == (front + [c]) + Backwards(done);
  }

  /** The characters of the digits, least significant first. */
  method WriteDigits(value: Int64, str: array<char>, radix: Base) returns (i: nat)
    requires |Characters(value, radix)| <= str.Length
    modifies str
    ensures i == |Characters(value, radix)| <= str.Length
    ensures Backwards(str[..i]) == Characters(value, radix)
    ensures str[i..] == old(str[i..])
  {
    var v: Int64 := value;
    i := 0;
    ghost var text := Characters(value, radix);
    while v != 0
      invariant 0 <= i <= |text| <= str.Length
      invariant Characters(v, radix) + Backwards(str[..i]) == text
      invariant str[|text|..] == old(str[|text|..])
      decreases Magnitude(v)
    {
      ghost var done := str[..i];
      var c := Character(Remainder(v, radix));
      OneMoreDigit(v, radix, done, text);
      v := Quotient(v, radix);
      str[i] := c;
      assert str[..i + 1] == done + [c];
      i := i + 1;
    }
    assert Characters(0, radix) == "";
  }

  /** The two functions, by the width of their integers; the radix is one whose digits have characters. */
  method Ltoa(w: Width, value: int, str: array<char>, radix: Base)
    requires Fits(w, value)
    requires str.Length > |Rendered(w, value, radix)|
    modifies str
    ensures str[..|Rendered(w, value, radix)| + 1] == Rendered(w, value, radix) + ['\0']
    ensures str[|Rendered(w, value, radix)| + 1..] == old(str[|Rendered(w, value, radix)| + 1..])
  {
    ghost var text := Rendered(w, value, radix);
    if value == 0 {
      str[0] := '0';
      Terminate(str, 1);
      assert str[..1] == text;
    } else {
      var i := WriteBackwards(w, value, str, radix);
      Finish(str, i);
    }
    assert str[..|text| + 1] == text + ['\0'];
  }

  /** The digits and the sign, last character first. */
  method WriteBackwards(w: Width, value: int, str: array<char>, radix: Base) returns (i: nat)
    requires Fits(w, value) && value != 0
    requires str.Length > |Rendered(w, value, radix)|
    modifies str
    ensures i == |Rendered(w, value, radix)| && Backwards(str[..i]) == Rendered(w, value, radix)
    ensures str[i..] == old(str[i..])
  {
    if value < 0 && radix == 10 {
      i := WriteDigits(Negated(w, value), str, radix);
      WriteSign(str, i);
      i := i + 1;
    } else {
      i := WriteDigits(value, str, radix);
    }
  }

  method Terminate(str: array<char>, i: nat)
    requires i < str.Length
    modifies str
    ensures str[..i + 1] == old(str[..i]) + ['\0']
    ensures str[..i] == old(str[..i])
    ensures str[i + 1..] == old(str[i + 1..])
  {
    str[i] := '\0';
  }

  method WriteSign(str: array<char>, i: nat)
    requires i < str.Length
    modifies str
    ensures Backwards(str[..i + 1]) == "-" + Backwards(old(str[..i]))
    ensures str[i + 1..] == old(str[i + 1..])
  {
    ghost var digits := str[..i];
    str[i] := '-';
    assert str[..i + 1] == digits + ['-'];
    BackwardsOfAppend(digits, '-');
  }

  /** The terminator, and the characters before it the right way round. */
  method Finish(str: array<char>, i: nat)
    requires 0 < i < str.Length
    modifies str
    ensures str[..i + 1] == Backwards(old(str[..i])) + ['\0']
    ensures str[i + 1..] == old(str[i + 1..])
  {
    str[i] := '\0';
    Reverse(str, i - 1);
    assert str[..i] == str[..i - 1 + 1];
    assert str[i..] == str[i - 1 + 1..];
    assert str[i] == str[i..][0];
    assert str[i + 1..] == str[i..][1..];
  }
}
