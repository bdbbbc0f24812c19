/**
base58encode as it runs: repeated in-place division of a copy of the input, filling a scratch
buffer of twice the input's length from the end.
*/
module Base58Encoder {
  import opened Wrappers
  import opened DivMod
  import opened Bytes
  import opened Radix
  import opened Base58

  /** Dividing the number from startAt on by 58: one long division, byte by byte. */
  method Divmod58(number: array<Byte>, startAt: nat) returns (remainder: nat)
    requires startAt < number.Length
    modifies number
    ensures remainder < 58
    ensures number[..startAt] == old(number[..startAt])
    ensures Value(old(number[startAt..]), 256) == 58 * Value(number[startAt..], 256) + remainder
    ensures number[startAt] == old(number[startAt]) / 58
  {
    ghost var before := number[startAt..];
    remainder := 0;
    var i := startAt;
    while i < number.Length
      invariant startAt <= i <= number.Length
      invariant remainder < 58
      invariant number[..startAt] == old(number[..startAt])
      invariant number[i..] == before[i - startAt..]
      invariant Value(before[..i - startAt], 256) == 58 * Value(number[startAt..i], 256) + remainder
      invariant i > startAt ==> number[startAt] == before[0] / 58
    {
      var temp := remainder * 256 + number[i];
      ghost var done := number[startAt..i];
      assert number[i] == before[i - startAt];
      number[i] := temp / 58;
      remainder := temp % 58;
      DivModEquation(temp, 58);
      assert number[startAt..i + 1] == done + [temp / 58];
      assert (done + [temp / 58])[..|done + [temp / 58]| - 1] == done;
      assert before[..i + 1 - startAt][..i - startAt] == before[..i - startAt];
      i := i + 1;
    }
    assert before[..number.Length - startAt] == before;
    assert number[startAt..number.Length] == number[startAt..];
  }

  /** The divisions still to come: two per byte, one if the leading byte is below 58 already. */
  function DivisionsLeft(rest: seq<Byte>): nat {
    if rest == [] then 0 else 2 * |rest| - (if rest[0] < 58 then 1 else 0)
  }

  lemma OneDivision(before: seq<Byte>, after: seq<Byte>)
    requires 0 < |before| == |after| && after[0] == before[0] / 58
    ensures DivisionsLeft(if after[0] == 0 then after[1..] else after) < DivisionsLeft(before)
  {}

  /** The next digit, and where the rest of the number then starts. */
  method NextDigit(work: array<Byte>, startAt: nat) returns (mod: nat, next: nat, ghost rest: seq<Byte>)
    requires startAt < work.Length
    modifies work
    ensures mod < 58 && startAt <= next <= work.Length && rest == work[next..]
    ensures Value(old(work[startAt..]), 256) == 58 * Value(rest, 256) + mod
    ensures DivisionsLeft(rest) < DivisionsLeft(old(work[startAt..]))
  {
    ghost var before: seq<Byte> := work[startAt..];
    mod := Divmod58(work, startAt);
    ghost var after: seq<Byte> := work[startAt..];
    OneDivision(before, after);
    next := startAt;
    rest := after;
    if work[startAt] == 0 {
      next := startAt + 1;
      rest := after[1..];
      assert after == [0] + rest;
      ValuePrepend(0, rest, 256);
    }
  }

  /** The number whose low digits have been taken and whose high part is still w. */
  function Total(w: nat, digits: seq<nat>): nat {
    w * Pow(58, |digits|) + Value(digits, 58)
  }

  lemma TotalEnds(w: nat, digits: seq<nat>)
    ensures Total(w, []) == w && Total(0, digits) == Value(digits, 58)
  {}

  /** One more digit in front, one division of the rest: the total stays. */
  lemma DigitMoves(w: nat, w': nat, mod: nat, digits: seq<nat>)
    requires w == 58 * w' + mod
    ensures Total(w', [mod] + digits) == Total(w, digits)
  {
    ValuePrepend(mod, digits, 58);
    assert Pow(58, |digits| + 1) == Pow(58, |digits|) * 58;
    TotalStays(w, w', mod, Pow(58, |digits|), Value(digits, 58));
  }

  lemma TotalStays(w: int, w': int, mod: int, p: int, v: int)
    requires w == 58 * w' + mod
    ensures w' * (p * 58) + (mod * p + v) == w * p + v
  {
    assert (58 * w' + mod) * p == 58 * (w' * p) + mod * p;
  }

  /** Fills temp from its end with the digits of work, low ones first; work is used up. */
  method FillDigits(work: array<Byte>, temp: array<char>, zeroCount: nat) returns (j: nat, ghost digits: seq<nat>)
    requires temp.Length == 2 * work.Length && zeroCount == ZeroCount(work[..])
    modifies work, temp
    ensures j <= temp.Length && AreDigits(digits, 58) && temp[j..] == Letters(digits)
    ensures Value(digits, 58) == Value(old(work[..]), 256)
    ensures j >= 2 * zeroCount
  {
    ghost var total := Value(work[..], 256);
    TrimmedValue(work[..]);
    j := temp.Length;
    digits := [];
    var startAt := zeroCount;
    ghost var rest: seq<Byte> := work[startAt..];
    TotalEnds(Value(rest, 256), []);
    while startAt < work.Length
      invariant startAt <= work.Length && j <= temp.Length
      invariant AreDigits(digits, 58) && temp[j..] == Letters(digits)
      invariant rest == work[startAt..]
      invariant Total(Value(rest, 256), digits) == total
      invariant j >= 2 * zeroCount + DivisionsLeft(rest)
      decreases DivisionsLeft(rest)
    {
      var mod;
      ghost var before := rest;
      mod, startAt, rest := NextDigit(work, startAt);
      DigitMoves(Value(before, 256), Value(rest, 256), mod, digits);
      j, digits := Emit(temp, j, mod, digits);
    }
    TotalEnds(0, digits);
  }

  method Emit(temp: array<char>, j: nat, mod: nat, ghost digits: seq<nat>) returns (next: nat, ghost more: seq<nat>)
    requires 0 < j <= temp.Length && mod < 58
    requires AreDigits(digits, 58) && temp[j..] == Letters(digits)
    modifies temp
    ensures next == j - 1 && more == [mod] + digits
    ensures AreDigits(more, 58) && temp[next..] == Letters(more)
  {
    next := j - 1;
    temp[next] := Letter(mod);
    more := [mod] + digits;
    assert temp[next..] == [Letter(mod)] + temp[j..];
  }

  method Base58encode(input: array?<Byte>) returns (output: Option<string>)
    ensures output == if input == null || input.Length == 0 then None else Some(Encode58(input[..]))
  {
    if input == null || input.Length == 0 {
      return None;
    }
    var length := input.Length;
    var work := new Byte[length](i requires 0 <= i < length reads input => input[i]);
    assert work[..] == input[..];
    var zeroCount := 0;
    while zeroCount < length && work[zeroCount] == 0
      invariant zeroCount <= length && forall i | 0 <= i < zeroCount :: work[i] == 0
    {
      zeroCount := zeroCount + 1;
    }
    ZeroCountUnique(input[..], zeroCount);
    LettersAppend(Zeros(zeroCount), Digits(Value(input[..], 256), 58));
    var temp := new char[length * 2](_ => '\0');
    var j, digits := FillDigits(work, temp, zeroCount);
    j := StripOnes(temp, j, digits);
    j := PutOnes(temp, j, zeroCount);
    output := Some(temp[j..]);
  }

  /** Skips the letters of leading zero digits. */
  method StripOnes(temp: array<char>, start: nat, ghost digits: seq<nat>) returns (j: nat)
    requires start <= temp.Length && AreDigits(digits, 58) && temp[start..] == Letters(digits)
    ensures start <= j <= temp.Length
    ensures temp[j..] == Letters(Digits(Value(digits, 58), 58))
  {
    j := start;
    while j < temp.Length && temp[j] == Letter(0)
      invariant start <= j <= temp.Length
      invariant forall i | 0 <= i < j - start :: digits[i] == 0
    {
      assert temp[j] == temp[start..][j - start];
      LettersDiffer(digits[j - start]);
      j := j + 1;
    }
    if j < temp.Length {
      assert temp[j] == temp[start..][j - start];
      LettersDiffer(0);
    }
    StrippedDigits(digits, j - start);
    assert temp[j..] == temp[start..][j - start..];
  }

  method PutOnes(temp: array<char>, start: nat, zeroCount: nat) returns (j: nat)
    requires zeroCount <= start <= temp.Length
    modifies temp
    ensures j == start - zeroCount
    ensures temp[j..] == Letters(Zeros(zeroCount)) + old(temp[start..])
  {
    j := start;
    var ones := zeroCount;
    while ones > 0
      invariant 0 <= ones <= zeroCount && j == start - (zeroCount - ones)
      invariant forall i | j <= i < start :: temp[i] == Letter(0)
      invariant temp[start..] == old(temp[start..])
    {
      ones := ones - 1;
      j := j - 1;
      temp[j] := Letter(0);
    }
    assert temp[j..start] == Letters(Zeros(zeroCount));
    assert temp[j..] == temp[j..start] + temp[start..];
  }

  lemma LettersAppend(a: seq<nat>, b: seq<nat>)
    requires AreDigits(a, 58) && AreDigits(b, 58)
    ensures Letters(a + b) == Letters(a) + Letters(b)
  {}

  /** Digits without their leading zeros are the canonical digits of the same value. */
  lemma StrippedDigits(digits: seq<nat>, z: nat)
    requires AreDigits(digits, 58) && z <= |digits|
    requires (forall i | 0 <= i < z :: digits[i] == 0) && (z < |digits| ==> digits[z] != 0)
    ensures digits[z..] == Digits(Value(digits, 58), 58)
  {
    assert digits == Zeros(z) + digits[z..];
    LeadingZeros(z, digits[z..], 58);
    DigitsOfValue(digits[z..], 58);
  }
}
