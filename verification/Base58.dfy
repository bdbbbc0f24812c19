/**
Base 58 as a code: one '1' for each leading zero byte, then the base-58 digits of the value of
the bytes.  The code is exact and can be decoded, so different byte strings, of whatever
length, have different encodings.
*/
module Base58 {
  import opened Bytes
  import opened Radix

  // ---------------------------------------------------------------------------------------
  // Letters
  // ---------------------------------------------------------------------------------------

  /** Letter d of the alphabet, which is written here in its six unbroken runs. */
  function Letter(d: nat): char
    requires d < 58
  {
    if d < 9 then "123456789"[d]
    else if d < 17 then "ABCDEFGH"[d - 9]
    else if d < 22 then "JKLMN"[d - 17]
    else if d < 33 then "PQRSTUVWXYZ"[d - 22]
    else if d < 44 then "abcdefghijk"[d - 33]
    else "mnopqrstuvwxyz"[d - 44]
  }

  function LetterValue(c: char): nat {
    if c <= '9' then (if c >= '1' then (c - '1') as nat else 58)
    else if c <= 'H' then (if c >= 'A' then (c - 'A') as nat + 9 else 58)
    else if c <= 'N' then (if c >= 'J' then (c - 'J') as nat + 17 else 58)
    else if c <= 'Z' then (if c >= 'P' then (c - 'P') as nat + 22 else 58)
    else if c <= 'k' then (if c >= 'a' then (c - 'a') as nat + 33 else 58)
    else if 'm' <= c <= 'z' then (c - 'm') as nat + 44
    else 58
  }

  lemma LettersDiffer(d: nat)
    requires d < 58
    ensures LetterValue(Letter(d)) == d
    ensures Letter(d) == '1' <==> d == 0
  {
    if d < 22 {
      EarlyLetters(d);
    } else {
      LateLetters(d);
    }
  }

  lemma EarlyLetters(d: nat)
    requires d < 22
    ensures LetterValue(Letter(d)) == d && (Letter(d) == '1' <==> d == 0)
  {}

  lemma LateLetters(d: nat)
    requires 22 <= d < 58
    ensures LetterValue(Letter(d)) == d && Letter(d) != '1'
  {}

  const ALPHABET: string := "123456789" + "ABCDEFGHJKLMNPQRSTUVWXYZ" + "abcdefghijkmnopqrstuvwxyz"

  lemma Numerals(d: nat)
    requires d < 9
    ensures Letter(d) == ALPHABET[d]
  {}

  lemma Capitals(d: nat)
    requires 9 <= d < 33
    ensures Letter(d) == ALPHABET[d]
  {}

  lemma Minuscules(d: nat)
    requires 33 <= d < 58
    ensures Letter(d) == ALPHABET[d]
  {}

  /** The letters are those of the alphabet, in its order. */
  lemma LettersInOrder(d: nat)
    requires d < 58
    ensures |ALPHABET| == 58 && Letter(d) == ALPHABET[d]
  {
    if d < 9 {
      Numerals(d);
    } else if d < 33 {
      Capitals(d);
    } else {
      Minuscules(d);
    }
  }

  /** The text of a digit sequence. */
  function Letters(digits: seq<nat>): (s: string)
    requires AreDigits(digits, 58)
    ensures |s| == |digits|
  {
    seq(|digits|, i requires 0 <= i < |digits| => Letter(digits[i]))
  }

  function LetterValues(s: string): (d: seq<nat>)
    ensures |d| == |s|
  {
    seq(|s|, i requires 0 <= i < |s| => LetterValue(s[i]))
  }

  lemma LettersInvert(digits: seq<nat>)
    requires AreDigits(digits, 58)
    ensures LetterValues(Letters(digits)) == digits
  {
    forall i | 0 <= i < |digits| ensures LetterValue(Letter(digits[i])) == digits[i] {
      LettersDiffer(digits[i]);
    }
  }

  // ---------------------------------------------------------------------------------------
  // The code
  // ---------------------------------------------------------------------------------------

  function ZeroCount(digits: seq<nat>): (z: nat)
    ensures z <= |digits|
    ensures forall i | 0 <= i < z :: digits[i] == 0
    ensures z < |digits| ==> digits[z] != 0
  {
    if digits == [] || digits[0] != 0 then 0 else 1 + ZeroCount(digits[1..])
  }

  lemma ZeroCountUnique(digits: seq<nat>, z: nat)
    requires z <= |digits| && (forall i | 0 <= i < z :: digits[i] == 0) && (z < |digits| ==> digits[z] != 0)
    ensures ZeroCount(digits) == z
  {}

  /** The digits of the encoding: a zero for each leading zero byte, then the value. */
  function Digits58(bytes: seq<Byte>): (d: seq<nat>)
    ensures AreDigits(d, 58)
  {
    Zeros(ZeroCount(bytes)) + Digits(Value(bytes, 256), 58)
  }

  function Encode58(bytes: seq<Byte>): string {
    Letters(Digits58(bytes))
  }

  function Decode58(s: string): seq<nat> {
    var digits := LetterValues(s);
    Zeros(ZeroCount(digits)) + Digits(Value(digits, 58), 256)
  }

  lemma TrimmedValue(bytes: seq<Byte>)
    ensures Value(bytes, 256) == Value(bytes[ZeroCount(bytes)..], 256)
    ensures bytes == Zeros(ZeroCount(bytes)) + bytes[ZeroCount(bytes)..]
  {
    var z := ZeroCount(bytes);
    assert bytes == Zeros(z) + bytes[z..];
    LeadingZeros(z, bytes[z..], 256);
  }

  /** The encoding has the value of the bytes, and a leading '1' for each leading zero byte. */
  lemma EncodingIsExact(bytes: seq<Byte>)
    ensures Value(LetterValues(Encode58(bytes)), 58) == Value(bytes, 256)
    ensures ZeroCount(LetterValues(Encode58(bytes))) == ZeroCount(bytes)
    ensures forall i | 0 <= i < ZeroCount(bytes) :: Encode58(bytes)[i] == '1'
    ensures ZeroCount(bytes) < |Encode58(bytes)| ==> Encode58(bytes)[ZeroCount(bytes)] != '1'
  {
    var z, v := ZeroCount(bytes), Value(bytes, 256);
    LettersInvert(Digits58(bytes));
    LeadingZeros(z, Digits(v, 58), 58);
    ValueOfDigits(v, 58);
    ZeroCountUnique(Digits58(bytes), z);
    forall i | 0 <= i < |Digits58(bytes)| ensures Letter(Digits58(bytes)[i]) == '1' <==> Digits58(bytes)[i] == 0 {
      LettersDiffer(Digits58(bytes)[i]);
    }
  }

  /** Decoding recovers the bytes, length and leading zeros included. */
  lemma DecodeEncode(bytes: seq<Byte>)
    ensures Decode58(Encode58(bytes)) == bytes
  {
    EncodingIsExact(bytes);
    TrimmedValue(bytes);
    DigitsOfValue(bytes[ZeroCount(bytes)..], 256);
  }

  lemma EncodingInjective(a: seq<Byte>, b: seq<Byte>)
    requires Encode58(a) == Encode58(b)
    ensures a == b
  {
    DecodeEncode(a);
    DecodeEncode(b);
  }
}
