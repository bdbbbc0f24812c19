/**
Bitmessage addresses: version and stream as varints, the ripe without some of its leading
zeros, four bytes of a double SHA-512, all in base 58 behind "BM-", in a 45-byte buffer.
*/
module Address {
  import opened Wrappers
  import DivMod
  import opened Bytes
  import opened VarintCodec
  import opened Radix
  import opened Base58
  import opened Base58Encoder
  import opened Messages
  import opened MachineIntegers

  const RIPE_LENGTH: nat := 20
  const BUFFER_SIZE: nat := 45

  /** Versions 2 and 3 keep the ripe, or drop at most two zeros; the others drop all of them. */
  predicate KeepsRipe(version: Uint64) {
    2 <= version < 4
  }

  /** The loops over leading zeros look at one byte past the end of an all-zero ripe. */
  ghost predicate ScanStops(version: Uint64, ripe: seq<Byte>, max: nat) {
    (KeepsRipe(version) && max < 20) || ZeroCount(ripe) < |ripe|
  }

  function WorkRipe(version: Uint64, ripe: seq<Byte>, max: nat): (w: seq<Byte>)
    requires |ripe| == RIPE_LENGTH
    ensures |w| <= RIPE_LENGTH
  {
    if KeepsRipe(version) then
      if max >= 20 then ripe
      else if ripe[0] == 0 && ripe[1] == 0 then ripe[2..]
      else if ripe[0] == 0 then ripe[1..]
      else ripe
    else ripe[ZeroCount(ripe)..]
  }

  function Body(version: Uint64, stream: Uint64, ripe: seq<Byte>, max: nat): seq<Byte>
    requires |ripe| == RIPE_LENGTH
  {
    Varint(version) + Varint(stream) + WorkRipe(version, ripe, max)
  }

  /** The body and the first four bytes of its doubly hashed checksum. */
  function Stored(sha: Hash, body: seq<Byte>): seq<Byte> {
    body + sha(sha(body))[..4]
  }

  /** What snprintf leaves of a text in a buffer of n bytes. */
  function Clipped(s: string, n: nat): string
    requires n > 0
  {
    if |s| < n then s else s[..n - 1]
  }

  function FullText(sha: Hash, version: Uint64, stream: Uint64, ripe: seq<Byte>, max: nat): string
    requires |ripe| == RIPE_LENGTH
  {
    "BM-" + Encode58(Stored(sha, Body(version, stream, ripe, max)))
  }

  function EncodedAddress(sha: Hash, version: Uint64, stream: Uint64, ripe: seq<Byte>, max: nat): Option<string> {
    if |ripe| != RIPE_LENGTH then None
    else Some(Clipped(FullText(sha, version, stream, ripe, max), BUFFER_SIZE))
  }

  predicate Untruncated(sha: Hash, version: Uint64, stream: Uint64, ripe: seq<Byte>, max: nat)
    requires |ripe| == RIPE_LENGTH
  {
    EncodedAddress(sha, version, stream, ripe, max) == Some(FullText(sha, version, stream, ripe, max))
  }

  // ---------------------------------------------------------------------------------------
  // Different identities have different addresses
  // ---------------------------------------------------------------------------------------

  /** Zeros in front restore a ripe to its length. */
  function Padded(w: seq<Byte>): seq<Byte>
    requires |w| <= RIPE_LENGTH
  {
    Zeros(RIPE_LENGTH - |w|) + w
  }

  lemma RipeRestored(version: Uint64, ripe: seq<Byte>, max: nat)
    requires |ripe| == RIPE_LENGTH
    ensures Padded(WorkRipe(version, ripe, max)) == ripe
  {
    var w := WorkRipe(version, ripe, max);
    assert w == ripe[RIPE_LENGTH - |w|..];
    assert forall i | 0 <= i < RIPE_LENGTH - |w| :: ripe[i] == 0;
  }

  lemma BodyInjective(v: Uint64, s: Uint64, r: seq<Byte>, v': Uint64, s': Uint64, r': seq<Byte>, max: nat)
    requires |r| == |r'| == RIPE_LENGTH
    requires Body(v, s, r, max) == Body(v', s', r', max)
    ensures v == v' && s == s' && r == r'
  {
    ConcatAssociates(Varint(v), Varint(s), WorkRipe(v, r, max));
    ConcatAssociates(Varint(v'), Varint(s'), WorkRipe(v', r', max));
    VarintPrefixFree(v, v', Varint(s) + WorkRipe(v, r, max), Varint(s') + WorkRipe(v', r', max));
    VarintPrefixFree(s, s', WorkRipe(v, r, max), WorkRipe(v', r', max));
    RipeRestored(v, r, max);
    RipeRestored(v', r', max);
  }

  /** With one max, equal untruncated addresses come from equal version, stream and ripe. */
  lemma AddressInjective(sha: Hash, v: Uint64, s: Uint64, r: seq<Byte>, v': Uint64, s': Uint64, r': seq<Byte>, max: nat)
    requires |r| == |r'| == RIPE_LENGTH
    requires Untruncated(sha, v, s, r, max) && Untruncated(sha, v', s', r', max)
    requires EncodedAddress(sha, v, s, r, max) == EncodedAddress(sha, v', s', r', max)
    ensures v == v' && s == s' && r == r'
  {
    var a, b := Body(v, s, r, max), Body(v', s', r', max);
    assert FullText(sha, v, s, r, max)[3..] == Encode58(Stored(sha, a));
    assert FullText(sha, v', s', r', max)[3..] == Encode58(Stored(sha, b));
    EncodingInjective(Stored(sha, a), Stored(sha, b));
    assert Stored(sha, a)[..|a|] == a && Stored(sha, b)[..|b|] == b;
    BodyInjective(v, s, r, v', s', r', max);
  }

  // ---------------------------------------------------------------------------------------
  // When the buffer is large enough
  // ---------------------------------------------------------------------------------------

  function AtMost(a: nat, b: nat): nat {
    if a < b then a else b
  }

  /** How many leading zeros of the ripe are dropped. */
  function Dropped(version: Uint64, ripe: seq<Byte>, max: nat): nat {
    if version == 2 || version == 3 then (if max < 20 then AtMost(ZeroCount(ripe), 2) else 0)
    else ZeroCount(ripe)
  }

  lemma WorkRipeDrops(version: Uint64, ripe: seq<Byte>, max: nat)
    requires |ripe| == RIPE_LENGTH
    ensures Dropped(version, ripe, max) <= |ripe|
    ensures WorkRipe(version, ripe, max) == ripe[Dropped(version, ripe, max)..]
  {}

  /** The address from its parts: whole if it takes at most 44 characters, and otherwise its first 44. */
  lemma AddressInParts(sha: Hash, version: Uint64, stream: Uint64, ripe: seq<Byte>, max: nat, body: seq<Byte>)
    requires |ripe| == 20
    requires body == Varint(version) + Varint(stream) + ripe[Dropped(version, ripe, max)..]
    ensures var full := "BM-" + Encode58(body + sha(sha(body))[..4]);
            EncodedAddress(sha, version, stream, ripe, max) == Some(if |full| <= 44 then full else full[..44])
  {
    WorkRipeDrops(version, ripe, max);
  }

  /**
  What a receiver finds in an address that is not truncated: after the prefix, bytes whose last
  four are those of the doubly hashed rest, and in the rest the version, the stream and the ripe
  without its dropped zeros.
  */
  lemma AddressReads(sha: Hash, version: Uint64, stream: Uint64, ripe: seq<Byte>, max: nat)
    requires |ripe| == RIPE_LENGTH && Untruncated(sha, version, stream, ripe, max)
    ensures EncodedAddress(sha, version, stream, ripe, max).Some?
    ensures var a := EncodedAddress(sha, version, stream, ripe, max).value;
            && |a| >= 3 && a[..3] == "BM-"
            && var d := Decode58(a[3..]);
               && AreDigits(d, 256) && |d| >= 4
               && var front: seq<Byte> := d[..|d| - 4];
                  && d[|d| - 4..] == sha(sha(front))[..4]
                  && Reads(front, version, stream, ripe[Dropped(version, ripe, max)..])
  {
    var body: seq<Byte> := Body(version, stream, ripe, max);
    var stored := Stored(sha, body);
    var a := EncodedAddress(sha, version, stream, ripe, max).value;
    assert a[3..] == Encode58(stored);
    DecodeEncode(stored);
    assert stored[..|stored| - 4] == body && stored[|stored| - 4..] == sha(sha(body))[..4];
    WorkRipeDrops(version, ripe, max);
    BodyReads(version, stream, WorkRipe(version, ripe, max));
  }

  /** The bytes are two integers and the rest. */
  predicate Reads(front: seq<Byte>, version: Uint64, stream: Uint64, rest: seq<Byte>) {
    && DecodeVarint(front).Some?
    && var (v, n) := DecodeVarint(front).value;
       && v == version && DecodeVarint(front[n..]).Some?
       && var (s, m) := DecodeVarint(front[n..]).value;
          s == stream && front[n + m..] == rest
  }

  lemma BodyReads(version: Uint64, stream: Uint64, rest: seq<Byte>)
    ensures Reads(Varint(version) + Varint(stream) + rest, version, stream, rest)
  {
    var front := Varint(version) + Varint(stream) + rest;
    ConcatAssociates(Varint(version), Varint(stream), rest);
    VarintRoundTrip(version, Varint(stream) + rest);
    VarintRoundTrip(stream, rest);
    assert front[VarintSize(version)..] == Varint(stream) + rest;
    assert front[VarintSize(version) + VarintSize(stream)..] == rest;
  }

  lemma PowersOf58()
    ensures Pow(58, 40) == 34444488709877454747081479018851205589883534409595458615323760395288576
    ensures Pow(58, 41) == 1997780345172892375330725783093369924213244995756536599688778102926737408
  {
    assert Pow(58, 1) == 58 * Pow(58, 0);
    PowAdds(58, 1, 1);
    PowAdds(58, 2, 2);
    PowAdds(58, 4, 4);
    assert Pow(58, 8) == 128063081718016;
    PowAdds(58, 8, 8);
    assert Pow(58, 16) == 16400152899115243850138976256;
    PowAdds(58, 16, 16);
    assert Pow(58, 32) == 268965015114358137726910587140455987105619365599731777536;
    PowAdds(58, 32, 8);
    PowAdds(58, 40, 1);
  }

  lemma PowersOf256()
    ensures Pow(256, 29) == 6901746346790563787434755862277025452451108972170386555162524223799296
    ensures Pow(256, 30) == 256 * Pow(256, 29)
  {
    Powers256();
    PowAdds(256, 8, 8);
    assert Pow(256, 16) == 340282366920938463463374607431768211456;
    PowAdds(256, 16, 8);
    assert Pow(256, 24) == 6277101735386680763835789423207666416102355444464034512896;
    PowAdds(256, 24, 4);
    PowAdds(256, 28, 1);
    PowAdds(256, 29, 1);
  }

  /** 41 base-58 digits hold every 30-byte value, and just not every 31-byte one. */
  lemma BufferBounds()
    ensures Pow(256, 30) < Pow(58, 41) < Pow(256, 30) + 255 * Pow(256, 29)
    ensures Pow(58, 40) <= 255 * Pow(256, 29)
  {
    PowersOf58();
    PowersOf256();
  }

  /** Each leading zero byte costs one letter and leaves one byte less for the value. */
  lemma RoomForZeros(z: nat, n: nat)
    requires z + n <= 30
    ensures Pow(256, n) < Pow(58, 41 - z)
  {
    BufferBounds();
    PowMonotone(256, n, 30 - z);
    PowAdds(256, 30 - z, z);
    PowAdds(58, 41 - z, z);
    PowCompare(z);
    PowPositive(256, z);
    FactorOut(Pow(256, 30 - z), Pow(58, 41 - z), Pow(256, z), Pow(58, z));
  }

  /** At most 30 bytes, leading zeros included, encode to at most 41 letters. */
  lemma ShortEncoding(bytes: seq<Byte>)
    requires |bytes| <= 30
    ensures |Encode58(bytes)| <= 41
  {
    var z := ZeroCount(bytes);
    TrimmedValue(bytes);
    ValueBound(bytes[z..], 256);
    RoomForZeros(z, |bytes| - z);
    DigitCount(Value(bytes, 256), 41 - z, 58);
  }

  lemma {:induction false} PowCompare(n: nat)
    ensures Pow(58, n) <= Pow(256, n)
  {
    if n > 0 {
      PowCompare(n - 1);
      DivMod.MulMonotone(Pow(58, n - 1), Pow(256, n - 1), 58);
      DivMod.MulMonotone(58, 256, Pow(256, n - 1));
    }
  }

  lemma FactorOut(a: nat, b: nat, c: nat, d: nat)
    requires a * c < b * d && d <= c && c > 0
    ensures a < b
  {
    if a >= b {
      DivMod.MulMonotone(b, a, c);
      DivMod.MulMonotone(d, c, b);
    }
  }

  /** From 256^30 + 255 * 256^29 on, a value of at least 31 bytes needs 42 letters. */
  lemma LongEncoding(bytes: seq<Byte>)
    requires |bytes| >= 31
    requires bytes[0] >= 253 || (bytes[0] >= 1 && bytes[1] == 255)
    ensures |Encode58(bytes)| >= 42
  {
    BufferBounds();
    PowersOf256();
    TwoLeading(bytes);
    PowMonotone(256, 29, |bytes| - 2);
    LeadingBytes(bytes[0], bytes[1], Pow(256, |bytes| - 2), Pow(256, 29));
    DigitCount(Value(bytes, 256), 41, 58);
  }

  lemma LeadingBytes(b0: nat, b1: nat, p: nat, q: nat)
    requires p >= q && (b0 >= 253 || (b0 >= 1 && b1 == 255))
    ensures b0 * (256 * p) + b1 * p >= 256 * q + 255 * q
  {
    DivMod.MulMonotone(if b0 >= 253 then 253 else 1, b0, 256 * p);
    DivMod.MulNonNegative(b1, p);
  }

  /** A single leading zero byte takes a letter of its own. */
  lemma LongEncodingAfterZero(bytes: seq<Byte>)
    requires |bytes| >= 31 && bytes[0] == 0 && bytes[1] == 255
    ensures |Encode58(bytes)| >= 42
  {
    ZeroCountUnique(bytes, 1);
    ValueAfterZero(bytes);
    ManyDigits(Value(bytes, 256), |bytes| - 2);
  }

  lemma ValueAfterZero(bytes: seq<Byte>)
    requires |bytes| >= 2 && bytes[0] == 0
    ensures Value(bytes, 256) >= bytes[1] * Pow(256, |bytes| - 2)
  {
    var rest := bytes[1..];
    assert bytes == Zeros(1) + rest && rest == [bytes[1]] + rest[1..];
    LeadingZeros(1, rest, 256);
    ValuePrepend(bytes[1], rest[1..], 256);
  }

  /** Values from 255 * 256^29 on have more than 40 digits in base 58. */
  lemma ManyDigits(v: nat, n: nat)
    requires n >= 29 && v >= 255 * Pow(256, n)
    ensures |Digits(v, 58)| > 40
  {
    BufferBounds();
    PowMonotone(256, 29, n);
    DigitCount(v, 40, 58);
  }

  lemma TwoLeading(bytes: seq<Byte>)
    requires |bytes| >= 2
    ensures Value(bytes, 256) >= bytes[0] * (256 * Pow(256, |bytes| - 2)) + bytes[1] * Pow(256, |bytes| - 2)
  {
    var rest := bytes[1..];
    assert bytes == [bytes[0]] + rest;
    assert rest == [bytes[1]] + bytes[2..];
    ValuePrepend(bytes[0], rest, 256);
    ValuePrepend(bytes[1], bytes[2..], 256);
    assert Pow(256, |rest|) == Pow(256, |bytes| - 2) * 256;
  }

  /** With 31 bytes or more, the varints in front decide how large the value is. */
  lemma LongStored(version: Uint64, stream: Uint64, tail: seq<Byte>)
    requires VarintSize(version) + VarintSize(stream) + |tail| >= 31 && |tail| <= 24
    ensures |Encode58(Varint(version) + Varint(stream) + tail)| >= 42
  {
    var bytes := Varint(version) + Varint(stream) + tail;
    assert bytes[0] == Tag(version);
    if version < 0xfd {
      assert bytes[1] == Varint(stream)[0] == Tag(stream);
      if version == 0 {
        LongEncodingAfterZero(bytes);
      } else {
        LongEncoding(bytes);
      }
    } else {
      LongEncoding(bytes);
    }
  }

  /** The address is whole exactly when at most 30 bytes are stored. */
  lemma UntruncatedIff(sha: Hash, version: Uint64, stream: Uint64, ripe: seq<Byte>, max: nat)
    requires |ripe| == RIPE_LENGTH
    ensures Untruncated(sha, version, stream, ripe, max) <==>
              VarintSize(version) + VarintSize(stream) + |WorkRipe(version, ripe, max)| + 4 <= 30
  {
    var w, body := WorkRipe(version, ripe, max), Body(version, stream, ripe, max);
    var stored := Stored(sha, body);
    if |stored| <= 30 {
      ShortEncoding(stored);
    } else {
      var tail := w + sha(sha(body))[..4];
      assert stored == Varint(version) + Varint(stream) + tail;
      LongStored(version, stream, tail);
    }
  }

  /** For instance two five-byte numbers and a ripe without zeros are too much. */
  lemma TruncatedExample(sha: Hash, max: nat)
    ensures !Untruncated(sha, 65536, 65536, seq(RIPE_LENGTH, _ => 1), max)
  {
    var ripe: seq<Byte> := seq(RIPE_LENGTH, _ => 1);
    assert ripe[0] == 1 && WorkRipe(65536, ripe, max) == ripe;
    UntruncatedIff(sha, 65536, 65536, ripe, max);
  }

  /** In particular when version and stream take at most six bytes together. */
  lemma SmallNumbersFit(sha: Hash, version: Uint64, stream: Uint64, ripe: seq<Byte>, max: nat)
    requires |ripe| == RIPE_LENGTH && VarintSize(version) + VarintSize(stream) <= 6
    ensures Untruncated(sha, version, stream, ripe, max)
  {
    UntruncatedIff(sha, version, stream, ripe, max);
  }

  /** The addresses the client makes: version 3 with either treatment of the ripe, and version 4. */
  lemma ClientAddressesFit(sha: Hash, ripe: seq<Byte>, max: nat)
    requires |ripe| == RIPE_LENGTH
    ensures Untruncated(sha, 3, 1, ripe, max) && Untruncated(sha, 4, 1, ripe, max)
  {
    SmallNumbersFit(sha, 3, 1, ripe, max);
    SmallNumbersFit(sha, 4, 1, ripe, max);
  }

  // ---------------------------------------------------------------------------------------
  // Building the address in a buffer
  // ---------------------------------------------------------------------------------------

  /** The stored bytes, filled in place. */
  method Store(sha: Hash, version: Uint64, stream: Uint64, work: seq<Byte>) returns (stored: array<Byte>)
    ensures stored[..] == Stored(sha, Varint(version) + Varint(stream) + work)
  {
    var v, s := VarintSize(version), VarintSize(stream);
    stored := new Byte[v + s + |work| + 4](_ => 0);
    ghost var before := stored[..];
    var ok := EncodeVarint(stored, 0, version);
    AppendVarint(stored, 0, v, stream, before, Varint(version));
    var offset, body := PutField(stored, v + s, work, before, 0, Varint(version) + Varint(stream));
    Covered(before, body);
    var digest := sha(sha(stored[..offset]));
    ghost var all;
    offset, all := PutField(stored, offset, digest[..4], before, 0, body);
    Covered(before, all);
  }

  lemma Covered(s: seq<Byte>, b: seq<Byte>)
    requires |b| <= |s|
    ensures Splice(s, 0, b)[..|b|] == b
    ensures |b| == |s| ==> Splice(s, 0, b) == b
  {}

  method EncodeAddress0(sha: Hash, version: Uint64, stream: Uint64, ripe: array<Byte>, max: nat)
    returns (address: Option<string>)
    requires ripe.Length == RIPE_LENGTH ==> ScanStops(version, ripe[..], max)
    ensures address == EncodedAddress(sha, version, stream, ripe[..], max)
    ensures address.None? <==> ripe.Length != 20
  {
    if ripe.Length != 20 {
      return None;
    }
    var start := 0;
    if 2 <= version < 4 {
      if max < 20 {
        if ripe[0] == 0 && ripe[1] == 0 {
          start := 2;
        } else if ripe[0] == 0 {
          start := 1;
        }
      } else {
        var i := LeadingZeroBytes(ripe, max);  // counted and not used
      }
    } else {
      start := LeadingZeroBytes(ripe, ripe.Length);
    }
    assert ripe[start..] == WorkRipe(version, ripe[..], max);
    var stored := Store(sha, version, stream, ripe[start..]);
    var a := Base58encode(stored);
    address := Some(Clipped("BM-" + a.value, BUFFER_SIZE));
  }

  /** The loop that counts leading zeros, up to a limit; it reads a byte before it looks at the limit. */
  method LeadingZeroBytes(ripe: array<Byte>, limit: nat) returns (i: nat)
    requires ZeroCount(ripe[..]) < ripe.Length
    ensures i <= ripe.Length
    ensures limit >= ripe.Length ==> i == ZeroCount(ripe[..])
  {
    i := 0;
    while ripe[i] == 0 && i < limit
      invariant i <= ZeroCount(ripe[..])
    {
      i := i + 1;
    }
  }
}
