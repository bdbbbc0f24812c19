/**
Bitmessage variable-length integers, strings and lists of integers: big-endian, with the
shortest of four forms.  Every encoding can be read back out of a longer string, and no
encoding is the start of another.
*/
module VarintCodec {
  import opened Wrappers
  import opened Bytes
  import opened Radix
  import opened MachineIntegers

  // ---------------------------------------------------------------------------------------
  // Integers
  // ---------------------------------------------------------------------------------------

  function VarintSize(u: Uint64): nat {
    if u < 0xfd then 1
    else if u <= 0xffff then 3
    else if u <= 0xffff_ffff then 5
    else 9
  }

  /** The first byte: the value itself or one of three tags. */
  function Tag(u: Uint64): Byte {
    if u < 0xfd then u
    else if u <= 0xffff then 0xfd
    else if u <= 0xffff_ffff then 0xfe
    else 0xff
  }

  /** How many bytes follow the first one. */
  function Following(first: Byte): nat {
    if first < 0xfd then 0 else if first == 0xfd then 2 else if first == 0xfe then 4 else 8
  }

  function Varint(u: Uint64): (b: seq<Byte>)
    ensures |b| == VarintSize(u)
  {
    [Tag(u)] + BigEndian(u, VarintSize(u) - 1)
  }

  /** The value at the start of data and the bytes it takes; None if it would read past the end. */
  function DecodeVarint(data: seq<Byte>): (r: Option<(nat, nat)>)
    ensures r.Some? ==> 1 <= r.value.1 <= |data|
  {
    if data == [] || 1 + Following(data[0]) > |data| then None
    else
      var n := 1 + Following(data[0]);
      Some((if n == 1 then data[0] else FromBigEndian(data[1..n]), n))
  }

  lemma DecodedIsUint64(data: seq<Byte>)
    requires DecodeVarint(data).Some?
    ensures DecodeVarint(data).value.0 < 0x1_0000_0000_0000_0000
  {
    Powers256();
    var n := Following(data[0]);
    ValueBound(data[1..1 + n], 256);
  }

  /** The bytes of the four forms. */
  lemma VarintBytes(u: Uint64)
    ensures u < 253 ==> Varint(u) == [u]
    ensures 253 <= u < 0x1_0000 ==> Varint(u) == [0xfd, u / 256, u % 256]
    ensures 0x1_0000 <= u < 0x1_0000_0000 ==>
              Varint(u) == [0xfe, u / 0x100_0000, u / 0x1_0000 % 256, u / 256 % 256, u % 256]
    ensures 0x1_0000_0000 <= u ==>
              |Varint(u)| == 9 && Varint(u)[0] == 0xff
              && forall i | 1 <= i < 9 :: Varint(u)[i] == ByteOfWeight(u, 8 - i)
  {
    SmallWeights(u);
    if u < 253 {
      assert BigEndian(u, 0) == [];
    } else if u < 0x1_0000 {
      NumberBytes(u, 2);
    } else if u < 0x1_0000_0000 {
      NumberBytes(u, 4);
    } else {
      NumberBytes(u, 8);
    }
  }

  lemma NumberBytes(u: nat, n: nat)
    ensures forall i | 0 <= i < n :: BigEndian(u, n)[i] == ByteOfWeight(u, n - 1 - i)
  {
    forall i | 0 <= i < n ensures BigEndian(u, n)[i] == ByteOfWeight(u, n - 1 - i) {
      BigEndianByte(u, n, i);
    }
  }

  lemma SmallWeights(u: nat)
    ensures ByteOfWeight(u, 0) == u % 256 && ByteOfWeight(u, 1) == u / 256 % 256
    ensures ByteOfWeight(u, 2) == u / 0x1_0000 % 256 && ByteOfWeight(u, 3) == u / 0x100_0000 % 256
  {
    Powers256();
    PowAdds(256, 1, 2);
    assert Pow(256, 0) == 1;
  }

  /** The byte of weight 256^k. */
  function ByteOfWeight(u: nat, k: nat): nat {
    PowPositive(256, k);
    u / Pow(256, k) % 256
  }

  /** What decoding makes of any bytes, the shortest form or not. */
  lemma DecodedBytes(data: seq<Byte>)
    ensures DecodeVarint(data).Some? <==>
              |data| > 0 && |data| >= (if data[0] < 253 then 1 else if data[0] == 253 then 3
                                       else if data[0] == 254 then 5 else 9)
    ensures DecodeVarint(data).Some? ==>
              var (u, n) := DecodeVarint(data).value;
              && n == (if data[0] < 253 then 1 else if data[0] == 253 then 3 else if data[0] == 254 then 5 else 9)
              && if n == 1 then u == data[0] else data[1..n] == BigEndian(u, n - 1)
  {
    if DecodeVarint(data).Some? {
      BytesRoundTrip(data[1..DecodeVarint(data).value.1]);
    }
  }

  /** Decoding reads back the value and exactly its bytes, whatever follows. */
  lemma VarintRoundTrip(u: Uint64, rest: seq<Byte>)
    ensures DecodeVarint(Varint(u) + rest) == Some((u, VarintSize(u)))
  {
    Powers256();
    var data, n := Varint(u) + rest, VarintSize(u) - 1;
    assert data[0] == Tag(u);
    if n > 0 {
      assert data[1..1 + n] == BigEndian(u, n);
      BigEndianRoundTrip(u, n);
    }
  }

  /** Two strings that start with encodings and agree, agree in the values and in what follows. */
  lemma VarintPrefixFree(u: Uint64, v: Uint64, a: seq<Byte>, b: seq<Byte>)
    requires Varint(u) + a == Varint(v) + b
    ensures u == v && a == b
  {
    VarintRoundTrip(u, a);
    VarintRoundTrip(v, b);
    assert (Varint(u) + a)[VarintSize(u)..] == a && (Varint(v) + b)[VarintSize(v)..] == b;
  }

  /** No shorter string decodes to the same value, and no other one of the same length does. */
  lemma VarintIsShortest(data: seq<Byte>)
    requires DecodeVarint(data).Some?
    ensures var (u, n) := DecodeVarint(data).value;
            && u < 0x1_0000_0000_0000_0000 && VarintSize(u) <= n
            && (VarintSize(u) == n <==> data[..n] == Varint(u))
  {
    DecodedIsUint64(data);
    Powers256();
    var (u, n) := DecodeVarint(data).value;
    if n > 1 {
      var b := data[1..n];
      ValueBound(b, 256);
      BytesRoundTrip(b);
      assert data[..n] == [data[0]] + b;
    } else {
      assert data[..1] == [data[0]];
    }
  }

  /** None for a null buffer; otherwise the encoding is stored at the given place, nothing else changes. */
  method EncodeVarint(out: array?<Byte>, at: nat, u: Uint64) returns (ok: bool)
    requires out != null ==> at + VarintSize(u) <= out.Length
    modifies if out == null then {} else {out}
    ensures ok <==> out != null
    ensures ok ==> out[..] == Splice(old(out[..]), at, Varint(u))
  {
    if out == null {
      return false;
    }
    if u < 0xfd {
      PutTagged(out, at, u, BigEndian(u, 0));
    } else if u <= 0xffff {
      PutTagged(out, at, 0xfd, BigEndian(u, 2));
    } else if u <= 0xffff_ffff {
      PutTagged(out, at, 0xfe, BigEndian(u, 4));
    } else {
      PutTagged(out, at, 0xff, BigEndian(u, 8));
    }
    ok := true;
  }

  method PutTagged(out: array<Byte>, at: nat, tag: Byte, b: seq<Byte>)
    requires at + 1 + |b| <= out.Length
    modifies out
    ensures out[..] == Splice(old(out[..]), at, [tag] + b)
  {
    ghost var before := out[..];
    out[at] := tag;
    assert out[..] == Splice(before, at, [tag]);
    Copy(out, at + 1, b);
    SpliceTwice(before, at, [tag], b);
  }

  // ---------------------------------------------------------------------------------------
  // Strings
  // ---------------------------------------------------------------------------------------

  /** The bytes of a C string before its terminator; they are none of them zero. */
  type CString = s: seq<Byte> | |s| < 0x1_0000_0000_0000_0000 && forall i | 0 <= i < |s| :: s[i] != 0

  function VarStr(s: CString): (b: seq<Byte>)
    ensures |b| == VarStrSize(s)
  {
    Varint(|s|) + s
  }

  function VarStrSize(s: CString): nat {
    VarintSize(|s|) + |s|
  }

  method EncodeVarStr(out: array?<Byte>, at: nat, s: CString) returns (ok: bool)
    requires out != null ==> at + VarStrSize(s) <= out.Length
    modifies if out == null then {} else {out}
    ensures ok <==> out != null
    ensures ok ==> out[..] == Splice(old(out[..]), at, VarStr(s))
  {
    if out == null {
      return false;
    }
    ghost var before := out[..];
    ok := EncodeVarint(out, at, |s|);
    Copy(out, at + VarintSize(|s|), s);
    SpliceTwice(before, at, Varint(|s|), s);
  }

  // ---------------------------------------------------------------------------------------
  // Lists
  // ---------------------------------------------------------------------------------------

  type List = s: seq<Uint64> | |s| < 0x1_0000_0000_0000_0000

  function Varints(list: seq<Uint64>): seq<Byte> {
    if list == [] then [] else Varint(list[0]) + Varints(list[1..])
  }

  function VarintList(list: List): seq<Byte> {
    Varint(|list|) + Varints(list)
  }

  /** count integers from the start of data, and the bytes they take. */
  function DecodeVarints(data: seq<Byte>, count: nat): (r: Option<(seq<nat>, nat)>)
    ensures r.Some? ==> |r.value.0| == count && r.value.1 <= |data|
    decreases count
  {
    if count == 0 then Some(([], 0))
    else
      var first := DecodeVarint(data);
      if first.None? then None
      else
        var rest := DecodeVarints(data[first.value.1..], count - 1);
        if rest.None? then None
        else Some(([first.value.0] + rest.value.0, first.value.1 + rest.value.1))
  }

  function DecodeList(data: seq<Byte>): (r: Option<(seq<nat>, nat)>)
    ensures r.Some? ==> r.value.1 <= |data|
  {
    var count := DecodeVarint(data);
    if count.None? then None
    else
      var items := DecodeVarints(data[count.value.1..], count.value.0);
      if items.None? then None else Some((items.value.0, count.value.1 + items.value.1))
  }

  /** One integer read, the rest as the data after it gives. */
  lemma DecodeStep(data: seq<Byte>, count: nat, item: nat, n: nat)
    requires DecodeVarint(data) == Some((item, n))
    ensures DecodeVarints(data, count + 1).Some? <==> DecodeVarints(data[n..], count).Some?
    ensures DecodeVarints(data[n..], count).Some? ==>
              var r := DecodeVarints(data[n..], count).value;
              DecodeVarints(data, count + 1) == Some(([item] + r.0, n + r.1))
  {}

  lemma DecodeFirst(u: Uint64, tail: seq<Byte>, list: seq<nat>, n: nat)
    requires DecodeVarints(tail, |list|) == Some((list, n))
    ensures DecodeVarints(Varint(u) + tail, |list| + 1) == Some(([u] + list, VarintSize(u) + n))
  {
    VarintRoundTrip(u, tail);
    DecodeStep(Varint(u) + tail, |list|, u, VarintSize(u));
    assert (Varint(u) + tail)[VarintSize(u)..] == tail;
  }

  lemma {:induction false} VarintsRoundTrip(list: seq<Uint64>, rest: seq<Byte>)
    ensures DecodeVarints(Varints(list) + rest, |list|) == Some((list, |Varints(list)|))
    decreases |list|
  {
    if list == [] {
      assert Varints(list) + rest == rest;
    } else {
      var others := list[1..];
      VarintsRoundTrip(others, rest);
      NextRoundTrip(list, others, rest, |others|);
    }
  }

  lemma NextRoundTrip(list: seq<Uint64>, others: seq<Uint64>, rest: seq<Byte>, n: nat)
    requires list != [] && others == list[1..] && n == |others|
    requires DecodeVarints(Varints(others) + rest, n) == Some((others, |Varints(others)|))
    ensures DecodeVarints(Varints(list) + rest, n + 1) == Some((list, |Varints(list)|))
  {
    DecodeFirst(list[0], Varints(others) + rest, others, |Varints(others)|);
    VarintsSplit(list, rest);
  }

  lemma VarintsSplit(list: seq<Uint64>, rest: seq<Byte>)
    requires list != []
    ensures Varints(list) + rest == Varint(list[0]) + (Varints(list[1..]) + rest)
    ensures |Varints(list)| == VarintSize(list[0]) + |Varints(list[1..])|
    ensures [list[0]] + list[1..] == list
  {
    ConcatAssociates(Varint(list[0]), Varints(list[1..]), rest);
  }

  /** A list is read back with exactly its bytes, whatever follows. */
  lemma ListRoundTrip(list: List, rest: seq<Byte>)
    ensures DecodeList(VarintList(list) + rest) == Some((list, |VarintList(list)|))
  {
    var tail := Varints(list) + rest;
    assert VarintList(list) + rest == Varint(|list|) + tail;
    VarintRoundTrip(|list|, tail);
    assert (Varint(|list|) + tail)[VarintSize(|list|)..] == tail;
    VarintsRoundTrip(list, rest);
  }

  lemma ListPrefixFree(a: List, b: List, x: seq<Byte>, y: seq<Byte>)
    requires VarintList(a) + x == VarintList(b) + y
    ensures a == b && x == y
  {
    ListRoundTrip(a, x);
    ListRoundTrip(b, y);
    assert (VarintList(a) + x)[|VarintList(a)|..] == x && (VarintList(b) + y)[|VarintList(b)|..] == y;
  }

  lemma {:induction false} VarintsNext(list: seq<Uint64>, i: nat)
    requires i < |list|
    ensures Varints(list[..i + 1]) == Varints(list[..i]) + Varint(list[i])
    ensures |Varints(list[..i + 1])| <= |Varints(list)|
    decreases |list|
  {
    if i > 0 {
      VarintsNext(list[1..], i - 1);
      assert list[..i + 1][1..] == list[1..][..i] && list[..i][1..] == list[1..][..i - 1];
      ConcatAssociates(Varint(list[0]), Varints(list[1..][..i - 1]), Varint(list[i]));
    } else {
      assert list[..1][1..] == [];
    }
  }

  method ListSize(list: List) returns (size: nat)
    ensures size == |VarintList(list)|
  {
    var header := VarintSize(|list|);
    var sum := 0;
    for i := 0 to |list|
      invariant sum == |Varints(list[..i])|
    {
      VarintsNext(list, i);
      sum := sum + VarintSize(list[i]);
    }
    assert list[..|list|] == list;
    size := header + sum;
  }

  /** Fills exactly the bytes that ListSize announces. */
  method EncodeList(out: array?<Byte>, at: nat, list: List) returns (ok: bool)
    requires out != null ==> at + |VarintList(list)| <= out.Length
    modifies if out == null then {} else {out}
    ensures ok <==> out != null
    ensures ok ==> out[..] == Splice(old(out[..]), at, VarintList(list))
  {
    if out == null {
      return false;
    }
    ok := EncodeVarint(out, at, |list|);
    ghost var before, header := old(out[..]), Varint(|list|);
    var offset := VarintSize(|list|);
    for i := 0 to |list|
      invariant offset == |header| + |Varints(list[..i])| <= |VarintList(list)|
      invariant out[..] == Splice(before, at, header + Varints(list[..i]))
    {
      VarintsNext(list, i);
      AppendVarint(out, at, offset, list[i], before, header + Varints(list[..i]));
      ConcatAssociates(header, Varints(list[..i]), Varint(list[i]));
      offset := offset + VarintSize(list[i]);
    }
    ok := true;
    assert list[..|list|] == list;
  }

  method AppendVarint(out: array<Byte>, at: nat, offset: nat, u: Uint64, ghost before: seq<Byte>, ghost done: seq<Byte>)
    requires offset == |done| && at + offset + VarintSize(u) <= out.Length == |before|
    requires out[..] == Splice(before, at, done)
    modifies out
    ensures out[..] == Splice(before, at, done + Varint(u))
  {
    var ok := EncodeVarint(out, at + offset, u);
    SpliceTwice(before, at, done, Varint(u));
  }
}
