/**
Bitmessage messages: the 24-byte header with its checksum, and the payload of a version
message.  What one side builds, the other side parses back, field by field.
*/
module Messages {
  import opened Wrappers
  import opened Bytes
  import opened VarintCodec
  import opened Radix
  import opened MachineIntegers

  type Digest = s: seq<Byte> | |s| == 64 witness seq(64, _ => 0)

  /** SHA-512, as some function from bytes to 64 bytes. */
  type Hash = seq<Byte> -> Digest

  type Block26 = s: seq<Byte> | |s| == 26 witness seq(26, _ => 0)  // an encoded network address

  // ---------------------------------------------------------------------------------------
  // The version payload
  // ---------------------------------------------------------------------------------------

  /** userAgent is the buffer the parser allocates: the string and its terminator. */
  datatype VersionMessage = VersionMessage(
    version: nat,
    services: nat,
    timestamp: nat,
    addrRecv: seq<Byte>,
    addrFrom: seq<Byte>,
    nonce: nat,
    userAgent: seq<Byte>,
    streams: seq<nat>)

  /** The 80 bytes before the user agent. */
  function FixedPart(version: Uint32, services: Uint64, timestamp: Uint64,
                     recv: Block26, from: Block26, nonce: Uint64): (b: seq<Byte>)
    ensures |b| == 80
  {
    BigEndian(version, 4) + BigEndian(services, 8) + BigEndian(timestamp, 8) + recv + from + BigEndian(nonce, 8)
  }

  /** A payload with any fields; the client sends services 0 and the one stream 1. */
  function Payload(version: Uint32, services: Uint64, timestamp: Uint64, recv: Block26, from: Block26, nonce: Uint64,
                   agent: CString, streams: List): seq<Byte> {
    FixedPart(version, services, timestamp, recv, from, nonce) + VarStr(agent) + VarintList(streams)
  }

  /** The length and bytes of the string at the start of data, and how far it reaches. */
  function DecodeVarStr(data: seq<Byte>): (r: Option<(seq<Byte>, nat)>)
    ensures r.Some? ==> r.value.1 <= |data|
  {
    var length := DecodeVarint(data);
    if length.None? || length.value.1 + length.value.0 > |data| then None
    else Some((data[length.value.1..length.value.1 + length.value.0], length.value.1 + length.value.0))
  }

  /** The user agent and the stream numbers that follow the fixed part. */
  function ParseTail(data: seq<Byte>): Option<(seq<Byte>, seq<nat>)> {
    var agent := DecodeVarStr(data);
    if agent.None? then None
    else
      var streams := DecodeList(data[agent.value.1..]);
      if streams.None? then None else Some((agent.value.0, streams.value.0))
  }

  /** None stands for a read past the end of the payload. */
  function ParsePayload(p: seq<Byte>): Option<VersionMessage> {
    if |p| < 80 then None
    else
      var b, tail := p[..80], ParseTail(p[80..]);
      if tail.None? then None
      else Some(VersionMessage(
             FromBigEndian(b[..4]), FromBigEndian(b[4..12]), FromBigEndian(b[12..20]),
             b[20..46], b[46..72], FromBigEndian(b[72..80]),
             tail.value.0 + [0], tail.value.1))
  }

  lemma VarStrRoundTrip(s: CString, rest: seq<Byte>)
    ensures DecodeVarStr(VarStr(s) + rest) == Some((s, VarStrSize(s)))
  {
    ConcatAssociates(Varint(|s|), s, rest);
    VarintRoundTrip(|s|, s + rest);
    assert (VarStr(s) + rest)[VarintSize(|s|)..VarStrSize(s)] == s;
  }

  lemma FixedPartFields(version: Uint32, services: Uint64, timestamp: Uint64,
                        recv: Block26, from: Block26, nonce: Uint64)
    ensures var b := FixedPart(version, services, timestamp, recv, from, nonce);
            && FromBigEndian(b[..4]) == version && FromBigEndian(b[4..12]) == services
            && FromBigEndian(b[12..20]) == timestamp && b[20..46] == recv && b[46..72] == from
            && FromBigEndian(b[72..80]) == nonce
  {
    var b := FixedPart(version, services, timestamp, recv, from, nonce);
    Powers256();
    assert b[..4] == BigEndian(version, 4);
    assert b[4..12] == BigEndian(services, 8);
    assert b[12..20] == BigEndian(timestamp, 8);
    assert b[72..80] == BigEndian(nonce, 8);
    BigEndianRoundTrip(version, 4);
    BigEndianRoundTrip(services, 8);
    BigEndianRoundTrip(timestamp, 8);
    BigEndianRoundTrip(nonce, 8);
  }

  lemma FixedPartPlaces(version: Uint32, services: Uint64, timestamp: Uint64,
                        recv: Block26, from: Block26, nonce: Uint64, tail: seq<Byte>)
    ensures var p := FixedPart(version, services, timestamp, recv, from, nonce) + tail;
            && p[..4] == BigEndian(version, 4) && p[4..12] == BigEndian(services, 8)
            && p[12..20] == BigEndian(timestamp, 8) && p[20..46] == recv && p[46..72] == from
            && p[72..80] == BigEndian(nonce, 8) && p[80..] == tail
  {}

  /** Every field of a payload that can be parsed is read from its place. */
  lemma ParsedFields(p: seq<Byte>)
    requires ParsePayload(p).Some?
    ensures var v := ParsePayload(p).value;
            && |p| > 80
            && p[..4] == BigEndian(v.version, 4) && p[4..12] == BigEndian(v.services, 8)
            && p[12..20] == BigEndian(v.timestamp, 8)
            && p[20..46] == v.addrRecv && p[46..72] == v.addrFrom
            && p[72..80] == BigEndian(v.nonce, 8)
    ensures var v := ParsePayload(p).value;
            && DecodeVarint(p[80..]).Some?
            && var (length, n) := DecodeVarint(p[80..]).value;
               && 80 + n + length <= |p|
               && v.userAgent == p[80 + n..80 + n + length] + [0]
               && DecodeList(p[80 + n + length..]).Some?
               && v.streams == DecodeList(p[80 + n + length..]).value.0
  {
    var b, data := p[..80], p[80..];
    BytesRoundTrip(b[..4]);
    BytesRoundTrip(b[4..12]);
    BytesRoundTrip(b[12..20]);
    BytesRoundTrip(b[72..80]);
    var (length, n) := DecodeVarint(data).value;
    assert data[n..n + length] == p[80 + n..80 + n + length] && data[n + length..] == p[80 + n + length..];
  }

  lemma TailRoundTrip(agent: CString, streams: List, rest: seq<Byte>)
    ensures ParseTail(VarStr(agent) + (VarintList(streams) + rest)) == Some((agent, streams))
  {
    var data := VarStr(agent) + (VarintList(streams) + rest);
    VarStrRoundTrip(agent, VarintList(streams) + rest);
    assert data[VarStrSize(agent)..] == VarintList(streams) + rest;
    ListRoundTrip(streams, rest);
  }

  /** Every field comes back, whatever bytes follow the payload. */
  lemma PayloadRoundTrip(version: Uint32, services: Uint64, timestamp: Uint64,
                         recv: Block26, from: Block26, nonce: Uint64,
                         agent: CString, streams: List, rest: seq<Byte>)
    ensures ParsePayload(Payload(version, services, timestamp, recv, from, nonce, agent, streams) + rest)
         == Some(VersionMessage(version, services, timestamp, recv, from, nonce, agent + [0], streams))
  {
    var fixed := FixedPart(version, services, timestamp, recv, from, nonce);
    var p := Payload(version, services, timestamp, recv, from, nonce, agent, streams) + rest;
    var tail := VarStr(agent) + (VarintList(streams) + rest);
    FourParts(fixed, VarStr(agent), VarintList(streams), rest);
    assert p[..80] == fixed && p[80..] == tail;
    TailRoundTrip(agent, streams, rest);
    FixedPartFields(version, services, timestamp, recv, from, nonce);
  }

  lemma FourParts(a: seq<Byte>, b: seq<Byte>, c: seq<Byte>, d: seq<Byte>)
    ensures (a + b + c) + d == a + (b + (c + d))
  {}

  /** A parsed user agent, read as a C string up to its first zero, is the one sent. */
  function CStringAt(buffer: seq<Byte>): seq<Byte> {
    if buffer == [] || buffer[0] == 0 then [] else [buffer[0]] + CStringAt(buffer[1..])
  }

  lemma {:induction false} TerminatedString(s: CString)
    ensures CStringAt(s + [0]) == s
    decreases |s|
  {
    if s != [] {
      assert (s + [0])[1..] == s[1..] + [0];
      TerminatedString(s[1..]);
    }
  }

  // ---------------------------------------------------------------------------------------
  // The message around a payload
  // ---------------------------------------------------------------------------------------

  /** payload is empty where the source keeps a null pointer. */
  datatype Message = Message(magic: seq<Byte>, command: seq<Byte>, length: nat, checksum: nat, payload: seq<Byte>)

  /** Overrun stands for reading past the end of the data. */
  datatype Outcome = Rejected | Overrun | Accepted(message: Message)

  const MAGIC: Magic := [0xe9, 0xbe, 0xb4, 0xd9]

  /** The ASCII text "version", padded with zeros to the width of the command field. */
  const VERSION_COMMAND: Command := [118, 101, 114, 115, 105, 111, 110, 0, 0, 0, 0, 0]

  function Checksum(sha: Hash, payload: seq<Byte>): seq<Byte> {
    sha(payload)[..4]
  }

  type Magic = s: seq<Byte> | |s| == 4 witness seq(4, _ => 0)

  type Command = s: seq<Byte> | |s| == 12 witness seq(12, _ => 0)

  /** The length field keeps the low 32 bits of the payload's length. */
  function Header(sha: Hash, magic: Magic, command: Command, payload: seq<Byte>): (h: seq<Byte>)
    ensures |h| == 24
  {
    magic + command + BigEndian(|payload|, 4) + Checksum(sha, payload)
  }

  function Wrapped(sha: Hash, magic: Magic, command: Command, payload: seq<Byte>): seq<Byte> {
    Header(sha, magic, command, payload) + payload
  }

  /** The message in which the client sends a payload. */
  function Sent(sha: Hash, payload: seq<Byte>): seq<Byte> {
    Wrapped(sha, MAGIC, VERSION_COMMAND, payload)
  }

  /** A 32-bit signed number as a 64-bit size. */
  function AsSize(x: int): nat {
    x % 0x1_0000_0000_0000_0000
  }

  /** What data_len is compared with: 24 + length in signed 32-bit arithmetic, then as a size. */
  function Threshold(declared: nat): nat {
    AsSize(Wrap32(24 + Wrap32(declared)))
  }

  function ParseMessage(sha: Hash, data: seq<Byte>): Outcome {
    if |data| < 24 then Rejected
    else
      var length := FromBigEndian(data[16..20]);
      if |data| < Threshold(length) then Rejected
      else if |data| < 24 + length then Overrun
      else
        var payload := data[24..24 + length];
        var checksum := FromBigEndian(data[20..24]);
        if FromBigEndian(Checksum(sha, payload)) != checksum then Rejected
        else Accepted(Message(data[..4], data[4..16], length, checksum, payload))
  }

  /** Declared lengths from which adding the header size wraps around, and from which it wraps to a small number. */
  const FIRST_WRAPPED: nat := 0x8000_0000 - 24
  const FIRST_UNCHECKED: nat := 0x1_0000_0000 - 24

  lemma ThresholdCases(declared: Uint32)
    ensures declared < FIRST_WRAPPED ==> Threshold(declared) == 24 + declared
    ensures FIRST_WRAPPED <= declared < FIRST_UNCHECKED ==> Threshold(declared) >= 0x8000_0000_0000_0000
    ensures FIRST_UNCHECKED <= declared ==> Threshold(declared) < 24
  {}

  lemma DeclaredIsUint32(data: seq<Byte>)
    requires |data| >= 24
    ensures FromBigEndian(data[16..20]) < 0x1_0000_0000
  {
    Powers256();
    ValueBound(data[16..20], 256);
  }

  /**
  The length check keeps every read inside the data exactly for the declared lengths below
  2^32 - 24; for the others it does only if the data is that long anyway.
  */
  lemma ParseStaysInside(sha: Hash, data: seq<Byte>)
    requires |data| < 0x8000_0000_0000_0000
    ensures ParseMessage(sha, data).Overrun? <==>
              && |data| >= 24
              && FIRST_UNCHECKED <= FromBigEndian(data[16..20])
              && |data| < 24 + FromBigEndian(data[16..20])
  {
    if |data| >= 24 {
      DeclaredIsUint32(data);
      ThresholdCases(FromBigEndian(data[16..20]));
    }
  }

  /** For instance a header alone that declares 2^32 - 1 bytes. */
  lemma OverrunExample(sha: Hash)
    ensures ParseMessage(sha, Zeros(16) + [255, 255, 255, 255] + Zeros(4)).Overrun?
  {
    var data: seq<Byte> := Zeros(16) + [255, 255, 255, 255] + Zeros(4);
    assert data[16..20] == [255, 255, 255, 255];
    AllOnes();
    ParseStaysInside(sha, data);
  }

  lemma AllOnes()
    ensures FromBigEndian([255, 255, 255, 255]) == 0xFFFF_FFFF
  {
    var b: seq<Byte> := [255, 255, 255, 255];
    assert b[..3] == [255, 255, 255] && b[..3][..2] == [255, 255] && b[..3][..2][..1] == [255];
    assert [255][..0] == [];
    assert Value([255], 256) == 255;
    assert Value([255, 255], 256) == 65535;
  }

  /**
  A message is accepted exactly when the declared payload is all there, its length is one the
  check can see, and its checksum matches; bytes after the payload do not matter.
  */
  lemma AcceptedIff(sha: Hash, data: seq<Byte>)
    requires |data| < 0x8000_0000_0000_0000
    ensures ParseMessage(sha, data).Accepted? <==>
              && |data| >= 24
              && var length := FromBigEndian(data[16..20]);
                 && |data| >= 24 + length
                 && (length < FIRST_WRAPPED || length >= FIRST_UNCHECKED)
                 && sha(data[24..24 + length])[..4] == data[20..24]
  {
    if |data| >= 24 {
      DeclaredIsUint32(data);
      var length := FromBigEndian(data[16..20]);
      ThresholdCases(length);
      if |data| >= 24 + length {
        SameBytes(Checksum(sha, data[24..24 + length]), data[20..24]);
      }
    }
  }

  lemma SameBytes(a: seq<Byte>, b: seq<Byte>)
    requires |a| == |b|
    ensures FromBigEndian(a) == FromBigEndian(b) <==> a == b
  {
    BytesRoundTrip(a);
    BytesRoundTrip(b);
  }

  /** Every field of an accepted message is read from its place, whatever the message is. */
  lemma AcceptedFields(sha: Hash, data: seq<Byte>)
    requires ParseMessage(sha, data).Accepted?
    ensures var m := ParseMessage(sha, data).message;
            && |data| >= 24 + m.length
            && m.magic == data[..4] && m.command == data[4..16]
            && data[16..20] == BigEndian(m.length, 4) && data[20..24] == BigEndian(m.checksum, 4)
            && m.payload == data[24..24 + m.length]
  {
    BytesRoundTrip(data[16..20]);
    BytesRoundTrip(data[20..24]);
  }

  lemma HeaderFields(sha: Hash, magic: Magic, command: Command, payload: seq<Byte>, tail: seq<Byte>)
    ensures var data := Header(sha, magic, command, payload) + tail;
            && data[..4] == magic && data[4..16] == command
            && data[16..20] == BigEndian(|payload|, 4) && data[20..24] == sha(payload)[..4]
            && data[24..] == tail
  {
    FieldsOf(magic, command, BigEndian(|payload|, 4), Checksum(sha, payload),
             Header(sha, magic, command, payload), tail);
  }

  lemma FieldsOf(a: seq<Byte>, b: seq<Byte>, c: seq<Byte>, d: seq<Byte>, header: seq<Byte>, tail: seq<Byte>)
    requires |a| == 4 && |b| == 12 && |c| == 4 && |d| == 4 && header == a + b + c + d
    ensures var data := header + tail;
            data[..4] == a && data[4..16] == b && data[16..20] == c && data[20..24] == d && data[24..] == tail
  {}

  /** A wrapped payload is accepted with the same magic, command and payload, whatever follows it. */
  lemma MessageRoundTrip(sha: Hash, magic: Magic, command: Command, payload: seq<Byte>, rest: seq<Byte>)
    requires |payload| < FIRST_WRAPPED
    ensures ParseMessage(sha, Wrapped(sha, magic, command, payload) + rest)
         == Accepted(Message(magic, command, |payload|, FromBigEndian(sha(payload)[..4]), payload))
  {
    var data := Wrapped(sha, magic, command, payload) + rest;
    assert data == Header(sha, magic, command, payload) + (payload + rest);
    HeaderFields(sha, magic, command, payload, payload + rest);
    Powers256();
    BigEndianRoundTrip(|payload|, 4);
    ThresholdCases(|payload|);
    assert data[24..24 + |payload|] == payload;
  }

  // ---------------------------------------------------------------------------------------
  // Building and parsing in buffers
  // ---------------------------------------------------------------------------------------

  /** The payload the client sends. */
  function VersionPayload(agent: CString, version: Uint32, peer: Block26, local: Block26,
                          timestamp: Uint64, nonce: Uint64): seq<Byte> {
    Payload(version, 0, timestamp, peer, local, nonce, agent, [1])
  }

  function VersionPayloadSize(agent: CString): nat {
    82 + VarStrSize(agent)
  }

  lemma OneStream()
    ensures VarintList([1]) == [1, 1]
  {
    assert Varint(1) == [1];
    assert Varints([1]) == Varint(1) + Varints([]);
  }

  lemma VersionPayloadLength(agent: CString, version: Uint32, peer: Block26, local: Block26,
                             timestamp: Uint64, nonce: Uint64)
    ensures |VersionPayload(agent, version, peer, local, timestamp, nonce)| == VersionPayloadSize(agent)
  {
    OneStream();
  }

  lemma VersionPayloadParts(agent: CString, version: Uint32, peer: Block26, local: Block26,
                            timestamp: Uint64, nonce: Uint64)
    ensures VersionPayload(agent, version, peer, local, timestamp, nonce)
         == (FixedPart(version, 0, timestamp, peer, local, nonce) + VarStr(agent)) + [1, 1]
  {
    OneStream();
  }

  /** Copies one field and moves on. */
  method PutField(out: array<Byte>, offset: nat, field: seq<Byte>,
                  ghost before: seq<Byte>, ghost at: nat, ghost done: seq<Byte>)
    returns (next: nat, ghost more: seq<Byte>)
    requires offset == at + |done| && offset + |field| <= out.Length == |before|
    requires out[..] == Splice(before, at, done)
    modifies out
    ensures more == done + field && next == at + |more| <= out.Length
    ensures out[..] == Splice(before, at, more)
  {
    Copy(out, offset, field);
    SpliceTwice(before, at, done, field);
    next := offset + |field|;
    more := done + field;
  }

  method PutFixedPart(out: array<Byte>, at: nat, version: Uint32, services: Uint64, timestamp: Uint64,
                      recv: Block26, from: Block26, nonce: Uint64)
    requires at + 80 <= out.Length
    modifies out
    ensures out[..] == Splice(old(out[..]), at, FixedPart(version, services, timestamp, recv, from, nonce))
  {
    ghost var before := out[..];
    assert out[..] == Splice(before, at, []);
    var offset, done := PutField(out, at, BigEndian(version, 4), before, at, []);
    assert done == BigEndian(version, 4);
    offset, done := PutField(out, offset, BigEndian(services, 8), before, at, done);
    offset, done := PutField(out, offset, BigEndian(timestamp, 8), before, at, done);
    offset, done := PutField(out, offset, recv, before, at, done);
    offset, done := PutField(out, offset, from, before, at, done);
    offset, done := PutField(out, offset, BigEndian(nonce, 8), before, at, done);
  }

  /** The address blocks, the time and the nonce are parameters. */
  method CreateVersionPayload(out: array?<Byte>, at: nat, agent: CString, version: Uint32,
                              peer: Block26, local: Block26, timestamp: Uint64, nonce: Uint64) returns (ok: bool)
    requires out != null ==> at + VersionPayloadSize(agent) <= out.Length
    modifies if out == null then {} else {out}
    ensures ok <==> out != null
    ensures ok ==> at + |VersionPayload(agent, version, peer, local, timestamp, nonce)| <= out.Length
    ensures ok ==> out[..] == Splice(old(out[..]), at, VersionPayload(agent, version, peer, local, timestamp, nonce))
  {
    if out == null {
      return false;
    }
    ghost var before, fixed := out[..], FixedPart(version, 0, timestamp, peer, local, nonce);
    PutFixedPart(out, at, version, 0, timestamp, peer, local, nonce);
    var offset, done := PutVarStr(out, at + 80, agent, before, at, fixed);
    offset, done := PutField(out, offset, [1, 1], before, at, done);
    VersionPayloadParts(agent, version, peer, local, timestamp, nonce);
    ok := true;
  }

  method PutVarStr(out: array<Byte>, offset: nat, agent: CString,
                   ghost before: seq<Byte>, ghost at: nat, ghost done: seq<Byte>)
    returns (next: nat, ghost more: seq<Byte>)
    requires offset == at + |done| && offset + VarStrSize(agent) <= out.Length == |before|
    requires out[..] == Splice(before, at, done)
    modifies out
    ensures more == done + VarStr(agent) && next == at + |more| <= out.Length
    ensures out[..] == Splice(before, at, more)
  {
    var ok := EncodeVarStr(out, offset, agent);
    SpliceTwice(before, at, done, VarStr(agent));
    next := offset + VarStrSize(agent);
    more := done + VarStr(agent);
  }

  /** The header goes in front of the payload that is already there. */
  method PutHeader(sha: Hash, msg: array<Byte>)
    requires msg.Length >= 24
    modifies msg
    ensures msg[..] == Sent(sha, old(msg[24..]))
  {
    ghost var before, payload := msg[..], msg[24..];
    var length := msg.Length - 24;
    assert msg[..] == Splice(before, 0, []);
    var offset, done := PutField(msg, 0, MAGIC, before, 0, []);
    assert done == MAGIC;
    offset, done := PutField(msg, offset, VERSION_COMMAND, before, 0, done);
    offset, done := PutField(msg, offset, BigEndian(length, 4), before, 0, done);
    SpliceKeeps(before, done, 24);
    offset, done := PutField(msg, offset, Checksum(sha, msg[24..]), before, 0, done);
    SpliceKeeps(before, done, 24);
  }

  lemma SpliceKeeps(s: seq<Byte>, b: seq<Byte>, n: nat)
    requires |b| <= n <= |s|
    ensures Splice(s, 0, b)[n..] == s[n..]
    ensures |b| == n ==> Splice(s, 0, b) == b + s[n..]
  {}

  lemma SpliceEnd(s: seq<Byte>, at: nat, b: seq<Byte>)
    requires at + |b| == |s|
    ensures Splice(s, at, b)[at..] == b
  {}

  method NewVersionMessage(sha: Hash, agent: CString, version: Uint32,
                           peer: Block26, local: Block26, timestamp: Uint64, nonce: Uint64) returns (msg: array<Byte>)
    ensures fresh(msg) && msg.Length == 24 + VersionPayloadSize(agent)
    ensures msg[..] == Sent(sha, VersionPayload(agent, version, peer, local, timestamp, nonce))
  {
    var size := VersionPayloadSize(agent);
    msg := new Byte[24 + size](_ => 0);
    ghost var blank := msg[..];
    VersionPayloadLength(agent, version, peer, local, timestamp, nonce);
    var ok := CreateVersionPayload(msg, 24, agent, version, peer, local, timestamp, nonce);
    SpliceEnd(blank, 24, VersionPayload(agent, version, peer, local, timestamp, nonce));
    PutHeader(sha, msg);
  }

  /** A sent version message is received field by field. */
  lemma VersionMessageRoundTrip(sha: Hash, agent: CString, version: Uint32, peer: Block26, local: Block26,
                                timestamp: Uint64, nonce: Uint64, rest: seq<Byte>)
    requires VersionPayloadSize(agent) < FIRST_WRAPPED
    ensures var payload := VersionPayload(agent, version, peer, local, timestamp, nonce);
            var r := ParseMessage(sha, Sent(sha, payload) + rest);
            && r.Accepted? && r.message.command == VERSION_COMMAND && r.message.payload == payload
            && ParsePayload(r.message.payload)
            == Some(VersionMessage(version, 0, timestamp, peer, local, nonce, agent + [0], [1]))
            && CStringAt(agent + [0]) == agent
  {
    var payload := VersionPayload(agent, version, peer, local, timestamp, nonce);
    VersionPayloadLength(agent, version, peer, local, timestamp, nonce);
    MessageRoundTrip(sha, MAGIC, VERSION_COMMAND, payload, rest);
    PayloadRoundTrip(version, 0, timestamp, peer, local, nonce, agent, [1], []);
    assert payload + [] == payload;
    TerminatedString(agent);
  }

  /** The sent message, byte by byte: where each field lies and what the constant ones are. */
  lemma SentBytes(sha: Hash, agent: CString, version: Uint32, peer: Block26, local: Block26,
                  timestamp: Uint64, nonce: Uint64)
    ensures var payload := VersionPayload(agent, version, peer, local, timestamp, nonce);
            var m := Sent(sha, payload);
            && |m| == 106 + |VarStr(agent)| && m[24..] == payload
            && m[..4] == [0xe9, 0xbe, 0xb4, 0xd9]
            && m[4..16] == [118, 101, 114, 115, 105, 111, 110, 0, 0, 0, 0, 0]
            && m[16..20] == BigEndian(82 + |VarStr(agent)|, 4)
            && m[20..24] == sha(payload)[..4]
            && payload[..4] == BigEndian(version, 4) && payload[4..12] == BigEndian(0, 8)
            && payload[12..20] == BigEndian(timestamp, 8)
            && payload[20..46] == peer && payload[46..72] == local
            && payload[72..80] == BigEndian(nonce, 8)
            && payload[80..] == VarStr(agent) + [1, 1]
  {
    var payload := VersionPayload(agent, version, peer, local, timestamp, nonce);
    VersionPayloadLength(agent, version, peer, local, timestamp, nonce);
    HeaderFields(sha, MAGIC, VERSION_COMMAND, payload, payload);
    FixedPartPlaces(version, 0, timestamp, peer, local, nonce, VarStr(agent) + [1, 1]);
    VersionPayloadParts(agent, version, peer, local, timestamp, nonce);
    ConcatAssociates(FixedPart(version, 0, timestamp, peer, local, nonce), VarStr(agent), [1, 1]);
  }

  /** Items already read, in front of what the rest of the data gives. */
  function Continued(list: seq<nat>, size: nat, rest: Option<(seq<nat>, nat)>): Option<(seq<nat>, nat)> {
    if rest.None? then None else Some((list + rest.value.0, size + rest.value.1))
  }

  /** After reading list up to offset, the result is decided by what follows. */
  ghost predicate ReadSoFar(data: seq<Byte>, count: nat, list: seq<nat>, offset: nat, left: nat) {
    && offset <= |data|
    && DecodeVarints(data, count) == Continued(list, offset, DecodeVarints(data[offset..], left))
  }

  lemma ReadOne(data: seq<Byte>, count: nat, list: seq<nat>, offset: nat, left: nat, item: nat, n: nat)
    requires ReadSoFar(data, count, list, offset, left) && left > 0
    requires DecodeVarint(data[offset..]) == Some((item, n))
    ensures ReadSoFar(data, count, list + [item], offset + n, left - 1)
  {
    assert data[offset..][n..] == data[offset + n..];
    var rest := DecodeVarints(data[offset + n..], left - 1);
    if rest.Some? {
      assert list + ([item] + rest.value.0) == (list + [item]) + rest.value.0;
    }
  }

  lemma ReadNone(data: seq<Byte>, count: nat, list: seq<nat>, offset: nat, left: nat)
    requires ReadSoFar(data, count, list, offset, left) && left > 0
    requires DecodeVarint(data[offset..]).None?
    ensures DecodeVarints(data, count).None?
  {}

  lemma ReadAll(data: seq<Byte>, count: nat, list: seq<nat>, offset: nat)
    requires ReadSoFar(data, count, list, offset, 0)
    ensures DecodeVarints(data, count) == Some((list, offset))
  {
    assert list + [] == list;
  }

  lemma ReadNothing(data: seq<Byte>, count: nat)
    ensures ReadSoFar(data, count, [], 0, count)
  {
    var r := DecodeVarints(data, count);
    if r.Some? {
      assert [] + r.value.0 == r.value.0;
    }
  }

  /** The parser's loop over the stream numbers, and how far it reads. */
  method ReadVarints(data: seq<Byte>, count: nat) returns (items: Option<seq<nat>>, offset: nat)
    ensures DecodeVarints(data, count) == if items.None? then None else Some((items.value, offset))
  {
    var list: seq<nat> := [];
    offset := 0;
    ghost var left := count;
    ReadNothing(data, count);
    for i := 0 to count
      invariant left == count - i && ReadSoFar(data, count, list, offset, left)
    {
      var next := DecodeVarint(data[offset..]);
      if next.None? {
        ReadNone(data, count, list, offset, left);
        return None, offset;
      }
      var (item, n) := next.value;
      ReadOne(data, count, list, offset, left, item, n);
      list := list + [item];
      offset := offset + n;
      left := left - 1;
    }
    ReadAll(data, count, list, offset);
    items := Some(list);
  }

  /** Reads the fields in order, moving offset past each; None stands for a read past the end. */
  method ParseVersionMessage(payload: seq<Byte>) returns (r: Option<VersionMessage>)
    ensures r == ParsePayload(payload)
  {
    if |payload| < 80 {
      return None;
    }
    var offset := 0;
    var version := FromBigEndian(payload[offset..offset + 4]);
    offset := offset + 4;
    var services := FromBigEndian(payload[offset..offset + 8]);
    offset := offset + 8;
    var timestamp := FromBigEndian(payload[offset..offset + 8]);
    offset := offset + 8;
    var recv := payload[offset..offset + 26];
    offset := offset + 26;
    var from := payload[offset..offset + 26];
    offset := offset + 26;
    var nonce := FromBigEndian(payload[offset..offset + 8]);
    offset := offset + 8;
    ghost var b := payload[..80];
    assert b[..4] == payload[0..4] && b[4..12] == payload[4..12] && b[12..20] == payload[12..20];
    assert b[20..46] == recv && b[46..72] == from && b[72..80] == payload[72..80];
    var tail := ReadTail(payload[offset..]);
    if tail.None? {
      return None;
    }
    r := Some(VersionMessage(version, services, timestamp, recv, from, nonce, tail.value.0 + [0], tail.value.1));
  }

  method ReadTail(data: seq<Byte>) returns (r: Option<(seq<Byte>, seq<nat>)>)
    ensures r == ParseTail(data)
  {
    var length := DecodeVarint(data);
    if length.None? || length.value.1 + length.value.0 > |data| {
      return None;
    }
    var offset := length.value.1;
    var agent := data[offset..offset + length.value.0];
    offset := offset + length.value.0;
    var count := DecodeVarint(data[offset..]);
    if count.None? {
      return None;
    }
    var items, size := ReadVarints(data[offset..][count.value.1..], count.value.0);
    if items.None? {
      return None;
    }
    r := Some((agent, items.value));
  }
}
