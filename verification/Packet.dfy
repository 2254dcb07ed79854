/** The command packet and its byte layout (phase3_security_layer/packet.cpp). */
module Packet {
  import opened Bitwise
  import opened Options

  const SESSION_ID_SIZE := 4
  const TIMESTAMP_SIZE := 8
  const NONCE_SIZE := 12
  const TAG_SIZE := 16
  const HEADER_SIZE := SESSION_ID_SIZE + TIMESTAMP_SIZE + NONCE_SIZE

  type Nonce = b: Bytes | |b| == NONCE_SIZE witness [0, 0, 0, 0, 0, 0, 0, 0, 0, 0, 0, 0]
  type Tag = b: Bytes | |b| == TAG_SIZE witness [0, 0, 0, 0, 0, 0, 0, 0, 0, 0, 0, 0, 0, 0, 0, 0]

  datatype SecurePacket = SecurePacket(
    sessionId: UInt32,
    timestampMs: UInt64,
    nonce: Nonce,
    ciphertext: Bytes,
    tag: Tag)

  // ---------- The layout, stated without shifts ----------

  /** The low n bytes of v, most significant first. */
  function BigEndian(v: nat, n: nat): (s: Bytes)
    ensures |s| == n
  {
    if n == 0 then [] else BigEndian(v / 0x100, n - 1) + [v % 0x100]
  }

  /** The number whose big-endian digits in base 256 are s. */
  function Value(s: Bytes): nat {
    if s == [] then 0 else 0x100 * Value(s[..|s| - 1]) + s[|s| - 1]
  }

  function Pow256(n: nat): nat {
    if n == 0 then 1 else 0x100 * Pow256(n - 1)
  }

  function Header(p: SecurePacket): (h: Bytes)
    ensures |h| == HEADER_SIZE
  {
    BigEndian(p.sessionId, SESSION_ID_SIZE) + BigEndian(p.timestampMs, TIMESTAMP_SIZE) + p.nonce
  }

  function Encode(p: SecurePacket): Bytes {
    Header(p) + p.ciphertext + p.tag
  }

  function Parse(data: Bytes): Option<SecurePacket> {
    if |data| < HEADER_SIZE + TAG_SIZE then None
    else
      FieldBounds(data);
      Some(SecurePacket(
             Value(data[..4]),
             Value(data[4..12]),
             data[12..HEADER_SIZE],
             data[HEADER_SIZE..|data| - TAG_SIZE],
             data[|data| - TAG_SIZE..]))
  }

  lemma FieldBounds(data: Bytes)
    requires |data| >= HEADER_SIZE + TAG_SIZE
    ensures Value(data[..4]) < 0x1_0000_0000
    ensures Value(data[4..12]) < 0x1_0000_0000_0000_0000
  {
    ValueBound(data[..4]);
    ValueBound(data[4..12]);
    Powers();
  }

  lemma Powers()
    ensures Pow256(4) == 0x1_0000_0000
    ensures Pow256(7) == 0x100_0000_0000_0000
    ensures Pow256(8) == 0x1_0000_0000_0000_0000
  {
    assert Pow256(2) == 0x1_0000;
    assert Pow256(4) == 0x1_0000 * Pow256(2);
    assert Pow256(6) == 0x1_0000 * Pow256(4);
  }

  lemma {:induction false} ValueBound(s: Bytes)
    ensures Value(s) < Pow256(|s|)
  {
    if s != [] {
      ValueBound(s[..|s| - 1]);
    }
  }

  lemma {:induction false} PrefixBound(n: nat, m: nat)
    requires n <= m
    ensures Pow256(n) <= Pow256(m)
  {
    if n < m {
      PrefixBound(n, m - 1);
    }
  }

  lemma {:induction false} ValueOfBigEndian(v: nat, n: nat)
    requires v < Pow256(n)
    ensures Value(BigEndian(v, n)) == v
  {
    if n > 0 {
      ValueOfBigEndian(v / 0x100, n - 1);
      var s := BigEndian(v, n);
      assert s[..|s| - 1] == BigEndian(v / 0x100, n - 1);
    }
  }

  lemma {:induction false} BigEndianOfValue(s: Bytes)
    ensures BigEndian(Value(s), |s|) == s
  {
    if s != [] {
      var front := s[..|s| - 1];
      BigEndianOfValue(front);
      var v, last := Value(front), s[|s| - 1];
      assert Value(s) / 0x100 == v && Value(s) % 0x100 == last;
      assert s == front + [s[|s| - 1]];
    }
  }

  /** The digits written out. */
  function FourBytes(v: nat): Bytes {
    [v / 0x100_0000 % 0x100, v / 0x1_0000 % 0x100, v / 0x100 % 0x100, v % 0x100]
  }

  lemma BigEndianUnfolds(v: nat, n: nat)
    ensures BigEndian(v, n + 1) == BigEndian(v / 0x100, n) + [v % 0x100]
  {
  }

  lemma FourBytesAreBigEndian(v: nat)
    ensures BigEndian(v, 4) == FourBytes(v)
  {
    BigEndianSplits(v, 0);
    assert BigEndian(v / 0x1_0000_0000, 0) == [];
  }

  lemma BigEndianSplits(v: nat, n: nat)
    ensures BigEndian(v, n + 4) == BigEndian(v / 0x1_0000_0000, n) + FourBytes(v)
  {
    hide BigEndian;
    BigEndianUnfolds(v, n + 3);
    BigEndianUnfolds(v / 0x100, n + 2);
    BigEndianUnfolds(v / 0x1_0000, n + 1);
    BigEndianUnfolds(v / 0x100_0000, n);
  }

  /** Byte by byte where each field is: session id, timestamp and nonce, then ciphertext and tag. */
  ghost predicate OnWire(p: SecurePacket, data: Bytes) {
    ClearOnWire(p.sessionId, p.timestampMs, p.nonce, data)
    && |data| == 40 + |p.ciphertext|
    && data[24..24 + |p.ciphertext|] == p.ciphertext
    && data[24 + |p.ciphertext|..] == p.tag
  }

  /** The 24 bytes a datagram begins with, most significant first. */
  ghost predicate ClearOnWire(sessionId: UInt32, timestampMs: UInt64, nonce: Nonce, data: Bytes) {
    && |data| >= 24
    && data[..4] == FourBytes(sessionId)
    && data[4..8] == FourBytes(timestampMs / 0x1_0000_0000)
    && data[8..12] == FourBytes(timestampMs)
    && data[12..24] == nonce
  }

  lemma EncodedOnWire(p: SecurePacket)
    ensures OnWire(p, Encode(p))
  {
    hide BigEndian, FourBytes;
    FourBytesAreBigEndian(p.sessionId);
    BigEndianSplits(p.timestampMs, 4);
    FourBytesAreBigEndian(p.timestampMs / 0x1_0000_0000);
    var d := Encode(p);
    assert d[..4] == BigEndian(p.sessionId, 4);
    assert d[4..12] == BigEndian(p.timestampMs, 8);
    assert d[4..8] == d[4..12][..4] && d[8..12] == d[4..12][4..];
  }

  // ---------- The code ----------

  function LowByte(value: nat): (b: Byte)
    ensures b == value % 0x100
  {
    AndByteMask(value);
    And(value, 0xFF)
  }

  method WriteU32Be(out: Bytes, value: UInt32) returns (result: Bytes)
    ensures result == out + BigEndian(value, 4)
  {
    result := out;
    result := result + [LowByte(Shr(value, 24))];
    result := result + [LowByte(Shr(value, 16))];
    result := result + [LowByte(Shr(value, 8))];
    result := result + [LowByte(value)];
    ShrByte(value, 0);
    ShrByte(value, 8);
    ShrByte(value, 16);
    assert BigEndian(value, 1) == [value % 0x100];
    BigEndianStep(value, 0, 0);
    BigEndianStep(value, 8, 1);
    BigEndianStep(value, 16, 2);
    BigEndianStep(value, 24, 3);
    assert BigEndian(value, 4) == BigEndian(Shr(value, 8), 3) + [value % 0x100];
    assert BigEndian(Shr(value, 8), 3) == BigEndian(Shr(value, 16), 2) + [Shr(value, 8) % 0x100];
    assert BigEndian(Shr(value, 16), 2) == BigEndian(Shr(value, 24), 1) + [Shr(value, 16) % 0x100];
    assert BigEndian(Shr(value, 24), 1) == BigEndian(Shr(value, 24) / 0x100, 0) + [Shr(value, 24) % 0x100];
  }

  /** Dropping one more byte by a shift peels one more digit. */
  lemma BigEndianStep(value: nat, k: nat, n: nat)
    ensures BigEndian(Shr(value, k), n + 1) == BigEndian(Shr(value, k + 8), n) + [Shr(value, k) % 0x100]
  {
    ShrByte(value, k);
  }

  method WriteU64Be(out: Bytes, value: UInt64) returns (result: Bytes)
    ensures result == out + BigEndian(value, 8)
  {
    result := out;
    var i := 7;
    while i >= 0
      invariant -1 <= i <= 7
      invariant result == out + BigEndian(Shr(value, (i + 1) * 8), 7 - i)
    {
      BigEndianStep(value, i * 8, 7 - i);
      result := result + [LowByte(Shr(value, i * 8))];
      i := i - 1;
    }
  }

  function ReadU32Be(data: Bytes, offset: nat): (r: UInt32)
    requires offset + 4 <= |data|
    ensures r == Value(data[offset..offset + 4])
  {
    ReadU32BeCorrect(data, offset);
    Or(Or(Or(Shl(data[offset], 24), Shl(data[offset + 1], 16)), Shl(data[offset + 2], 8)), data[offset + 3])
  }

  lemma ReadU32BeCorrect(data: Bytes, offset: nat)
    requires offset + 4 <= |data|
    ensures Or(Or(Or(Shl(data[offset], 24), Shl(data[offset + 1], 16)), Shl(data[offset + 2], 8)), data[offset + 3])
            == Value(data[offset..offset + 4]) < 0x1_0000_0000
  {
    hide Or, Shl;
    var a: nat, b: nat, c: nat, d: nat := data[offset], data[offset + 1], data[offset + 2], data[offset + 3];
    ShlBytes(1);
    ShlBytes(a);
    ShlBytes(b);
    ShlBytes(c);
    OrIntoShifted(a, Shl(b, 16), 24);
    var ab := 0x100 * a + b;
    ShlBytes(ab);
    OrIntoShifted(ab, Shl(c, 8), 16);
    var abc := 0x100 * ab + c;
    ShlBytes(abc);
    OrIntoShifted(abc, d, 8);
    FourDigits(data[offset..offset + 4]);
  }

  lemma FourDigits(s: Bytes)
    requires |s| == 4
    ensures Value(s) == 0x100_0000 * (s[0] as nat) + 0x1_0000 * (s[1] as nat) + 0x100 * (s[2] as nat) + s[3]
  {
    assert s[..3][..2] == s[..2];
    assert s[..2][..1] == s[..1];
    assert Value(s[..1]) == s[0];
    assert Value(s[..2]) == 0x100 * Value(s[..1]) + s[1];
    assert Value(s[..3]) == 0x100 * Value(s[..2]) + s[2];
  }

  /** `(value << 8) | b` on a 64-bit word, which drops what is shifted out of it. */
  function AppendByte(value: UInt64, b: Byte): (r: UInt64)
    requires value < 0x100_0000_0000_0000
    ensures r == 0x100 * (value as nat) + b
  {
    OrByteInWord(value, b);
    Or(Shl(value, 8) % 0x1_0000_0000_0000_0000, b)
  }

  /** At most seven bytes leave room for an eighth, and one more byte is one more digit. */
  lemma OneMoreDigit(data: Bytes, from: nat, n: nat)
    requires n < 8 && from + n + 1 <= |data|
    ensures Value(data[from..from + n]) < 0x100_0000_0000_0000
    ensures Value(data[from..from + n + 1]) == 0x100 * Value(data[from..from + n]) + data[from + n]
  {
    ValueBound(data[from..from + n]);
    PrefixBound(n, 7);
    Powers();
    assert data[from..from + n + 1][..n] == data[from..from + n];
  }

  method ReadU64Be(data: Bytes, offset: nat) returns (value: UInt64)
    requires offset + 8 <= |data|
    ensures value == Value(data[offset..offset + 8])
  {
    value := 0;
    var i := 0;
    while i < 8
      invariant 0 <= i <= 8
      invariant value == Value(data[offset..offset + i])
    {
      OneMoreDigit(data, offset, i);
      value := AppendByte(value, data[offset + i]);
      i := i + 1;
    }
  }

  method BuildAad(packet: SecurePacket) returns (aad: Bytes)
    ensures aad == Header(packet)
  {
    aad := [];
    aad := WriteU32Be(aad, packet.sessionId);
    aad := WriteU64Be(aad, packet.timestampMs);
    ghost var fields := aad;
    for i := 0 to NONCE_SIZE
      invariant aad == fields + packet.nonce[..i]
    {
      aad := aad + [packet.nonce[i]];
    }
  }

  method SerializePacket(packet: SecurePacket) returns (out: Bytes)
    ensures out == Encode(packet) && OnWire(packet, out)
  {
    EncodedOnWire(packet);
    out := BuildAad(packet);
    out := out + packet.ciphertext;
    out := out + packet.tag;
  }

  /** `packet0` is what the caller's struct held: a failed parse leaves it alone. */
  method DeserializePacket(data: Bytes, packet0: SecurePacket) returns (ok: bool, packet: SecurePacket)
    ensures ok <==> |data| >= 40
    ensures ok ==> Parse(data) == Some(packet)
    ensures !ok ==> Parse(data) == None && packet == packet0
  {
    packet := packet0;
    if |data| < HEADER_SIZE + TAG_SIZE {
      return false, packet;
    }
    packet := packet.(sessionId := ReadU32Be(data, 0));
    var timestamp := ReadU64Be(data, 4);
    packet := packet.(timestampMs := timestamp);
    var offset := 12;
    for i := 0 to NONCE_SIZE
      invariant packet.sessionId == Value(data[..4]) && packet.timestampMs == timestamp
      invariant forall k :: 0 <= k < i ==> packet.nonce[k] == data[offset + k]
    {
      packet := packet.(nonce := packet.nonce[i := data[offset + i]]);
    }
    assert packet.nonce == data[12..HEADER_SIZE];
    offset := offset + NONCE_SIZE;
    var ciphertextLen := |data| - HEADER_SIZE - TAG_SIZE;
    packet := packet.(ciphertext := data[HEADER_SIZE..HEADER_SIZE + ciphertextLen]);
    ghost var parsed := packet;
    for i := 0 to TAG_SIZE
      invariant packet == parsed.(tag := packet.tag)
      invariant forall k :: 0 <= k < i ==> packet.tag[k] == data[HEADER_SIZE + ciphertextLen + k]
    {
      packet := packet.(tag := packet.tag[i := data[HEADER_SIZE + ciphertextLen + i]]);
    }
    assert packet.tag == data[|data| - TAG_SIZE..];
    ok := true;
  }

  // ---------- What the codec promises ----------

  /** Reading back what was written returns every packet unchanged. */
  lemma ParseAfterEncode(p: SecurePacket)
    ensures Parse(Encode(p)) == Some(p)
  {
    var d := Encode(p);
    assert d[..4] == BigEndian(p.sessionId, 4);
    assert d[4..12] == BigEndian(p.timestampMs, 8);
    assert d[12..HEADER_SIZE] == p.nonce;
    assert d[HEADER_SIZE..|d| - TAG_SIZE] == p.ciphertext;
    assert d[|d| - TAG_SIZE..] == p.tag;
    Powers();
    ValueOfBigEndian(p.sessionId, 4);
    ValueOfBigEndian(p.timestampMs, 8);
  }

  /** Writing back what was read returns every parsed byte string unchanged, and the header rebuilt
      from the parsed fields is the first 24 bytes that arrived. */
  lemma EncodeAfterParse(data: Bytes)
    requires Parse(data).Some?
    ensures Encode(Parse(data).value) == data
    ensures Header(Parse(data).value) == data[..24]
  {
    BigEndianOfValue(data[..4]);
    BigEndianOfValue(data[4..12]);
    assert data[..24] == data[..4] + data[4..12] + data[12..24];
    assert data == data[..24] + data[24..|data| - TAG_SIZE] + data[|data| - TAG_SIZE..];
  }

  /** The codec is a bijection between packets and byte strings of at least 40 bytes. */
  lemma CodecBijection(p: SecurePacket, data: Bytes)
    ensures |Encode(p)| >= 40
    ensures Encode(p) == data <==> Parse(data) == Some(p)
  {
    ParseAfterEncode(p);
    if Parse(data).Some? {
      EncodeAfterParse(data);
    }
  }

  /** Two different datagrams never reach the cipher as the same (associated data, ciphertext, tag). */
  lemma DatagramBinding(d1: Bytes, d2: Bytes)
    requires Parse(d1).Some? && Parse(d2).Some?
    requires Header(Parse(d1).value) == Header(Parse(d2).value)
    requires Parse(d1).value.ciphertext == Parse(d2).value.ciphertext
    requires Parse(d1).value.tag == Parse(d2).value.tag
    ensures d1 == d2
  {
    EncodeAfterParse(d1);
    EncodeAfterParse(d2);
  }
}
