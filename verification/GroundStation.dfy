/** The sending half of the link (phase3_security_layer/secure_ground_station.cpp). */
module GroundStation {
  import opened Bitwise
  import opened Options
  import opened Packet
  import opened Aead

  /** The arguments of one call that seals a command. */
  datatype SealCall = SealCall(key: Key, sessionId: UInt32, timestampMs: UInt64, nonce: Nonce, command: Bytes)

  const ZERO_NONCE: Nonce := [0, 0, 0, 0, 0, 0, 0, 0, 0, 0, 0, 0]
  const ZERO_TAG: Tag := [0, 0, 0, 0, 0, 0, 0, 0, 0, 0, 0, 0, 0, 0, 0, 0]

  /** The packet a call produces: the associated data is the header, so it covers every clear field. */
  function Sealed(suite: Suite, c: SealCall): SecurePacket {
    var blank := SecurePacket(c.sessionId, c.timestampMs, c.nonce, [], ZERO_TAG);
    var (ciphertext, tag) := Encrypt(suite, c.key, c.nonce, c.command, Header(blank));
    blank.(ciphertext := ciphertext, tag := tag)
  }

  function SealedBytes(suite: Suite, c: SealCall): Bytes {
    Encode(Sealed(suite, c))
  }

  /** Byte by byte what is on the wire for a call: the clear fields at their places, then the command
      masked byte for byte by the keystream, then the authenticator of all that precedes it. */
  ghost predicate Transmits(suite: Suite, c: SealCall, datagram: Bytes) {
    var n := |c.command|;
    && |datagram| == 40 + n && ClearOnWire(c.sessionId, c.timestampMs, c.nonce, datagram)
    && (forall i :: 0 <= i < n ==> Xor(datagram[24 + i], c.command[i]) == suite.keystream(c.key, c.nonce, i))
    && datagram[24 + n..] == suite.mac(c.key, c.nonce, datagram[..24], datagram[24..24 + n])
  }

  lemma SealedTransmits(suite: Suite, c: SealCall)
    ensures Transmits(suite, c, SealedBytes(suite, c))
  {
    hide Xor, FourBytes;
    var p, d, n := Sealed(suite, c), SealedBytes(suite, c), |c.command|;
    EncodedOnWire(p);
    assert d[..24] == Header(p);
    forall i | 0 <= i < n
      ensures Xor(d[24 + i], c.command[i]) == suite.keystream(c.key, c.nonce, i)
    {
      assert d[24 + i] == p.ciphertext[i];
      KeystreamMasks(suite, c.key, c.nonce, c.command, i);
    }
  }

  function OpenPacket(suite: Suite, key: Key, p: SecurePacket): Option<Bytes> {
    Decrypt(suite, key, p.nonce, p.ciphertext, Header(p), p.tag)
  }

  /** The call that would have produced p under `key` if p opens to `command`. */
  function CallFor(key: Key, p: SecurePacket, command: Bytes): SealCall {
    SealCall(key, p.sessionId, p.timestampMs, p.nonce, command)
  }

  /** The datagram parses and its tag verifies under `key`. */
  predicate Opens(suite: Suite, key: Key, data: Bytes) {
    Parse(data).Some? && OpenPacket(suite, key, Parse(data).value).Some?
  }

  /** `cipherOk` says whether the cipher library completes; when it does not, the caller gets no bytes. */
  method CreateSecureCommandPacket(
    suite: Suite, key: Key, sessionId: UInt32, timestampMs: UInt64, nonce: Nonce, command: Bytes, cipherOk: bool)
    returns (datagram: Bytes)
    ensures !cipherOk ==> datagram == []
    ensures cipherOk ==> datagram == SealedBytes(suite, SealCall(key, sessionId, timestampMs, nonce, command))
    ensures cipherOk ==> Transmits(suite, SealCall(key, sessionId, timestampMs, nonce, command), datagram)
  {
    var packet := SecurePacket(sessionId, timestampMs, nonce, [], ZERO_TAG);
    var aad := BuildAad(packet);
    if !cipherOk {
      return [];
    }
    var (ciphertext, tag) := Encrypt(suite, key, packet.nonce, command, aad);
    packet := packet.(ciphertext := ciphertext);
    packet := packet.(tag := tag);
    datagram := SerializePacket(packet);
    SealedTransmits(suite, SealCall(key, sessionId, timestampMs, nonce, command));
  }

  /** A packet opens to `command` exactly when it is the packet sealing `command` would produce. */
  lemma OpensIffSealed(suite: Suite, key: Key, p: SecurePacket, command: Bytes)
    ensures OpenPacket(suite, key, p) == Some(command) <==> p == Sealed(suite, CallFor(key, p, command))
  {
    DecryptIffSealed(suite, key, p.nonce, p.ciphertext, Header(p), p.tag, command);
  }

  /** Byte level: what opens to `command` is, byte for byte, what the ground station would have sent. */
  lemma DatagramOpensIffSealed(suite: Suite, key: Key, data: Bytes, command: Bytes)
    ensures Opens(suite, key, data) && OpenPacket(suite, key, Parse(data).value) == Some(command)
            <==> |data| >= 40 && data == SealedBytes(suite, CallFor(key, Parse(data).value, command))
  {
    if |data| >= 40 {
      var p := Parse(data).value;
      OpensIffSealed(suite, key, p, command);
      CodecBijection(p, data);
      CodecBijection(Sealed(suite, CallFor(key, p, command)), data);
    }
  }

  /** Sealing, serializing, parsing and opening again returns every field and the command. */
  lemma SealThenOpen(suite: Suite, c: SealCall)
    ensures |SealedBytes(suite, c)| == 40 + |c.command|
    ensures Parse(SealedBytes(suite, c)) == Some(Sealed(suite, c))
    ensures OpenPacket(suite, c.key, Sealed(suite, c)) == Some(c.command)
    ensures CallFor(c.key, Sealed(suite, c), c.command) == c
  {
    ParseAfterEncode(Sealed(suite, c));
    OpensIffSealed(suite, c.key, Sealed(suite, c), c.command);
  }

  /** Changing only the last 16 bytes of a datagram that opens gives one that does not. */
  lemma ChangedTagNeverOpens(suite: Suite, key: Key, data: Bytes, altered: Bytes)
    requires Opens(suite, key, data)
    requires |altered| == |data| && altered != data
    requires altered[..|data| - TAG_SIZE] == data[..|data| - TAG_SIZE]
    ensures !Opens(suite, key, altered)
  {
    var p, q := Parse(data).value, Parse(altered).value;
    var clear := data[..|data| - TAG_SIZE];
    assert p.ciphertext == clear[HEADER_SIZE..] == q.ciphertext;
    EncodeAfterParse(data);
    EncodeAfterParse(altered);
    assert Header(p) == clear[..HEADER_SIZE] == Header(q);
    assert p.nonce == clear[12..HEADER_SIZE] == q.nonce;
    if q.tag == p.tag {
      DatagramBinding(data, altered);
    }
  }
}
