/** The replay guard (phase3_security_layer/anti_replay.cpp): a set of rendered strings standing in
    for a set of (session id, nonce) pairs. */
module ReplayGuard {
  import opened Bitwise
  import opened Packet
  import opened Formatting

  /** What makes two packets the same message to the guard. */
  datatype MessageId = MessageId(sessionId: UInt32, nonce: Nonce)

  function Distance(a: nat, b: nat): nat {
    if a <= b then b - a else a - b
  }

  function HexBytes(s: Bytes): (r: string)
    ensures |r| == 2 * |s|
  {
    if s == [] then "" else HexBytes(s[..|s| - 1]) + PaddedHex('a', s[|s| - 1], 2)
  }

  function NonceKey(id: MessageId): string {
    Decimal(id.sessionId) + ":" + HexBytes(id.nonce)
  }

  lemma {:induction false} HexBytesRead(s: Bytes, i: nat)
    requires i < |s|
    ensures HexValue(HexBytes(s)[2 * i..2 * i + 2]) == s[i]
    ensures forall c <- HexBytes(s) :: IsDigit(c) || 'a' <= c <= 'f'
  {
    hide PaddedHex, HexValue;
    var n := |s| - 1;
    var front := HexBytes(s[..n]);
    ShlBytes(1);
    PaddedHexReads('a', s[n], 2);
    assert HexBytes(s)[2 * n..2 * n + 2] == PaddedHex('a', s[n], 2);
    if n > 0 {
      HexBytesRead(s[..n], if i < n then i else 0);
      assert i < n ==> HexBytes(s)[2 * i..2 * i + 2] == front[2 * i..2 * i + 2];
    }
  }

  /** The decimal session id, a colon, and two lower-case hexadecimal digits for each byte of the nonce. */
  ghost predicate Renders(key: string, id: MessageId) {
    var n := |key| - 25;
    && n > 0 && key[n] == ':'
    && (forall c <- key[..n] :: IsDigit(c)) && DecimalValue(key[..n]) == id.sessionId
    && (key[0] == '0' <==> id.sessionId == 0)
    && (forall c <- key[n + 1..] :: IsDigit(c) || 'a' <= c <= 'f')
    && (forall i :: 0 <= i < 12 ==> HexValue(key[n + 1 + 2 * i..n + 3 + 2 * i]) == id.nonce[i])
  }

  lemma NonceKeyRenders(id: MessageId)
    ensures Renders(NonceKey(id), id)
  {
    hide HexBytes, HexValue, Decimal, DecimalValue;
    var key, n := NonceKey(id), |NonceKey(id)| - 25;
    var digits := HexBytes(id.nonce);
    assert key[..n] == Decimal(id.sessionId) && key[n + 1..] == digits;
    DecimalValueOf(id.sessionId);
    NoLeadingZero(id.sessionId);
    HexBytesRead(id.nonce, 0);
    forall i | 0 <= i < 12
      ensures HexValue(key[n + 1 + 2 * i..n + 3 + 2 * i]) == id.nonce[i]
    {
      HexBytesRead(id.nonce, i);
      assert key[n + 1 + 2 * i..n + 3 + 2 * i] == digits[2 * i..2 * i + 2];
    }
  }

  /** Different (session id, nonce) pairs never render to the same string. */
  lemma NonceKeyInjective(a: MessageId, b: MessageId)
    ensures NonceKey(a) == NonceKey(b) <==> a == b
  {
    hide NonceKey, HexValue, DecimalValue;
    NonceKeyRenders(a);
    NonceKeyRenders(b);
    if NonceKey(a) == NonceKey(b) {
      assert forall i :: 0 <= i < 12 ==> a.nonce[i] == b.nonce[i];
      assert a.nonce == b.nonce;
    }
  }

  /** The strings are as many as the pairs they stand for. */
  lemma {:induction false} AsManyKeysAsIds(ids: set<MessageId>)
    ensures |set id | id in ids :: NonceKey(id)| == |ids|
  {
    var keys := set id | id in ids :: NonceKey(id);
    if ids == {} {
      assert keys == {};
    } else {
      var one :| one in ids;
      var others := ids - {one};
      AsManyKeysAsIds(others);
      var otherKeys := set id | id in others :: NonceKey(id);
      forall id | id in others
        ensures NonceKey(id) != NonceKey(one)
      {
        NonceKeyInjective(id, one);
      }
      assert keys == otherKeys + {NonceKey(one)};
    }
  }

  class AntiReplay {
    var seenNonces: set<string>
    const windowMs: UInt64
    /** The pairs marked so far. */
    ghost var marked: set<MessageId>

    ghost predicate Valid()
      reads this
    {
      seenNonces == set id | id in marked :: NonceKey(id)
    }

    constructor (freshnessWindowMs: UInt64)
      ensures Valid() && marked == {} && seenNonces == {} && windowMs == freshnessWindowMs
    {
      seenNonces := {};
      windowMs := freshnessWindowMs;
      marked := {};
    }

    method MakeNonceKey(sessionId: UInt32, nonce: Nonce) returns (key: string)
      ensures key == NonceKey(MessageId(sessionId, nonce)) && Renders(key, MessageId(sessionId, nonce))
    {
      hide Renders, Decimal, PaddedHex;
      NonceKeyRenders(MessageId(sessionId, nonce));
      key := Decimal(sessionId) + ":";
      ghost var prefix := key;
      for i := 0 to NONCE_SIZE
        invariant key == prefix + HexBytes(nonce[..i])
      {
        assert nonce[..i + 1][..i] == nonce[..i];
        key := key + PaddedHex('a', nonce[i], 2);
      }
      assert nonce[..NONCE_SIZE] == nonce;
    }

    method IsFresh(packetTimestampMs: UInt64, currentTimeMs: UInt64) returns (isFresh: bool)
      ensures isFresh <==> Distance(packetTimestampMs, currentTimeMs) <= windowMs
    {
      var diff: UInt64;
      if currentTimeMs >= packetTimestampMs {
        diff := currentTimeMs - packetTimestampMs;
      } else {
        diff := packetTimestampMs - currentTimeMs;
      }
      isFresh := diff <= windowMs;
    }

    method IsDuplicate(sessionId: UInt32, nonce: Nonce) returns (duplicate: bool)
      requires Valid()
      ensures duplicate <==> MessageId(sessionId, nonce) in marked
    {
      var key := MakeNonceKey(sessionId, nonce);
      duplicate := key in seenNonces;
      forall id | id in marked && NonceKey(id) == key
        ensures id == MessageId(sessionId, nonce)
      {
        NonceKeyInjective(id, MessageId(sessionId, nonce));
      }
    }

    method MarkSeen(sessionId: UInt32, nonce: Nonce)
      requires Valid()
      modifies this
      ensures Valid() && marked == old(marked) + {MessageId(sessionId, nonce)}
    {
      var key := MakeNonceKey(sessionId, nonce);
      seenNonces := seenNonces + {key};
      marked := marked + {MessageId(sessionId, nonce)};
    }
  }
}
