/** Authenticated encryption in the shape of section 2.8 of RFC 8439, over any keystream and any
    one-time authenticator (phase3_security_layer/crypto.cpp). */
module Aead {
  import opened Bitwise
  import opened Options
  import opened Packet

  const KEY_SIZE := 32
  type Key = b: Bytes | |b| == KEY_SIZE witness seq(KEY_SIZE, i => 0)

  /** The primitives the link is built on. Every theorem holds for all of them.
      `derive` stands for X25519 followed by HKDF: (own private key, peer public key) to session key. */
  datatype Suite = Suite(
    keystream: (Key, Nonce, nat) -> Byte,
    mac: (Key, Nonce, Bytes, Bytes) -> Tag,
    derive: (Bytes, Bytes) -> Key)

  function XorByte(a: Byte, b: Byte): (c: Byte)
    ensures c == Xor(a, b)
  {
    ShlBytes(1);
    XorBounded(a, b, 8);
    Xor(a, b)
  }

  function ApplyKeystream(suite: Suite, key: Key, nonce: Nonce, data: Bytes): (out: Bytes)
    ensures |out| == |data|
  {
    seq<Byte>(|data|, (i: nat) requires i < |data| => XorByte(data[i], suite.keystream(key, nonce, i)))
  }

  function Encrypt(suite: Suite, key: Key, nonce: Nonce, plaintext: Bytes, aad: Bytes): (sealed: (Bytes, Tag))
    ensures |sealed.0| == |plaintext|
  {
    var ciphertext := ApplyKeystream(suite, key, nonce, plaintext);
    (ciphertext, suite.mac(key, nonce, aad, ciphertext))
  }

  function Decrypt(suite: Suite, key: Key, nonce: Nonce, ciphertext: Bytes, aad: Bytes, tag: Tag): Option<Bytes> {
    if tag == suite.mac(key, nonce, aad, ciphertext) then Some(ApplyKeystream(suite, key, nonce, ciphertext)) else None
  }

  /** Every byte is masked by its own byte of the keystream. */
  lemma KeystreamMasks(suite: Suite, key: Key, nonce: Nonce, data: Bytes, i: nat)
    requires i < |data|
    ensures Xor(ApplyKeystream(suite, key, nonce, data)[i], data[i]) == suite.keystream(key, nonce, i)
  {
    XorCancels(data[i], suite.keystream(key, nonce, i));
  }

  lemma KeystreamInvolutive(suite: Suite, key: Key, nonce: Nonce, data: Bytes)
    ensures ApplyKeystream(suite, key, nonce, ApplyKeystream(suite, key, nonce, data)) == data
  {
    forall i | 0 <= i < |data|
      ensures ApplyKeystream(suite, key, nonce, ApplyKeystream(suite, key, nonce, data))[i] == data[i]
    {
      XorInvolutive(data[i], suite.keystream(key, nonce, i));
    }
  }

  /** Opening gives p exactly when sealing p gives this ciphertext and tag. */
  lemma DecryptIffSealed(suite: Suite, key: Key, nonce: Nonce, ciphertext: Bytes, aad: Bytes, tag: Tag, p: Bytes)
    ensures Decrypt(suite, key, nonce, ciphertext, aad, tag) == Some(p)
            <==> Encrypt(suite, key, nonce, p, aad) == (ciphertext, tag)
  {
    KeystreamInvolutive(suite, key, nonce, ciphertext);
    KeystreamInvolutive(suite, key, nonce, p);
  }
}
