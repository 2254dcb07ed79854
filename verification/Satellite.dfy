/** The satellite node of phase5_dashboard/secure_satellite_node.cpp: fields that the receive loop
    reassigns, proved at every point to be what the history of receptions determines. */
module Satellite {
  import opened Bitwise
  import opened Packet
  import opened Aead
  import opened ReplayGuard
  import opened GroundStation
  import opened LinkSpec

  class SatelliteNode {
    const cfg: Config
    var groundPublic: Bytes
    var sessionKey: Key
    var replayGuard: AntiReplay
    var effects: seq<Effect>
    /** The datagram that started the first session, and everything received since. */
    ghost const boot: Reception
    ghost var history: seq<Reception>

    /** Where the run stood when the first session had been agreed. */
    ghost function Start(): Snapshot
      requires IsHandshake(boot)
    {
      Snapshot(Link(cfg.suite.derive(cfg.privateKey, Received(boot)), {}), [SendPublicKey(boot.sender, cfg.publicKey)])
    }

    /** The link as the specification sees it. */
    ghost function Abstract(): Link
      reads this, replayGuard
    {
      Link(sessionKey, replayGuard.marked)
    }

    ghost predicate Valid()
      reads this, replayGuard
    {
      && replayGuard.Valid() && replayGuard.windowMs == WINDOW_MS
      && IsHandshake(boot)
      && groundPublic == Received(LastHandshake(boot, history))
      && sessionKey == cfg.suite.derive(cfg.privateKey, groundPublic)
      && Traced(cfg, Start(), history, Snapshot(Abstract(), effects))
    }

    constructor (cfg: Config, first: Reception)
      requires IsHandshake(first)
      ensures Valid() && fresh(replayGuard) && this.cfg == cfg && boot == first && history == []
      ensures sessionKey == cfg.suite.derive(cfg.privateKey, Received(first)) && replayGuard.seenNonces == {}
      ensures effects == [SendPublicKey(first.sender, cfg.publicKey)]
    {
      this.cfg := cfg;
      groundPublic := Received(first);
      effects := [SendPublicKey(first.sender, cfg.publicKey)];
      sessionKey := cfg.suite.derive(cfg.privateKey, Received(first));
      replayGuard := new AntiReplay(30000);
      boot := first;
      history := [];
    }

    /** A run begins only with a 32-byte datagram; anything else ends the program. */
    static method Boot(cfg: Config, first: Reception) returns (node: SatelliteNode?)
      ensures node == null <==> !SentKey(first)
      ensures node != null ==> fresh(node) && fresh(node.replayGuard) && node.Valid()
      ensures node != null ==> node.cfg == cfg && node.boot == first && node.history == []
      ensures node != null ==>
                && node.groundPublic == first.payload
                && node.sessionKey == cfg.suite.derive(cfg.privateKey, first.payload)
                && node.replayGuard.seenNonces == {}
                && node.effects == [SendPublicKey(first.sender, cfg.publicKey)]
    {
      if |Received(first)| != PUBLIC_KEY_SIZE {
        return null;
      }
      node := new SatelliteNode(cfg, first);
    }

    method PostSecurityEvent(kind: string, reason: string, sessionId: UInt32, latencyMs: int, severity: string)
      modifies this`effects
      ensures effects == old(effects) + [Post(SecurityEvent(kind, reason, sessionId, latencyMs, severity))]
    {
      effects := effects + [Post(SecurityEvent(kind, reason, sessionId, latencyMs, severity))];
    }

    /** The pipeline every command datagram goes through. The clock is read twice. */
    method ProcessSecurePacket(raw: Bytes, groundAddr: Address, latencyClock: UInt64, freshClock: UInt64)
      returns (accepted: bool)
      requires replayGuard.Valid() && replayGuard.windowMs == WINDOW_MS
      modifies this`effects, replayGuard
      ensures replayGuard.Valid()
      ensures accepted <==> DecideCommand(cfg.suite, old(Abstract()), raw, freshClock).Accepted?
      ensures replayGuard.marked == old(replayGuard.marked) + (if accepted then {IdOf(Parse(raw).value)} else {})
      ensures effects == old(effects)
                         + CommandEffects(cfg.suite, old(Abstract()), raw, groundAddr, latencyClock, freshClock)
    {
      var ok, packet := DeserializePacket(raw, SecurePacket(0, 0, ZERO_NONCE, [], ZERO_TAG));
      if !ok {
        PostSecurityEvent("REJECTED", "BAD_FORMAT", 0, 0, "MEDIUM");
        return false;
      }
      var latencyMs := LatencyMs(latencyClock, packet.timestampMs);
      var isFresh := replayGuard.IsFresh(packet.timestampMs, freshClock);
      if !isFresh {
        PostSecurityEvent("REJECTED", "REPLAY_TS", packet.sessionId, latencyMs, "CRITICAL");
        return false;
      }
      var duplicate := replayGuard.IsDuplicate(packet.sessionId, packet.nonce);
      if duplicate {
        PostSecurityEvent("REJECTED", "DUP_NONCE", packet.sessionId, latencyMs, "CRITICAL");
        return false;
      }
      var aad := BuildAad(packet);
      var plaintext := Decrypt(cfg.suite, sessionKey, packet.nonce, packet.ciphertext, aad, packet.tag);
      if plaintext.None? {
        PostSecurityEvent("REJECTED", "TAG_FAIL", packet.sessionId, latencyMs, "CRITICAL");
        return false;
      }
      replayGuard.MarkSeen(packet.sessionId, packet.nonce);
      effects := effects + [Execute(plaintext.value)];
      PostSecurityEvent("ACCEPTED", "OK", packet.sessionId, latencyMs, "LOW");
      effects := effects + [SendAck(groundAddr)];
      accepted := true;
    }

    /** What one turn of the receive loop does with what it received. */
    method Dispatch(r: Reception)
      requires replayGuard.Valid() && replayGuard.windowMs == WINDOW_MS
      requires sessionKey == cfg.suite.derive(cfg.privateKey, groundPublic)
      modifies this`effects, this`groundPublic, this`sessionKey, this`replayGuard, replayGuard
      ensures if IsHandshake(r) then fresh(replayGuard) else replayGuard == old(replayGuard)
      ensures replayGuard.Valid() && replayGuard.windowMs == WINDOW_MS
      ensures sessionKey == cfg.suite.derive(cfg.privateKey, groundPublic)
      ensures groundPublic == if IsHandshake(r) then Received(r) else old(groundPublic)
      ensures Abstract() == Step(cfg, old(Abstract()), r)
      ensures effects == old(effects) + Effects(cfg, old(Abstract()), r)
    {
      var received := Received(r);
      if |received| <= 0 {
        return;
      }
      if |received| == PUBLIC_KEY_SIZE {
        effects := effects + [SendPublicKey(r.sender, cfg.publicKey)];
        groundPublic := received;
        sessionKey := cfg.suite.derive(cfg.privateKey, groundPublic);
        replayGuard := new AntiReplay(30000);
        return;
      }
      var accepted := ProcessSecurePacket(received, r.sender, r.latencyClock, r.freshClock);
    }

    /** One turn of the receive loop, and what it adds to the history. */
    method Receive(r: Reception)
      requires Valid()
      modifies this, replayGuard
      ensures Valid() && history == old(history) + [r]
      ensures replayGuard == old(replayGuard) || fresh(replayGuard)
      ensures SentNothing(r) ==> effects == old(effects)
      ensures SentFragment(r) ==> effects == old(effects) + [Post(MALFORMED)]
      ensures SentNothing(r) || SentFragment(r) ==>
                && groundPublic == old(groundPublic) && sessionKey == old(sessionKey)
                && replayGuard == old(replayGuard) && replayGuard.seenNonces == old(replayGuard.seenNonces)
      ensures SentKey(r) ==>
                && groundPublic == r.payload && sessionKey == cfg.suite.derive(cfg.privateKey, r.payload)
                && fresh(replayGuard) && replayGuard.seenNonces == {}
                && effects == old(effects) + [SendPublicKey(r.sender, cfg.publicKey)]
    {
      SentDecides(cfg, Abstract(), r);
      ReceivedIsSent(r);
      Extend(cfg, Start(), history, Snapshot(Abstract(), effects), r);
      LastHandshakeStep(boot, history, r);
      Dispatch(r);
      history := history + [r];
    }

    /** The receive loop, for as many receptions as the run lasts. */
    method Run(inputs: seq<Reception>)
      requires Valid()
      modifies this, replayGuard
      ensures Valid() && history == old(history) + inputs
      ensures replayGuard == old(replayGuard) || fresh(replayGuard)
    {
      hide Traced, LastHandshake, IsHandshake;
      for i := 0 to |inputs|
        invariant Valid() && history == old(history) + inputs[..i]
        invariant replayGuard == old(replayGuard) || fresh(replayGuard)
      {
        assert inputs[..i + 1] == inputs[..i] + [inputs[i]];
        Receive(inputs[i]);
      }
      assert inputs[..|inputs|] == inputs;
    }
  }
}
