/** The earlier satellite (phase3_security_layer/secure_satellite_node.cpp): four receptions under one
    key, no handshake branch and no reports. */
module Phase3 {
  import opened Bitwise
  import opened Packet
  import opened Aead
  import opened ReplayGuard
  import opened GroundStation
  import opened LinkSpec

  const RECEPTIONS := 4

  function Decide3(suite: Suite, s: Link, r: Reception): Verdict {
    if |Received(r)| == 0 then Ignored else DecideCommand(suite, s, Received(r), r.freshClock)
  }

  function Step3(suite: Suite, s: Link, r: Reception): Link {
    if Decide3(suite, s, r).Accepted? then s.(seen := s.seen + {IdOf(Parse(Received(r)).value)}) else s
  }

  function Final3(suite: Suite, s: Link, inputs: seq<Reception>): Link {
    if inputs == [] then s
    else Step3(suite, Final3(suite, s, inputs[..|inputs| - 1]), inputs[|inputs| - 1])
  }

  function Verdicts3(suite: Suite, s: Link, inputs: seq<Reception>): (vs: seq<Verdict>)
    ensures |vs| == |inputs|
  {
    if inputs == [] then []
    else
      var front := inputs[..|inputs| - 1];
      Verdicts3(suite, s, front) + [Decide3(suite, Final3(suite, s, front), inputs[|inputs| - 1])]
  }

  /** `verdict` is what the console line and the boolean result say together. */
  method ProcessSecurePacket(suite: Suite, raw: Bytes, sessionKey: Key, replayGuard: AntiReplay, clock: UInt64)
    returns (accepted: bool, verdict: Verdict)
    requires replayGuard.Valid() && replayGuard.windowMs == WINDOW_MS
    modifies replayGuard
    ensures replayGuard.Valid()
    ensures verdict == DecideCommand(suite, Link(sessionKey, old(replayGuard.marked)), raw, clock)
    ensures accepted <==> verdict.Accepted?
    ensures replayGuard.marked == old(replayGuard.marked) + (if accepted then {IdOf(Parse(raw).value)} else {})
  {
    var ok, packet := DeserializePacket(raw, SecurePacket(0, 0, ZERO_NONCE, [], ZERO_TAG));
    if !ok {
      return false, BadFormat;
    }
    var isFresh := replayGuard.IsFresh(packet.timestampMs, clock);
    if !isFresh {
      return false, Expired;
    }
    var duplicate := replayGuard.IsDuplicate(packet.sessionId, packet.nonce);
    if duplicate {
      return false, Duplicate;
    }
    var aad := BuildAad(packet);
    var plaintext := Decrypt(suite, sessionKey, packet.nonce, packet.ciphertext, aad, packet.tag);
    if plaintext.None? {
      return false, Unauthentic;
    }
    replayGuard.MarkSeen(packet.sessionId, packet.nonce);
    return true, Accepted(plaintext.value);
  }

  /** The loop; `inputs` holds fewer than four receptions if the last receive never returns. */
  method Run(suite: Suite, sessionKey: Key, inputs: seq<Reception>) returns (log: seq<Verdict>, guard: AntiReplay)
    ensures fresh(guard) && guard.Valid()
    ensures |log| == if |inputs| < 4 then |inputs| else 4
    ensures var heard := inputs[..if |inputs| <= RECEPTIONS then |inputs| else RECEPTIONS];
            && log == Verdicts3(suite, Link(sessionKey, {}), heard)
            && Link(sessionKey, guard.marked) == Final3(suite, Link(sessionKey, {}), heard)
  {
    hide DecideCommand, Verdicts3, Final3, IdOf;
    guard := new AntiReplay(30000);
    log := [];
    NothingYet3(suite, sessionKey);
    ghost var s0 := Link(sessionKey, {});
    var i := 0;
    while i < RECEPTIONS && i < |inputs|
      invariant 0 <= i <= RECEPTIONS && i <= |inputs|
      invariant fresh(guard) && guard.Valid() && guard.windowMs == WINDOW_MS
      invariant log == Verdicts3(suite, s0, inputs[..i])
      invariant Link(sessionKey, guard.marked) == Final3(suite, s0, inputs[..i])
    {
      var r := inputs[i];
      Append3(suite, s0, inputs[..i], r);
      assert inputs[..i + 1] == inputs[..i] + [r];
      i := i + 1;
      if |Received(r)| == 0 {
        log := log + [Ignored];
        continue;
      }
      var accepted, verdict := ProcessSecurePacket(suite, Received(r), sessionKey, guard, r.freshClock);
      log := log + [verdict];
    }
  }

  /** Here too a fragment is malformed, and so is a public key: it starts no new session. */
  lemma ShortIsMalformed3(suite: Suite, s: Link, r: Reception)
    ensures SentNothing(r) ==> Decide3(suite, s, r) == Ignored
    ensures SentFragment(r) || SentKey(r) ==> Decide3(suite, s, r) == BadFormat
    ensures !Decide3(suite, s, r).Accepted? ==> Step3(suite, s, r) == s
  {
  }

  lemma NothingYet3(suite: Suite, key: Key)
    ensures Verdicts3(suite, Link(key, {}), []) == [] && Final3(suite, Link(key, {}), []) == Link(key, {})
  {
  }

  lemma Append3(suite: Suite, s: Link, front: seq<Reception>, r: Reception)
    ensures var last := Final3(suite, s, front);
            && Verdicts3(suite, s, front + [r]) == Verdicts3(suite, s, front) + [Decide3(suite, last, r)]
            && Final3(suite, s, front + [r]) == Step3(suite, last, r)
  {
    assert (front + [r])[..|front|] == front;
  }

  /** The later satellite gives the verdicts of the earlier one, on the same freshness clock, exactly on
      runs that hold no 32-byte datagram; then it also ends with the same key and guard. */
  lemma {:induction false} LaterExtendsEarlier(cfg: Config, s: Link, inputs: seq<Reception>)
    ensures Verdicts(cfg, s, inputs) == Verdicts3(cfg.suite, s, inputs)
            <==> forall i :: 0 <= i < |inputs| ==> !IsHandshake(inputs[i])
    ensures (forall i :: 0 <= i < |inputs| ==> !IsHandshake(inputs[i])) ==>
              Final(cfg, s, inputs) == Final3(cfg.suite, s, inputs)
    decreases |inputs|
  {
    hide Step, Decide, Step3, Decide3, Verdicts, Verdicts3, Final, Final3, IsHandshake;
    if inputs == [] {
      NothingHeard(cfg, s, inputs);
    } else {
      var n := |inputs| - 1;
      var front, r := inputs[..n], inputs[n];
      assert inputs == front + [r];
      LaterExtendsEarlier(cfg, s, front);
      LastStep(cfg, s, front, r);
      Append3(cfg.suite, s, front, r);
      SameStep(cfg, Final(cfg, s, front), r);
      var vs, vs3 := Verdicts(cfg, s, inputs), Verdicts3(cfg.suite, s, inputs);
      assert vs[..n] == Verdicts(cfg, s, front) && vs3[..n] == Verdicts3(cfg.suite, s, front);
      if vs == vs3 {
        assert vs[n] == vs3[n];
        DifferentKind(cfg, Final(cfg, s, front), Final3(cfg.suite, s, front), r);
      }
    }
  }

  lemma NothingHeard(cfg: Config, s: Link, inputs: seq<Reception>)
    requires inputs == []
    ensures Verdicts(cfg, s, inputs) == Verdicts3(cfg.suite, s, inputs)
    ensures Final(cfg, s, inputs) == Final3(cfg.suite, s, inputs)
  {
  }

  /** Only the later satellite ever answers a handshake. */
  lemma DifferentKind(cfg: Config, s: Link, s3: Link, r: Reception)
    ensures IsHandshake(r) ==> Decide(cfg, s, r) != Decide3(cfg.suite, s3, r)
  {
  }

  lemma SameStep(cfg: Config, s: Link, r: Reception)
    ensures !IsHandshake(r) ==>
              Decide(cfg, s, r) == Decide3(cfg.suite, s, r) && Step(cfg, s, r) == Step3(cfg.suite, s, r)
  {
  }
}
