/** Verdicts, effects and guard as functions of the whole history, with no state and no recursion
    through earlier verdicts: what the string-set machine refines. */
module History {
  import opened Packet
  import opened Aead
  import opened ReplayGuard
  import opened GroundStation
  import opened LinkSpec
  import opened Reports
  import opened Satellite

  /** The key agreed by the handshake that opened the epoch of position i. */
  function HistoryKey(cfg: Config, firstKey: Key, inputs: seq<Reception>, i: nat): Key
    requires i <= |inputs|
  {
    var e := EpochStart(inputs, i);
    if e == 0 then firstKey else cfg.suite.derive(cfg.privateKey, Received(inputs[e - 1]))
  }

  /** A packet with this identity arrived earlier in the epoch of position i, authentic under its key
      and fresh when it came. */
  ghost predicate DeliveredBefore(cfg: Config, firstKey: Key, inputs: seq<Reception>, i: nat, id: MessageId)
    requires i <= |inputs|
  {
    exists j :: EpochStart(inputs, i) <= j < i
                && id in NewIds(cfg.suite, HistoryKey(cfg, firstKey, inputs, i), inputs[j])
  }

  /** What should become of reception i. The tests are made in this order. */
  ghost function HistoryVerdict(cfg: Config, firstKey: Key, inputs: seq<Reception>, i: nat): Verdict
    requires i < |inputs|
  {
    var data := Received(inputs[i]);
    if data == [] then Ignored
    else if |data| == 32 then Rekeyed
    else if |data| < 40 then BadFormat
    else
      var p := Parse(data).value;
      if !(p.timestampMs - 30000 <= inputs[i].freshClock <= p.timestampMs + 30000) then Expired
      else if DeliveredBefore(cfg, firstKey, inputs, i, IdOf(p)) then Duplicate
      else
        var content := OpenPacket(cfg.suite, HistoryKey(cfg, firstKey, inputs, i), p);
        if content.None? then Unauthentic else Accepted(content.value)
  }

  /** Everything the receptions before position n should make the satellite do. */
  ghost function HistoryEffects(cfg: Config, firstKey: Key, inputs: seq<Reception>, n: nat): seq<LinkSpec.Effect>
    requires n <= |inputs|
  {
    if n == 0 then []
    else HistoryEffects(cfg, firstKey, inputs, n - 1)
         + Outcome(cfg, HistoryVerdict(cfg, firstKey, inputs, n - 1), inputs[n - 1])
  }

  lemma {:induction false} KeyFollowsHistory(cfg: Config, firstKey: Key, inputs: seq<Reception>, i: nat)
    requires i <= |inputs|
    ensures StateAt(cfg, Link(firstKey, {}), inputs, i).key == HistoryKey(cfg, firstKey, inputs, i)
  {
    hide Step, Decide, NewIds, IsHandshake, Received;
    if i > 0 {
      KeyFollowsHistory(cfg, firstKey, inputs, i - 1);
      StepCases(cfg, StateAt(cfg, Link(firstKey, {}), inputs, i - 1), inputs[i - 1]);
    }
  }

  /** The identities delivered in the epoch grow one reception at a time. */
  lemma DeliveredStep(cfg: Config, firstKey: Key, inputs: seq<Reception>, i: nat, id: MessageId)
    requires 0 < i <= |inputs|
    ensures DeliveredBefore(cfg, firstKey, inputs, i, id)
            <==> !IsHandshake(inputs[i - 1])
                 && (DeliveredBefore(cfg, firstKey, inputs, i - 1, id)
                     || id in NewIds(cfg.suite, HistoryKey(cfg, firstKey, inputs, i - 1), inputs[i - 1]))
  {
    hide NewIds, IsHandshake, Received;
  }

  /** The guard holds exactly the identities delivered earlier in the epoch. */
  lemma {:induction false} SeenFollowsHistory(
    cfg: Config, firstKey: Key, inputs: seq<Reception>, i: nat, id: MessageId)
    requires i <= |inputs|
    ensures id in StateAt(cfg, Link(firstKey, {}), inputs, i).seen <==> DeliveredBefore(cfg, firstKey, inputs, i, id)
  {
    hide Step, NewIds, IsHandshake, HistoryKey;
    if i > 0 {
      KeyFollowsHistory(cfg, firstKey, inputs, i - 1);
      SeenFollowsHistory(cfg, firstKey, inputs, i - 1, id);
      SeenAfterStep(cfg, Link(firstKey, {}), inputs, i, id);
      DeliveredStep(cfg, firstKey, inputs, i, id);
    } else {
      assert StateAt(cfg, Link(firstKey, {}), inputs, 0).seen == {};
    }
  }

  /** Refinement: the verdict of the state machine at every position of every run is the one the
      history determines. */
  lemma {:induction false} VerdictFollowsHistory(cfg: Config, firstKey: Key, inputs: seq<Reception>, i: nat)
    requires i < |inputs|
    ensures VerdictAt(cfg, Link(firstKey, {}), inputs, i) == HistoryVerdict(cfg, firstKey, inputs, i)
  {
    hide StateAt, HistoryKey, DeliveredBefore;
    KeyFollowsHistory(cfg, firstKey, inputs, i);
    if |Received(inputs[i])| >= 40 {
      SeenFollowsHistory(cfg, firstKey, inputs, i, IdAt(inputs[i]));
    }
  }

  lemma {:induction false} EffectsFollowHistory(cfg: Config, firstKey: Key, inputs: seq<Reception>, n: nat)
    requires n <= |inputs|
    ensures EffectsUpTo(cfg, Link(firstKey, {}), inputs, n) == HistoryEffects(cfg, firstKey, inputs, n)
  {
    hide Decide, Effects, Outcome, StateAt, HistoryVerdict;
    if n > 0 {
      EffectsFollowHistory(cfg, firstKey, inputs, n - 1);
      VerdictFollowsHistory(cfg, firstKey, inputs, n - 1);
      EffectsFollowVerdict(cfg, StateAt(cfg, Link(firstKey, {}), inputs, n - 1), inputs[n - 1]);
    }
  }

  /** The running node: its key, its guard's strings and everything it has done are those of the
      datagram that started it and the receptions since. */
  lemma NodeFollowsHistory(node: SatelliteNode, id: MessageId)
    requires node.Valid()
    ensures var firstKey := node.cfg.suite.derive(node.cfg.privateKey, Received(node.boot));
            && node.sessionKey == HistoryKey(node.cfg, firstKey, node.history, |node.history|)
            && (NonceKey(id) in node.replayGuard.seenNonces
                <==> DeliveredBefore(node.cfg, firstKey, node.history, |node.history|, id))
            && node.effects == [SendPublicKey(node.boot.sender, node.cfg.publicKey)]
                               + HistoryEffects(node.cfg, firstKey, node.history, |node.history|)
  {
    hide StateAt, EffectsUpTo, HistoryKey, HistoryEffects, DeliveredBefore, NonceKey;
    var cfg, inputs, n := node.cfg, node.history, |node.history|;
    var firstKey := cfg.suite.derive(cfg.privateKey, Received(node.boot));
    KeyFollowsHistory(cfg, firstKey, inputs, n);
    SeenFollowsHistory(cfg, firstKey, inputs, n, id);
    EffectsFollowHistory(cfg, firstKey, inputs, n);
    forall other | other in node.replayGuard.marked && NonceKey(other) == NonceKey(id)
      ensures other == id
    {
      NonceKeyInjective(other, id);
    }
  }

  /** So the next verdict of a running node is the one its whole history determines. */
  lemma NextVerdict(node: SatelliteNode, r: Reception)
    requires node.Valid()
    ensures Decide(node.cfg, node.Abstract(), r)
            == HistoryVerdict(node.cfg, node.cfg.suite.derive(node.cfg.privateKey, Received(node.boot)),
                              node.history + [r], |node.history|)
  {
    hide Decide, StateAt, HistoryVerdict, EffectsUpTo;
    var n := |node.history|;
    var firstKey := node.cfg.suite.derive(node.cfg.privateKey, Received(node.boot));
    PrefixDecides(node.cfg, Link(firstKey, {}), node.history, [r], n);
    VerdictFollowsHistory(node.cfg, firstKey, node.history + [r], n);
  }

  /** An identity was delivered earlier in the epoch iff a packet with it was accepted earlier in it. */
  lemma {:induction false} DeliveredIffAccepted(
    cfg: Config, firstKey: Key, inputs: seq<Reception>, i: nat, id: MessageId)
    requires i <= |inputs|
    ensures DeliveredBefore(cfg, firstKey, inputs, i, id)
            <==> exists j :: EpochStart(inputs, i) <= j < i && AcceptedAt(cfg, Link(firstKey, {}), inputs, j, id)
  {
    hide Step, Decide, StateAt, NewIds, HistoryKey, IsHandshake;
    if i > 0 {
      var s0, last := Link(firstKey, {}), i - 1;
      DeliveredIffAccepted(cfg, firstKey, inputs, last, id);
      DeliveredStep(cfg, firstKey, inputs, i, id);
      SeenFollowsHistory(cfg, firstKey, inputs, last, id);
      KeyFollowsHistory(cfg, firstKey, inputs, last);
      AcceptedNow(cfg, s0, inputs, last, id);
      if !IsHandshake(inputs[last]) {
        assert EpochStart(inputs, i) == EpochStart(inputs, last);
      }
    }
  }

  /** Reception j was accepted, with this identity. */
  ghost predicate AcceptedAt(cfg: Config, s0: Link, inputs: seq<Reception>, j: nat, id: MessageId)
    requires j < |inputs|
  {
    VerdictAt(cfg, s0, inputs, j).Accepted? && Parse(Received(inputs[j])).Some? && IdAt(inputs[j]) == id
  }

  lemma AcceptedNow(cfg: Config, s0: Link, inputs: seq<Reception>, j: nat, id: MessageId)
    requires j < |inputs|
    ensures AcceptedAt(cfg, s0, inputs, j, id)
            <==> id in NewIds(cfg.suite, StateAt(cfg, s0, inputs, j).key, inputs[j])
                 && id !in StateAt(cfg, s0, inputs, j).seen
  {
    hide StateAt, Decide;
    StepCases(cfg, StateAt(cfg, s0, inputs, j), inputs[j]);
  }
}
