/** What holds of every run of one satellite, whatever the network delivers. */
module Runs {
  import opened Bitwise
  import opened Packet
  import opened Aead
  import opened ReplayGuard
  import opened GroundStation
  import opened LinkSpec
  import opened History

  // ---------- At most once ----------

  /** What the guard holds it keeps until the next handshake. */
  lemma {:induction false} SeenStays(
    cfg: Config, s0: Link, inputs: seq<Reception>, i: nat, j: nat, id: MessageId)
    requires i <= j <= |inputs| && EpochStart(inputs, j) <= i
    requires id in StateAt(cfg, s0, inputs, i).seen
    ensures id in StateAt(cfg, s0, inputs, j).seen
  {
    hide StateAt, NewIds;
    if i < j {
      SeenStays(cfg, s0, inputs, i, j - 1, id);
      SeenAfterStep(cfg, s0, inputs, j, id);
    }
  }

  /** After an acceptance nothing with its identity is accepted until the next handshake. */
  lemma AcceptedOnce(cfg: Config, s0: Link, inputs: seq<Reception>, i: nat, j: nat, id: MessageId)
    requires i < j < |inputs| && EpochStart(inputs, j) <= i
    requires AcceptedAt(cfg, s0, inputs, i, id)
    ensures !AcceptedAt(cfg, s0, inputs, j, id)
  {
    hide StateAt, NewIds, AcceptedAt, IsHandshake;
    AcceptedNow(cfg, s0, inputs, i, id);
    SeenAfterStep(cfg, s0, inputs, i + 1, id);
    assert !IsHandshake(inputs[i]);
    SeenStays(cfg, s0, inputs, i + 1, j, id);
    AcceptedNow(cfg, s0, inputs, j, id);
  }

  lemma AcceptedIsCommand(cfg: Config, s0: Link, inputs: seq<Reception>, i: nat)
    requires i < |inputs| && VerdictAt(cfg, s0, inputs, i).Accepted?
    ensures IsCommand(inputs[i]) && Parse(Received(inputs[i])).Some?
    ensures Deliverable(cfg.suite, StateAt(cfg, s0, inputs, i).key, inputs[i])
    ensures AcceptedAt(cfg, s0, inputs, i, IdAt(inputs[i]))
  {
    hide Decide, StateAt;
    StepCases(cfg, StateAt(cfg, s0, inputs, i), inputs[i]);
  }

  /** No two packets accepted in one epoch share session id and nonce. */
  lemma {:induction false} AtMostOncePerEpoch(cfg: Config, s0: Link, inputs: seq<Reception>, i: nat, j: nat)
    requires i < j < |inputs| && EpochStart(inputs, j) <= i
    requires VerdictAt(cfg, s0, inputs, i).Accepted? && VerdictAt(cfg, s0, inputs, j).Accepted?
    ensures IdAt(inputs[i]) != IdAt(inputs[j])
  {
    hide VerdictAt, StateAt, AcceptedAt, Deliverable;
    AcceptedIsCommand(cfg, s0, inputs, i);
    AcceptedIsCommand(cfg, s0, inputs, j);
    AcceptedOnce(cfg, s0, inputs, i, j, IdAt(inputs[i]));
  }

  /** Two acceptances of the same bytes are separated by a handshake and by at most two windows. */
  lemma {:induction false} RedeliveryBound(cfg: Config, s0: Link, inputs: seq<Reception>, i: nat, j: nat)
    requires i < j < |inputs| && Received(inputs[i]) == Received(inputs[j])
    requires VerdictAt(cfg, s0, inputs, i).Accepted? && VerdictAt(cfg, s0, inputs, j).Accepted?
    ensures exists h :: i < h < j && IsHandshake(inputs[h])
    ensures Distance(inputs[i].freshClock, inputs[j].freshClock) <= 60000
  {
    hide VerdictAt, StateAt, AcceptedAt, Opens;
    AcceptedIsCommand(cfg, s0, inputs, i);
    AcceptedIsCommand(cfg, s0, inputs, j);
    if EpochStart(inputs, j) <= i {
      AtMostOncePerEpoch(cfg, s0, inputs, i, j);
    } else {
      assert IsHandshake(inputs[EpochStart(inputs, j) - 1]);
    }
  }

  // ---------- Redelivery across a handshake ----------

  /** Of the keys used in the run, the datagram sealed by c opens at most under its own. */
  ghost predicate OpensOnlyUnderItsKey(cfg: Config, s0: Link, inputs: seq<Reception>, c: SealCall) {
    forall i | 0 <= i < |inputs| :: KeySeparates(cfg.suite, StateAt(cfg, s0, inputs, i).key, c)
  }

  ghost predicate KeySeparates(suite: Suite, key: Key, c: SealCall) {
    key == c.key || !Opens(suite, key, SealedBytes(suite, c))
  }

  lemma AcceptedUnderItsKey(cfg: Config, s0: Link, inputs: seq<Reception>, c: SealCall, i: nat)
    requires OpensOnlyUnderItsKey(cfg, s0, inputs, c)
    requires i < |inputs| && Received(inputs[i]) == SealedBytes(cfg.suite, c)
    requires VerdictAt(cfg, s0, inputs, i).Accepted?
    ensures StateAt(cfg, s0, inputs, i).key == c.key
  {
    hide VerdictAt, StateAt, Opens, AcceptedAt;
    AcceptedIsCommand(cfg, s0, inputs, i);
    assert KeySeparates(cfg.suite, StateAt(cfg, s0, inputs, i).key, c);
  }

  /** What it takes for a sealed datagram to be accepted at position j of a run. */
  lemma SealedAcceptedIff(cfg: Config, firstKey: Key, inputs: seq<Reception>, c: SealCall, j: nat)
    requires OpensOnlyUnderItsKey(cfg, Link(firstKey, {}), inputs, c)
    requires j < |inputs| && Received(inputs[j]) == SealedBytes(cfg.suite, c)
    ensures VerdictAt(cfg, Link(firstKey, {}), inputs, j).Accepted?
            <==> && HistoryKey(cfg, firstKey, inputs, j) == c.key
                 && Distance(c.timestampMs, inputs[j].freshClock) <= WINDOW_MS
                 && !DeliveredBefore(cfg, firstKey, inputs, j, MessageId(c.sessionId, c.nonce))
  {
    hide Decide, StateAt, HistoryKey, DeliveredBefore;
    var s := StateAt(cfg, Link(firstKey, {}), inputs, j);
    SealThenOpen(cfg.suite, c);
    KeyFollowsHistory(cfg, firstKey, inputs, j);
    SeenFollowsHistory(cfg, firstKey, inputs, j, MessageId(c.sessionId, c.nonce));
    StepCases(cfg, s, inputs[j]);
    assert KeySeparates(cfg.suite, s.key, c);
  }

  /** A datagram accepted at i is accepted again at a later j exactly when the session key of i has come
      back, the datagram is still fresh, and in the epoch of j no packet with its identity has arrived
      authentic and fresh. Only a handshake in between makes that possible. */
  lemma {:induction false} RedeliveryAcceptedIff(
    cfg: Config, firstKey: Key, inputs: seq<Reception>, c: SealCall, i: nat, j: nat)
    requires OpensOnlyUnderItsKey(cfg, Link(firstKey, {}), inputs, c)
    requires i < j < |inputs| && Received(inputs[i]) == Received(inputs[j]) == SealedBytes(cfg.suite, c)
    requires VerdictAt(cfg, Link(firstKey, {}), inputs, i).Accepted?
    ensures VerdictAt(cfg, Link(firstKey, {}), inputs, j).Accepted?
            <==> && HistoryKey(cfg, firstKey, inputs, j) == HistoryKey(cfg, firstKey, inputs, i)
                 && Distance(c.timestampMs, inputs[j].freshClock) <= WINDOW_MS
                 && !DeliveredBefore(cfg, firstKey, inputs, j, MessageId(c.sessionId, c.nonce))
    ensures VerdictAt(cfg, Link(firstKey, {}), inputs, j).Accepted? ==> i < EpochStart(inputs, j)
  {
    hide VerdictAt, StateAt, HistoryKey, DeliveredBefore, OpensOnlyUnderItsKey, Received;
    SealedAcceptedIff(cfg, firstKey, inputs, c, i);
    SealedAcceptedIff(cfg, firstKey, inputs, c, j);
    if VerdictAt(cfg, Link(firstKey, {}), inputs, j).Accepted? && EpochStart(inputs, j) <= i {
      AtMostOncePerEpoch(cfg, Link(firstKey, {}), inputs, i, j);
    }
  }

  /** One sealed datagram, delivered first and last, is accepted both times. */
  ghost predicate AcceptedTwice(
    cfg: Config, s: Link, middle: seq<Reception>, c: SealCall, first: Reception, last: Reception)
  {
    var run := [first] + middle + [last];
    && Received(first) == Received(last) == SealedBytes(cfg.suite, c)
    && VerdictAt(cfg, s, run, 0).Accepted? && VerdictAt(cfg, s, run, |run| - 1).Accepted?
  }

  /** A handshake forgets everything about the link before it. */
  lemma {:induction false} HandshakeForgets(cfg: Config, s: Link, s': Link, inputs: seq<Reception>, n: nat)
    requires n <= |inputs| && EpochStart(inputs, n) > 0
    ensures StateAt(cfg, s, inputs, n) == StateAt(cfg, s', inputs, n)
  {
    hide Step, Decide, NewIds;
    StepCases(cfg, StateAt(cfg, s, inputs, n - 1), inputs[n - 1]);
    StepCases(cfg, StateAt(cfg, s', inputs, n - 1), inputs[n - 1]);
    if !IsHandshake(inputs[n - 1]) {
      HandshakeForgets(cfg, s, s', inputs, n - 1);
    }
  }

  /** Where the last reception of such a run finds the link. */
  lemma AfterTheMiddle(cfg: Config, s: Link, middle: seq<Reception>, first: Reception, last: Reception)
    requires EpochStart(middle, |middle|) > 0
    ensures var run := [first] + middle + [last];
            StateAt(cfg, s, run, |run| - 1) == Final(cfg, s, middle)
  {
    hide Step;
    var run, n := [first] + middle + [last], |middle|;
    PrefixDecides(cfg, s, [first] + middle, [last], n + 1);
    MiddleStates(cfg, s, middle, first, n);
    HandshakeForgets(cfg, Step(cfg, s, first), s, middle, n);
  }

  lemma {:induction false} MiddleStates(cfg: Config, s: Link, middle: seq<Reception>, first: Reception, n: nat)
    requires n <= |middle|
    ensures StateAt(cfg, s, [first] + middle, n + 1) == StateAt(cfg, Step(cfg, s, first), middle, n)
  {
    hide Step;
    if n == 0 {
      assert StateAt(cfg, s, [first] + middle, 0) == s;
    } else {
      MiddleStates(cfg, s, middle, first, n - 1);
    }
  }

  /** Some sealed datagram with this identity is accepted at clock t1 before the middle and at clock t2
      after it. */
  ghost predicate Reopens(
    cfg: Config, s: Link, middle: seq<Reception>, id: MessageId, t1: UInt64, t2: UInt64)
  {
    exists c, first, last ::
      AcceptedTwice(cfg, s, middle, c, first, last) && HasIdAndClocks(c, first, last, id, t1, t2)
  }

  predicate HasIdAndClocks(
    c: SealCall, first: Reception, last: Reception, id: MessageId, t1: UInt64, t2: UInt64)
  {
    && MessageId(c.sessionId, c.nonce) == id
    && first.Datagram? && first.freshClock == t1 && last.Datagram? && last.freshClock == t2
  }

  /** Exactly how far apart: when the traffic in between holds a handshake, ends under the same key and
      leaves an identity unused, some sealed datagram with that identity is accepted on both sides of it
      iff the two clocks are at most two windows apart. */
  lemma RedeliveryWindowExact(
    cfg: Config, s: Link, middle: seq<Reception>, id: MessageId, t1: UInt64, t2: UInt64)
    requires EpochStart(middle, |middle|) > 0 && Final(cfg, s, middle).key == s.key
    requires id !in s.seen && id !in Final(cfg, s, middle).seen
    ensures Reopens(cfg, s, middle, id, t1, t2) <==> Distance(t1, t2) <= 60000
  {
    hide AcceptedTwice, Final;
    if Reopens(cfg, s, middle, id, t1, t2) {
      var c, first, last :|
        AcceptedTwice(cfg, s, middle, c, first, last) && HasIdAndClocks(c, first, last, id, t1, t2);
      TwiceWithinTwoWindows(cfg, s, middle, c, first, last);
    }
    if Distance(t1, t2) <= 60000 {
      var c, first, last := MidpointWorks(cfg, s, middle, id, t1, t2);
    }
  }

  lemma TwiceWithinTwoWindows(
    cfg: Config, s: Link, middle: seq<Reception>, c: SealCall, first: Reception, last: Reception)
    requires AcceptedTwice(cfg, s, middle, c, first, last) && first.Datagram? && last.Datagram?
    ensures Distance(first.freshClock, last.freshClock) <= 60000
  {
    hide VerdictAt;
    var run := [first] + middle + [last];
    assert run[0] == first && run[|run| - 1] == last;
    RedeliveryBound(cfg, s, run, 0, |run| - 1);
  }

  /** A timestamp halfway between the clocks is fresh at both. */
  function Midpoint(t1: UInt64, t2: UInt64): (m: UInt64)
    requires Distance(t1, t2) <= 60000
    ensures Distance(m, t1) <= 30000 && Distance(m, t2) <= 30000
  {
    if t1 <= t2 then t1 + (t2 - t1) / 2 else t2 + (t1 - t2) / 2
  }

  lemma MidpointWorks(cfg: Config, s: Link, middle: seq<Reception>, id: MessageId, t1: UInt64, t2: UInt64)
    returns (c: SealCall, first: Reception, last: Reception)
    requires EpochStart(middle, |middle|) > 0 && Final(cfg, s, middle).key == s.key
    requires id !in s.seen && id !in Final(cfg, s, middle).seen
    requires Distance(t1, t2) <= 60000
    ensures AcceptedTwice(cfg, s, middle, c, first, last) && HasIdAndClocks(c, first, last, id, t1, t2)
  {
    hide AcceptedTwice, Final, SealedBytes, Midpoint, Distance;
    c := SealCall(s.key, id.sessionId, Midpoint(t1, t2), id.nonce, []);
    first := Datagram(Address(0, 0), SealedBytes(cfg.suite, c), t1, t1);
    last := Datagram(Address(0, 0), SealedBytes(cfg.suite, c), t2, t2);
    FreshOnBothSides(cfg, s, middle, c, first, last);
  }

  lemma FreshOnBothSides(
    cfg: Config, s: Link, middle: seq<Reception>, c: SealCall, first: Reception, last: Reception)
    requires EpochStart(middle, |middle|) > 0 && Final(cfg, s, middle).key == s.key == c.key
    requires MessageId(c.sessionId, c.nonce) !in s.seen
    requires MessageId(c.sessionId, c.nonce) !in Final(cfg, s, middle).seen
    requires first.Datagram? && last.Datagram? && first.payload == last.payload == SealedBytes(cfg.suite, c)
    requires |c.command| <= 2008
    requires Distance(c.timestampMs, first.freshClock) <= WINDOW_MS
    requires Distance(c.timestampMs, last.freshClock) <= WINDOW_MS
    ensures AcceptedTwice(cfg, s, middle, c, first, last)
  {
    hide Decide, Final, SealedBytes, StateAt, Received;
    var run := [first] + middle + [last];
    assert run[0] == first && run[|run| - 1] == last;
    FirstState(cfg, s, run);
    AfterTheMiddle(cfg, s, middle, first, last);
    SealedIsAccepted(cfg, s, c, first);
    SealedIsAccepted(cfg, Final(cfg, s, middle), c, last);
  }

  lemma FirstState(cfg: Config, s: Link, inputs: seq<Reception>)
    ensures StateAt(cfg, s, inputs, 0) == s
  {
  }

  lemma SealedIsAccepted(cfg: Config, s: Link, c: SealCall, r: Reception)
    requires r.Datagram? && r.payload == SealedBytes(cfg.suite, c) && |c.command| <= 2008
    requires s.key == c.key && MessageId(c.sessionId, c.nonce) !in s.seen
    requires Distance(c.timestampMs, r.freshClock) <= WINDOW_MS
    ensures Received(r) == SealedBytes(cfg.suite, c) && Decide(cfg, s, r).Accepted?
  {
    SealThenOpen(cfg.suite, c);
  }

  /** Because the satellite keeps one key pair, a handshake that repeats the ground station's public
      key restores the session key and empties the guard: the same datagram, still fresh, is accepted
      a second time, for every sealed command that fits. */
  lemma RepeatedHandshakeReopens(
    cfg: Config, handshake: Reception, c: SealCall, first: Reception, second: Reception)
    requires IsHandshake(handshake) && c.key == cfg.suite.derive(cfg.privateKey, Received(handshake))
    requires Received(first) == Received(second) == SealedBytes(cfg.suite, c)
    requires Distance(c.timestampMs, first.freshClock) <= WINDOW_MS
    requires Distance(c.timestampMs, second.freshClock) <= WINDOW_MS
    ensures var run := [first, handshake, second];
            && VerdictAt(cfg, Link(c.key, {}), run, 0) == Accepted(c.command)
            && VerdictAt(cfg, Link(c.key, {}), run, 2) == Accepted(c.command)
  {
    SealThenOpen(cfg.suite, c);
    var run := [first, handshake, second];
    var s0 := Link(c.key, {});
    assert StateAt(cfg, s0, run, 1) == Step(cfg, s0, first);
    assert StateAt(cfg, s0, run, 2) == Step(cfg, StateAt(cfg, s0, run, 1), handshake) == s0;
  }

  /** The handshake is taken on trust: whoever sent the public key, and whatever went before, a fresh
      command sealed under the key it leads to is accepted next. */
  lemma AnyHandshakeIsTrusted(cfg: Config, s: Link, handshake: Reception, c: SealCall, r: Reception)
    requires IsHandshake(handshake) && c.key == cfg.suite.derive(cfg.privateKey, Received(handshake))
    requires r.Datagram? && r.payload == SealedBytes(cfg.suite, c) && |c.command| <= 2008
    requires Distance(c.timestampMs, r.freshClock) <= WINDOW_MS
    ensures Decide(cfg, Step(cfg, s, handshake), r) == Accepted(c.command)
  {
    SealThenOpen(cfg.suite, c);
    StepCases(cfg, s, handshake);
  }

  // ---------- How often ----------

  /** How often the bytes d were accepted among the first n receptions. */
  function AcceptancesOf(cfg: Config, s0: Link, inputs: seq<Reception>, d: Bytes, n: nat): nat
    requires n <= |inputs|
  {
    if n == 0 then 0
    else AcceptancesOf(cfg, s0, inputs, d, n - 1) + (if BytesAccepted(cfg, s0, inputs, d, n - 1) then 1 else 0)
  }

  predicate BytesAccepted(cfg: Config, s0: Link, inputs: seq<Reception>, d: Bytes, i: nat)
    requires i < |inputs|
  {
    Received(inputs[i]) == d && VerdictAt(cfg, s0, inputs, i).Accepted?
  }

  function Handshakes(inputs: seq<Reception>, n: nat): nat
    requires n <= |inputs|
  {
    if n == 0 then 0 else Handshakes(inputs, n - 1) + (if IsHandshake(inputs[n - 1]) then 1 else 0)
  }

  /** The bytes d were accepted since the last handshake. */
  ghost predicate AcceptedThisEpoch(cfg: Config, s0: Link, inputs: seq<Reception>, d: Bytes, n: nat)
    requires n <= |inputs|
  {
    exists i :: EpochStart(inputs, n) <= i < n && BytesAccepted(cfg, s0, inputs, d, i)
  }

  lemma BytesAcceptedOnce(cfg: Config, s0: Link, inputs: seq<Reception>, d: Bytes, i: nat, j: nat)
    requires i < j < |inputs| && EpochStart(inputs, j) <= i && BytesAccepted(cfg, s0, inputs, d, i)
    ensures !BytesAccepted(cfg, s0, inputs, d, j)
  {
    hide VerdictAt;
    if BytesAccepted(cfg, s0, inputs, d, j) {
      AtMostOncePerEpoch(cfg, s0, inputs, i, j);
    }
  }

  lemma BytesAcceptedIsNoHandshake(cfg: Config, s0: Link, inputs: seq<Reception>, d: Bytes, i: nat)
    requires i < |inputs| && BytesAccepted(cfg, s0, inputs, d, i)
    ensures !IsHandshake(inputs[i])
  {
    AcceptedIsCommand(cfg, s0, inputs, i);
  }

  /** Over a whole run one datagram is accepted at most once per epoch, so at most once more than
      there were handshakes. */
  lemma {:induction false} AcceptancesBound(cfg: Config, s0: Link, inputs: seq<Reception>, d: Bytes, n: nat)
    requires n <= |inputs|
    ensures AcceptancesOf(cfg, s0, inputs, d, n)
            <= Handshakes(inputs, n) + (if AcceptedThisEpoch(cfg, s0, inputs, d, n) then 1 else 0)
  {
    hide BytesAccepted, IsHandshake;
    if n > 0 {
      var last := n - 1;
      AcceptancesBound(cfg, s0, inputs, d, last);
      if BytesAccepted(cfg, s0, inputs, d, last) {
        BytesAcceptedIsNoHandshake(cfg, s0, inputs, d, last);
        if AcceptedThisEpoch(cfg, s0, inputs, d, last) {
          var i :| EpochStart(inputs, last) <= i < last && BytesAccepted(cfg, s0, inputs, d, i);
          BytesAcceptedOnce(cfg, s0, inputs, d, i, last);
        }
      }
      if !IsHandshake(inputs[last]) {
        assert EpochStart(inputs, n) == EpochStart(inputs, last);
        assert AcceptedThisEpoch(cfg, s0, inputs, d, last) ==> AcceptedThisEpoch(cfg, s0, inputs, d, n);
        assert BytesAccepted(cfg, s0, inputs, d, last) ==> AcceptedThisEpoch(cfg, s0, inputs, d, n);
      }
    }
  }

  // ---------- Once, when keys are not reused ----------

  /** No two epochs of the run agreed the same session key. */
  ghost predicate DistinctEpochKeys(cfg: Config, s0: Link, inputs: seq<Reception>) {
    forall i, j | 0 <= i < j < |inputs| && EpochStart(inputs, i) != EpochStart(inputs, j) ::
      StateAt(cfg, s0, inputs, i).key != StateAt(cfg, s0, inputs, j).key
  }

  /** Under distinct and separating keys a sealed datagram is accepted at most once in the whole run,
      although every handshake empties the guard. */
  lemma {:induction false} OncePerRun(
    cfg: Config, s0: Link, inputs: seq<Reception>, c: SealCall, i: nat, j: nat)
    requires DistinctEpochKeys(cfg, s0, inputs) && OpensOnlyUnderItsKey(cfg, s0, inputs, c)
    requires i < |inputs| && j < |inputs|
    requires Received(inputs[i]) == Received(inputs[j]) == SealedBytes(cfg.suite, c)
    requires VerdictAt(cfg, s0, inputs, i).Accepted? && VerdictAt(cfg, s0, inputs, j).Accepted?
    ensures i == j
  {
    hide VerdictAt, StateAt, OpensOnlyUnderItsKey;
    AcceptedUnderItsKey(cfg, s0, inputs, c, i);
    AcceptedUnderItsKey(cfg, s0, inputs, c, j);
    assert EpochStart(inputs, i) == EpochStart(inputs, j);
    if i < j {
      AtMostOncePerEpoch(cfg, s0, inputs, i, j);
    } else if j < i {
      AtMostOncePerEpoch(cfg, s0, inputs, j, i);
    }
  }

  // ---------- Delivery ----------

  /** A sealed command of at most 2008 bytes, delivered unmodified under its key, is accepted exactly
      when it is fresh and its identity unseen; then the command executes, its acceptance is reported
      and its sender is acknowledged, in that order. */
  lemma Delivery(cfg: Config, s: Link, c: SealCall, r: Reception)
    requires r.Datagram? && r.payload == SealedBytes(cfg.suite, c)
    requires |c.command| <= 2008 && s.key == c.key
    ensures Decide(cfg, s, r).Accepted?
            <==> Distance(c.timestampMs, r.freshClock) <= WINDOW_MS && MessageId(c.sessionId, c.nonce) !in s.seen
    ensures Decide(cfg, s, r).Accepted? ==>
              && Step(cfg, s, r) == Link(s.key, s.seen + {MessageId(c.sessionId, c.nonce)})
              && Effects(cfg, s, r) ==
                 [Execute(c.command),
                  Post(SecurityEvent("ACCEPTED", "OK", c.sessionId, LatencyMs(r.latencyClock, c.timestampMs), "LOW")),
                  SendAck(r.sender)]
  {
    SealThenOpen(cfg.suite, c);
  }

  /** A created datagram is never taken for a handshake, even after the receive buffer cut it short,
      and a 32-byte datagram never parses. */
  lemma FramingUnambiguous(cfg: Config, c: SealCall, r: Reception)
    ensures r.Datagram? && r.payload == SealedBytes(cfg.suite, c) ==> IsCommand(r)
    ensures IsHandshake(r) ==> Parse(Received(r)).None?
  {
    SealThenOpen(cfg.suite, c);
  }

  /** A sealed command too long for the receive buffer loses its tag: what arrives is accepted exactly
      when, besides being fresh and unseen, the first 2008 bytes of what was sealed happen to be
      authenticated by the 16 bytes that follow them. */
  lemma OversizedDelivery(cfg: Config, s: Link, c: SealCall, r: Reception)
    requires r.Datagram? && r.payload == SealedBytes(cfg.suite, c) && |c.command| > 2008
    requires s.key == c.key
    ensures var p := Sealed(cfg.suite, c);
            var body := p.ciphertext + p.tag;
            Decide(cfg, s, r).Accepted?
            <==> && Distance(c.timestampMs, r.freshClock) <= WINDOW_MS
                 && MessageId(c.sessionId, c.nonce) !in s.seen
                 && cfg.suite.mac(c.key, c.nonce, Header(p), body[..2008]) == body[2008..2024]
  {
    var p := Sealed(cfg.suite, c);
    var body := p.ciphertext + p.tag;
    var q := SecurePacket(p.sessionId, p.timestampMs, p.nonce, body[..2008], body[2008..2024]);
    assert Encode(p) == Header(p) + body;
    CutAfter(Header(p), body, 2008, 2024);
    assert Encode(q) == Header(q) + q.ciphertext + q.tag && Header(q) == Header(p);
    ParseAfterEncode(q);
  }

  lemma CutAfter(head: Bytes, body: Bytes, n: nat, m: nat)
    requires n <= m <= |body|
    ensures (head + body)[..|head| + m] == head + body[..n] + body[n..m]
  {
  }
}
