/** One satellite link as a state machine over receptions, on values. The classes that follow the
    source are proved against it, and the claims about whole runs are proved of it. */
module LinkSpec {
  import opened Bitwise
  import opened Packet
  import opened Aead
  import opened ReplayGuard
  import opened GroundStation

  const WINDOW_MS := 30000
  const BUFFER_SIZE := 2048
  const PUBLIC_KEY_SIZE := 32

  datatype Address = Address(ip: UInt32, port: nat)

  /** What one receive call sees: nothing, or a datagram of any size and content, together with the
      two clock readings the satellite would take while handling it. */
  datatype Reception =
    | Failed
    | Datagram(sender: Address, payload: Bytes, latencyClock: UInt64, freshClock: UInt64)

  datatype SecurityEvent = SecurityEvent(
    kind: string, reason: string, sessionId: UInt32, latencyMs: int, severity: string)

  /** What the satellite does to the world, in order. */
  datatype Effect =
    | SendPublicKey(to: Address, key: Bytes)
    | Execute(command: Bytes)
    | Post(event: SecurityEvent)
    | SendAck(ackTo: Address)

  datatype Verdict = Ignored | Rekeyed | BadFormat | Expired | Duplicate | Unauthentic | Accepted(command: Bytes)

  /** What never changes on a satellite. */
  datatype Config = Config(suite: Suite, privateKey: Bytes, publicKey: Bytes)

  /** What does: the session key, and the messages accepted since it was agreed. */
  datatype Link = Link(key: Key, seen: set<MessageId>)

  /** The bytes left in the receive buffer; an unread or empty datagram leaves none. */
  function Received(r: Reception): (data: Bytes)
    ensures |data| <= BUFFER_SIZE
  {
    match r
    case Failed => []
    case Datagram(_, payload, _, _) => if |payload| <= BUFFER_SIZE then payload else payload[..BUFFER_SIZE]
  }

  predicate IsHandshake(r: Reception) {
    |Received(r)| == PUBLIC_KEY_SIZE
  }

  predicate IsCommand(r: Reception): (yes: bool)
    ensures yes ==> r.Datagram?
  {
    |Received(r)| > 0 && !IsHandshake(r)
  }

  function IdOf(p: SecurePacket): MessageId {
    MessageId(p.sessionId, p.nonce)
  }

  function DecideCommand(suite: Suite, s: Link, raw: Bytes, freshClock: UInt64): Verdict {
    match Parse(raw)
    case None => BadFormat
    case Some(p) =>
      if Distance(p.timestampMs, freshClock) > WINDOW_MS then Expired
      else if IdOf(p) in s.seen then Duplicate
      else match OpenPacket(suite, s.key, p)
        case None => Unauthentic
        case Some(command) => Accepted(command)
  }

  function Decide(cfg: Config, s: Link, r: Reception): Verdict {
    if |Received(r)| == 0 then Ignored
    else if IsHandshake(r) then Rekeyed
    else DecideCommand(cfg.suite, s, Received(r), r.freshClock)
  }

  function Step(cfg: Config, s: Link, r: Reception): Link {
    match Decide(cfg, s, r)
    case Rekeyed => Link(cfg.suite.derive(cfg.privateKey, Received(r)), {})
    case Accepted(_) => s.(seen := s.seen + {IdOf(Parse(Received(r)).value)})
    case _ => s
  }

  /** The identity of the packet a reception carries. */
  function IdAt(r: Reception): MessageId
    requires Parse(Received(r)).Some?
  {
    IdOf(Parse(Received(r)).value)
  }

  /** A command that verifies under `key` and is fresh at the moment it arrives. */
  predicate Deliverable(suite: Suite, key: Key, r: Reception) {
    && IsCommand(r) && Opens(suite, key, Received(r))
    && Distance(Parse(Received(r)).value.timestampMs, r.freshClock) <= WINDOW_MS
  }

  /** The identity a reception adds to the guard of a link with this key, if any. */
  function NewIds(suite: Suite, key: Key, r: Reception): set<MessageId> {
    if Deliverable(suite, key, r) then {IdAt(r)} else {}
  }

  /** What is accepted, and how a step changes the link: a handshake agrees a key and empties the guard;
      anything else at most adds one identity. */
  lemma StepCases(cfg: Config, s: Link, r: Reception)
    ensures Decide(cfg, s, r).Accepted? <==> Deliverable(cfg.suite, s.key, r) && IdAt(r) !in s.seen
    ensures IsHandshake(r) ==> Step(cfg, s, r) == Link(cfg.suite.derive(cfg.privateKey, Received(r)), {})
    ensures !IsHandshake(r) ==> Step(cfg, s, r) == Link(s.key, s.seen + NewIds(cfg.suite, s.key, r))
  {
    if Deliverable(cfg.suite, s.key, r) && IdAt(r) in s.seen {
      assert s.seen + {IdAt(r)} == s.seen;
    } else if !Deliverable(cfg.suite, s.key, r) {
      assert s.seen + {} == s.seen;
    }
  }

  // ---------- The machine on the bytes that were sent ----------

  /** What is handled is what was sent, up to the size of the buffer; nothing if nothing came. */
  lemma ReceivedIsSent(r: Reception)
    ensures r.Failed? ==> Received(r) == []
    ensures r.Datagram? ==>
              Received(r) <= r.payload && |Received(r)| == if |r.payload| < 2048 then |r.payload| else 2048
  {
  }

  /** A public key arrived: a payload of exactly 32 bytes. */
  predicate SentKey(r: Reception) {
    r.Datagram? && |r.payload| == 32
  }

  /** Something too short for a packet arrived that is no public key. */
  predicate SentFragment(r: Reception) {
    r.Datagram? && 1 <= |r.payload| < 40 && |r.payload| != 32
  }

  /** Nothing to look at arrived. */
  predicate SentNothing(r: Reception) {
    r.Failed? || r.payload == []
  }

  const MALFORMED := SecurityEvent("REJECTED", "BAD_FORMAT", 0, 0, "MEDIUM")

  /** What each length sent leads to: a fragment is reported as malformed and changes nothing, a public
      key agrees the next session key and empties the guard, and anything longer is read as a packet. */
  lemma SentDecides(cfg: Config, s: Link, r: Reception)
    ensures SentNothing(r) ==> Step(cfg, s, r) == s && Effects(cfg, s, r) == []
    ensures SentFragment(r) ==> Step(cfg, s, r) == s && Effects(cfg, s, r) == [Post(MALFORMED)]
    ensures SentKey(r) ==>
              && Step(cfg, s, r) == Link(cfg.suite.derive(cfg.privateKey, r.payload), {})
              && Effects(cfg, s, r) == [SendPublicKey(r.sender, cfg.publicKey)]
    ensures !SentNothing(r) && !SentFragment(r) && !SentKey(r) ==>
              IsCommand(r) && Parse(r.payload[..if |r.payload| < 2048 then |r.payload| else 2048]).Some?
    ensures IsHandshake(r) <==> SentKey(r)
  {
    if r.Datagram? && |r.payload| <= 2048 {
      assert r.payload[..|r.payload|] == r.payload;
    }
  }

  // ---------- The latency a decision is reported with ----------

  /** Reading a 64-bit unsigned word as signed. */
  function ToLong(u: UInt64): int {
    if u < 0x8000_0000_0000_0000 then u else u - 0x1_0000_0000_0000_0000
  }

  /** A signed 64-bit difference, wrapping around. */
  function LatencyMs(now: UInt64, timestampMs: UInt64): int {
    var d := ToLong(now) - ToLong(timestampMs);
    if d >= 0x8000_0000_0000_0000 then d - 0x1_0000_0000_0000_0000
    else if d < -0x8000_0000_0000_0000 then d + 0x1_0000_0000_0000_0000
    else d
  }

  function Rejection(reason: string, p: SecurePacket, latencyClock: UInt64): Effect {
    Post(SecurityEvent("REJECTED", reason, p.sessionId, LatencyMs(latencyClock, p.timestampMs), "CRITICAL"))
  }

  function CommandEffects(
    suite: Suite, s: Link, raw: Bytes, sender: Address, latencyClock: UInt64, freshClock: UInt64): seq<Effect>
  {
    match Parse(raw)
    case None => [Post(SecurityEvent("REJECTED", "BAD_FORMAT", 0, 0, "MEDIUM"))]
    case Some(p) =>
      match DecideCommand(suite, s, raw, freshClock)
      case Expired => [Rejection("REPLAY_TS", p, latencyClock)]
      case Duplicate => [Rejection("DUP_NONCE", p, latencyClock)]
      case Accepted(command) =>
        [Execute(command),
         Post(SecurityEvent("ACCEPTED", "OK", p.sessionId, LatencyMs(latencyClock, p.timestampMs), "LOW")),
         SendAck(sender)]
      case _ => [Rejection("TAG_FAIL", p, latencyClock)]
  }

  function Effects(cfg: Config, s: Link, r: Reception): seq<Effect> {
    if |Received(r)| == 0 then []
    else if IsHandshake(r) then [SendPublicKey(r.sender, cfg.publicKey)]
    else CommandEffects(cfg.suite, s, Received(r), r.sender, r.latencyClock, r.freshClock)
  }

  /** What the bytes of a packet lead to: the tests in their order, each with the report it is rejected
      with, and what passes them all is executed, reported and acknowledged. */
  lemma PacketDecides(cfg: Config, s: Link, r: Reception)
    requires IsCommand(r) && Parse(Received(r)).Some?
    ensures var p := Parse(Received(r)).value;
            var command := OpenPacket(cfg.suite, s.key, p);
            var latency := LatencyMs(r.latencyClock, p.timestampMs);
            if !(r.freshClock - 30000 <= p.timestampMs <= r.freshClock + 30000) then
              && Effects(cfg, s, r) == [Post(SecurityEvent("REJECTED", "REPLAY_TS", p.sessionId, latency, "CRITICAL"))]
              && Step(cfg, s, r) == s
            else if MessageId(p.sessionId, p.nonce) in s.seen then
              && Effects(cfg, s, r) == [Post(SecurityEvent("REJECTED", "DUP_NONCE", p.sessionId, latency, "CRITICAL"))]
              && Step(cfg, s, r) == s
            else if command.None? then
              && Effects(cfg, s, r) == [Post(SecurityEvent("REJECTED", "TAG_FAIL", p.sessionId, latency, "CRITICAL"))]
              && Step(cfg, s, r) == s
            else
              && Effects(cfg, s, r) == [Execute(command.value),
                                        Post(SecurityEvent("ACCEPTED", "OK", p.sessionId, latency, "LOW")),
                                        SendAck(r.sender)]
              && Step(cfg, s, r) == Link(s.key, s.seen + {MessageId(p.sessionId, p.nonce)})
  {
  }

  // ---------- Runs ----------

  function StateAt(cfg: Config, s0: Link, inputs: seq<Reception>, i: nat): Link
    requires i <= |inputs|
  {
    if i == 0 then s0 else Step(cfg, StateAt(cfg, s0, inputs, i - 1), inputs[i - 1])
  }

  function VerdictAt(cfg: Config, s0: Link, inputs: seq<Reception>, i: nat): Verdict
    requires i < |inputs|
  {
    Decide(cfg, StateAt(cfg, s0, inputs, i), inputs[i])
  }

  function EffectsAt(cfg: Config, s0: Link, inputs: seq<Reception>, i: nat): seq<Effect>
    requires i < |inputs|
  {
    Effects(cfg, StateAt(cfg, s0, inputs, i), inputs[i])
  }

  function EffectsUpTo(cfg: Config, s0: Link, inputs: seq<Reception>, i: nat): seq<Effect>
    requires i <= |inputs|
  {
    if i == 0 then [] else EffectsUpTo(cfg, s0, inputs, i - 1) + EffectsAt(cfg, s0, inputs, i - 1)
  }

  /** The link after a whole run. */
  function Final(cfg: Config, s0: Link, inputs: seq<Reception>): Link {
    StateAt(cfg, s0, inputs, |inputs|)
  }

  /** The verdicts of a whole run. */
  function Verdicts(cfg: Config, s0: Link, inputs: seq<Reception>): (vs: seq<Verdict>)
    ensures |vs| == |inputs|
  {
    seq<Verdict>(|inputs|, (i: nat) requires i < |inputs| => VerdictAt(cfg, s0, inputs, i))
  }

  /** What each reception of a run made the satellite do. */
  function EffectLists(cfg: Config, s0: Link, inputs: seq<Reception>): (fxs: seq<seq<Effect>>)
    ensures |fxs| == |inputs|
  {
    seq<seq<Effect>>(|inputs|, (i: nat) requires i < |inputs| => EffectsAt(cfg, s0, inputs, i))
  }

  /** Where the epoch that position i belongs to began: just after the last handshake before i. */
  function EpochStart(inputs: seq<Reception>, i: nat): (e: nat)
    requires i <= |inputs|
    ensures e <= i
    ensures e > 0 ==> IsHandshake(inputs[e - 1])
    ensures forall j :: e <= j < i ==> !IsHandshake(inputs[j])
  {
    if i == 0 then 0 else if IsHandshake(inputs[i - 1]) then i else EpochStart(inputs, i - 1)
  }

  /** What happens in a run's first i steps does not depend on what comes later. */
  lemma {:induction false} PrefixDecides(cfg: Config, s0: Link, inputs: seq<Reception>, later: seq<Reception>, i: nat)
    requires i <= |inputs|
    ensures StateAt(cfg, s0, inputs + later, i) == StateAt(cfg, s0, inputs, i)
    ensures EffectsUpTo(cfg, s0, inputs + later, i) == EffectsUpTo(cfg, s0, inputs, i)
  {
    hide Step, Effects;
    if i > 0 {
      PrefixDecides(cfg, s0, inputs, later, i - 1);
    }
  }

  /** A run split before its last reception. */
  lemma LastStep(cfg: Config, s0: Link, front: seq<Reception>, r: Reception)
    ensures var s := Final(cfg, s0, front);
            && Final(cfg, s0, front + [r]) == Step(cfg, s, r)
            && Verdicts(cfg, s0, front + [r]) == Verdicts(cfg, s0, front) + [Decide(cfg, s, r)]
            && EffectLists(cfg, s0, front + [r]) == EffectLists(cfg, s0, front) + [Effects(cfg, s, r)]
  {
    hide Step, Decide, Effects;
    var run := front + [r];
    PrefixDecides(cfg, s0, front, [r], |front|);
    forall i | 0 <= i < |front|
      ensures Verdicts(cfg, s0, run)[i] == Verdicts(cfg, s0, front)[i]
      ensures EffectLists(cfg, s0, run)[i] == EffectLists(cfg, s0, front)[i]
    {
      PrefixDecides(cfg, s0, front, [r], i);
    }
  }

  /** The guard holds an identity after a step iff that step was no handshake and it was there before
      or has just arrived in a deliverable packet. */
  lemma SeenAfterStep(cfg: Config, s0: Link, inputs: seq<Reception>, i: nat, id: MessageId)
    requires 0 < i <= |inputs|
    ensures id in StateAt(cfg, s0, inputs, i).seen
            <==> !IsHandshake(inputs[i - 1])
                 && (id in StateAt(cfg, s0, inputs, i - 1).seen
                     || id in NewIds(cfg.suite, StateAt(cfg, s0, inputs, i - 1).key, inputs[i - 1]))
  {
    hide Step, Decide, NewIds, IsHandshake;
    StepCases(cfg, StateAt(cfg, s0, inputs, i - 1), inputs[i - 1]);
  }

  /** Where a run stands: its link, and everything it has done. */
  datatype Snapshot = Snapshot(link: Link, effects: seq<Effect>)

  /** `now` is where the run that began at `start` stands after `inputs`. */
  ghost predicate Traced(cfg: Config, start: Snapshot, inputs: seq<Reception>, now: Snapshot) {
    match now
    case Snapshot(link, effects) =>
      && link == Final(cfg, start.link, inputs)
      && effects == start.effects + EffectsUpTo(cfg, start.link, inputs, |inputs|)
  }

  /** One more reception takes one more step from where the run stood. */
  lemma Extend(cfg: Config, start: Snapshot, inputs: seq<Reception>, now: Snapshot, r: Reception)
    requires Traced(cfg, start, inputs, now)
    ensures Traced(cfg, start, inputs + [r],
                   Snapshot(Step(cfg, now.link, r), now.effects + Effects(cfg, now.link, r)))
  {
    hide Step, Effects;
    PrefixDecides(cfg, start.link, inputs, [r], |inputs|);
    assert (inputs + [r])[|inputs|] == r;
    assert EffectsUpTo(cfg, start.link, inputs + [r], |inputs| + 1)
        == EffectsUpTo(cfg, start.link, inputs, |inputs|) + Effects(cfg, now.link, r);
  }

  /** The last handshake of a run that `boot` opened. */
  function LastHandshake(boot: Reception, inputs: seq<Reception>): Reception {
    var e := EpochStart(inputs, |inputs|);
    if e == 0 then boot else inputs[e - 1]
  }

  lemma LastHandshakeStep(boot: Reception, inputs: seq<Reception>, r: Reception)
    ensures LastHandshake(boot, inputs + [r]) == if IsHandshake(r) then r else LastHandshake(boot, inputs)
  {
    hide IsHandshake;
    EpochsAgree(inputs, [r], |inputs|);
    assert (inputs + [r])[|inputs|] == r;
  }

  lemma {:induction false} EpochsAgree(inputs: seq<Reception>, later: seq<Reception>, i: nat)
    requires i <= |inputs|
    ensures EpochStart(inputs + later, i) == EpochStart(inputs, i)
  {
    if i > 0 {
      EpochsAgree(inputs, later, i - 1);
    }
  }
}
