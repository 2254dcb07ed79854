/** What a verdict makes the satellite do, and how what was done is counted. */
module Reports {
  import opened Bitwise
  import opened Packet
  import opened LinkSpec

  function KindOf(v: Verdict): string {
    if v.Accepted? then "ACCEPTED" else "REJECTED"
  }

  lemma KindTellsAcceptance(v: Verdict)
    ensures KindOf(v) == "ACCEPTED" <==> v.Accepted?
  {
    assert "ACCEPTED"[0] != "REJECTED"[0];
  }

  function ReasonOf(v: Verdict): string {
    match v
    case BadFormat => "BAD_FORMAT"
    case Expired => "REPLAY_TS"
    case Duplicate => "DUP_NONCE"
    case Unauthentic => "TAG_FAIL"
    case _ => "OK"
  }

  function SeverityOf(v: Verdict): string {
    match v
    case BadFormat => "MEDIUM"
    case Accepted(_) => "LOW"
    case _ => "CRITICAL"
  }

  /** The session a command belongs to, zero if it does not parse. */
  function SessionOf(r: Reception): UInt32 {
    match Parse(Received(r)) case None => 0 case Some(p) => p.sessionId
  }

  /** The latency a command is reported with, zero if it does not parse. */
  function LatencyOf(r: Reception): int
    requires r.Datagram?
  {
    match Parse(Received(r)) case None => 0 case Some(p) => LatencyMs(r.latencyClock, p.timestampMs)
  }

  /** The report of verdict v on command r. */
  function Report(v: Verdict, r: Reception): SecurityEvent
    requires r.Datagram?
  {
    SecurityEvent(KindOf(v), ReasonOf(v), SessionOf(r), LatencyOf(r), SeverityOf(v))
  }

  /** Everything verdict v on reception r makes the satellite do: a handshake is answered, a command is
      reported, and only an accepted command executes and is acknowledged. */
  function Outcome(cfg: Config, v: Verdict, r: Reception): seq<Effect> {
    match r
    case Failed => []
    case Datagram(sender, _, _, _) =>
      match v
      case Ignored => []
      case Rekeyed => [SendPublicKey(sender, cfg.publicKey)]
      case Accepted(command) => [Execute(command), Post(Report(v, r)), SendAck(sender)]
      case _ => [Post(Report(v, r))]
  }

  /** The machine does what its verdict calls for. */
  lemma EffectsFollowVerdict(cfg: Config, s: Link, r: Reception)
    ensures Effects(cfg, s, r) == Outcome(cfg, Decide(cfg, s, r), r)
  {
  }

  // ---------- Counting effects ----------

  /** The commands executed, in order. */
  function Executed(fx: seq<Effect>): seq<Bytes> {
    if fx == [] then []
    else Executed(fx[..|fx| - 1]) + (match fx[|fx| - 1] case Execute(command) => [command] case _ => [])
  }

  /** The reports posted, in order. */
  function Posts(fx: seq<Effect>): seq<SecurityEvent> {
    if fx == [] then []
    else Posts(fx[..|fx| - 1]) + (match fx[|fx| - 1] case Post(e) => [e] case _ => [])
  }

  function Acks(fx: seq<Effect>): nat {
    if fx == [] then 0 else Acks(fx[..|fx| - 1]) + (if fx[|fx| - 1].SendAck? then 1 else 0)
  }

  lemma OneMoreEffect(fx: seq<Effect>, x: Effect)
    ensures Executed(fx + [x]) == Executed(fx) + (match x case Execute(command) => [command] case _ => [])
    ensures Posts(fx + [x]) == Posts(fx) + (match x case Post(e) => [e] case _ => [])
    ensures Acks(fx + [x]) == Acks(fx) + (if x.SendAck? then 1 else 0)
  {
    assert (fx + [x])[..|fx|] == fx;
  }

  /** What an outcome adds to the effects before it. */
  lemma OutcomeCounts(cfg: Config, fx: seq<Effect>, v: Verdict, r: Reception)
    ensures var now := fx + Outcome(cfg, v, r);
            var reported := r.Datagram? && !v.Ignored? && !v.Rekeyed?;
            && Executed(now) == Executed(fx) + (if r.Datagram? && v.Accepted? then [v.command] else [])
            && Posts(now) == Posts(fx) + (if reported then [Report(v, r)] else [])
            && Acks(now) == Acks(fx) + (if r.Datagram? && v.Accepted? then 1 else 0)
  {
    hide Executed, Posts, Acks, Report;
    var out := Outcome(cfg, v, r);
    if |out| == 3 {
      assert fx + out == fx + [out[0]] + [out[1]] + [out[2]];
      OneMoreEffect(fx, out[0]);
      OneMoreEffect(fx + [out[0]], out[1]);
      OneMoreEffect(fx + [out[0]] + [out[1]], out[2]);
    } else if |out| == 1 {
      OneMoreEffect(fx, out[0]);
      assert out == [out[0]];
    } else {
      assert fx + out == fx;
    }
  }

  /** Which receptions the verdicts single out. */
  lemma VerdictKinds(cfg: Config, s: Link, r: Reception)
    ensures var v := Decide(cfg, s, r);
            && (v.Rekeyed? <==> IsHandshake(r))
            && (IsCommand(r) <==> r.Datagram? && !v.Ignored? && !v.Rekeyed?)
            && (v.Accepted? ==> IsCommand(r))
  {
  }

  /** One step of a run: its executions, reports and acknowledgements are those of its verdict. */
  lemma StepCounts(cfg: Config, s0: Link, inputs: seq<Reception>, n: nat)
    requires 0 < n <= |inputs|
    ensures var r, v := inputs[n - 1], VerdictAt(cfg, s0, inputs, n - 1);
            var before, now := EffectsUpTo(cfg, s0, inputs, n - 1), EffectsUpTo(cfg, s0, inputs, n);
            && Executed(now) == Executed(before) + (if v.Accepted? then [v.command] else [])
            && Posts(now) == Posts(before) + (if IsCommand(r) then [Report(v, r)] else [])
            && Acks(now) == Acks(before) + (if v.Accepted? then 1 else 0)
  {
    hide Decide, Effects, Outcome, IsCommand, IsHandshake, StateAt, Executed, Posts, Acks, Report;
    var s, r := StateAt(cfg, s0, inputs, n - 1), inputs[n - 1];
    EffectsFollowVerdict(cfg, s, r);
    VerdictKinds(cfg, s, r);
    OutcomeCounts(cfg, EffectsUpTo(cfg, s0, inputs, n - 1), Decide(cfg, s, r), r);
  }
}
