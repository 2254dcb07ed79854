/** Injective agreement: every execution on the satellite answers its own seal call on the ground. */
module Agreement {
  import opened Options
  import opened Packet
  import opened ReplayGuard
  import opened GroundStation
  import opened LinkSpec
  import opened Runs

  /** The hypothesis unforgeability stands for: what opens was sealed, by one of these calls, under
      the key it opens with. */
  ghost predicate OnlySealedOpens(cfg: Config, s0: Link, inputs: seq<Reception>, calls: seq<SealCall>) {
    forall i | 0 <= i < |inputs| && Opens(cfg.suite, StateAt(cfg, s0, inputs, i).key, Received(inputs[i])) ::
      exists k :: SealedBy(cfg, s0, inputs, calls, i, k)
  }

  ghost predicate SealedBy(cfg: Config, s0: Link, inputs: seq<Reception>, calls: seq<SealCall>, i: nat, k: int)
    requires i < |inputs|
  {
    && 0 <= k < |calls| && calls[k].key == StateAt(cfg, s0, inputs, i).key
    && Received(inputs[i]) == SealedBytes(cfg.suite, calls[k])
  }

  /** Execution i is what call c asked for, within the freshness window of its sealed timestamp. */
  ghost predicate Answers(cfg: Config, s0: Link, inputs: seq<Reception>, i: nat, c: SealCall)
    requires i < |inputs|
  {
    && c.key == StateAt(cfg, s0, inputs, i).key
    && VerdictAt(cfg, s0, inputs, i) == Accepted(c.command)
    && Received(inputs[i]) == SealedBytes(cfg.suite, c)
    && Parse(Received(inputs[i])) == Some(Sealed(cfg.suite, c))
    && Distance(c.timestampMs, inputs[i].freshClock) <= 30000
  }

  /** f sends each acceptance at positions lo to hi to the call it answers, no two to the same call. */
  ghost predicate InjectiveAnswers(
    cfg: Config, s0: Link, inputs: seq<Reception>, calls: seq<SealCall>, lo: nat, hi: nat, f: map<nat, nat>)
    requires hi <= |inputs|
  {
    && (forall i :: i in f <==> lo <= i < hi && VerdictAt(cfg, s0, inputs, i).Accepted?)
    && (forall i | i in f :: f[i] < |calls| && Answers(cfg, s0, inputs, i, calls[f[i]]))
    && (forall i, j | i in f && j in f && f[i] == f[j] :: i == j)
  }

  lemma AcceptedAnswers(
    cfg: Config, s0: Link, inputs: seq<Reception>, calls: seq<SealCall>, i: nat) returns (k: nat)
    requires OnlySealedOpens(cfg, s0, inputs, calls)
    requires i < |inputs| && VerdictAt(cfg, s0, inputs, i).Accepted?
    ensures k < |calls| && Answers(cfg, s0, inputs, i, calls[k])
  {
    AcceptedIsCommand(cfg, s0, inputs, i);
    var m :| SealedBy(cfg, s0, inputs, calls, i, m);
    SealThenOpen(cfg.suite, calls[m]);
    k := m;
  }

  /** Two acceptances that answer the same call are the same acceptance, if no handshake lies between
      them or no key is agreed twice. */
  lemma AnswersOnce(cfg: Config, s0: Link, inputs: seq<Reception>, c: SealCall, i: nat, j: nat)
    requires i <= j < |inputs|
    requires EpochStart(inputs, j) <= i || DistinctEpochKeys(cfg, s0, inputs)
    requires Answers(cfg, s0, inputs, i, c) && Answers(cfg, s0, inputs, j, c)
    ensures i == j
  {
    hide VerdictAt, StateAt, SealedBytes, Sealed;
    if i < j {
      if EpochStart(inputs, j) > i {
        assert EpochStart(inputs, i) != EpochStart(inputs, j);
      }
      AtMostOncePerEpoch(cfg, s0, inputs, i, j);
    }
  }

  /** One more position extends the map, if its answer is to no call already answered. */
  lemma OneMoreAnswer(
    cfg: Config, s0: Link, inputs: seq<Reception>, calls: seq<SealCall>, lo: nat, last: nat, f: map<nat, nat>, k: nat)
    requires lo <= last < |inputs| && InjectiveAnswers(cfg, s0, inputs, calls, lo, last, f)
    requires VerdictAt(cfg, s0, inputs, last).Accepted? ==>
               k < |calls| && Answers(cfg, s0, inputs, last, calls[k]) && forall i | i in f :: f[i] != k
    ensures InjectiveAnswers(cfg, s0, inputs, calls, lo, last + 1,
                             if VerdictAt(cfg, s0, inputs, last).Accepted? then f[last := k] else f)
  {
    hide VerdictAt, Answers;
  }

  lemma {:induction false} AgreementUpTo(
    cfg: Config, s0: Link, inputs: seq<Reception>, calls: seq<SealCall>, lo: nat, hi: nat) returns (f: map<nat, nat>)
    requires OnlySealedOpens(cfg, s0, inputs, calls) && lo <= hi <= |inputs|
    requires EpochStart(inputs, hi) <= lo || DistinctEpochKeys(cfg, s0, inputs)
    ensures InjectiveAnswers(cfg, s0, inputs, calls, lo, hi, f)
    decreases hi
  {
    hide VerdictAt, Answers, OnlySealedOpens, DistinctEpochKeys;
    if lo == hi {
      f := map[];
    } else {
      var last := hi - 1;
      EpochStartStays(inputs, lo, last);
      f := AgreementUpTo(cfg, s0, inputs, calls, lo, last);
      var k := 0;
      if VerdictAt(cfg, s0, inputs, last).Accepted? {
        k := AcceptedAnswers(cfg, s0, inputs, calls, last);
        forall i | i in f
          ensures f[i] != k
        {
          if f[i] == k {
            AnswersOnce(cfg, s0, inputs, calls[k], i, last);
          }
        }
      }
      OneMoreAnswer(cfg, s0, inputs, calls, lo, last, f, k);
      f := if VerdictAt(cfg, s0, inputs, last).Accepted? then f[last := k] else f;
    }
  }

  lemma EpochStartStays(inputs: seq<Reception>, lo: nat, last: nat)
    requires lo <= last < |inputs|
    ensures EpochStart(inputs, last + 1) <= lo ==> EpochStart(inputs, last) <= lo
  {
  }

  /** In every epoch the accepted commands map one-to-one into the seal calls made under that epoch's
      key, with equal command, session id, timestamp and nonce. */
  lemma EpochAgreement(cfg: Config, s0: Link, inputs: seq<Reception>, calls: seq<SealCall>, n: nat)
    requires OnlySealedOpens(cfg, s0, inputs, calls) && n <= |inputs|
    ensures exists f :: InjectiveAnswers(cfg, s0, inputs, calls, EpochStart(inputs, n), n, f)
  {
    var f := AgreementUpTo(cfg, s0, inputs, calls, EpochStart(inputs, n), n);
  }

  /** When every handshake agrees a new key the map is one-to-one over the whole run. */
  lemma RunAgreement(cfg: Config, s0: Link, inputs: seq<Reception>, calls: seq<SealCall>)
    requires OnlySealedOpens(cfg, s0, inputs, calls) && DistinctEpochKeys(cfg, s0, inputs)
    ensures exists f :: InjectiveAnswers(cfg, s0, inputs, calls, 0, |inputs|, f)
  {
    var f := AgreementUpTo(cfg, s0, inputs, calls, 0, |inputs|);
  }

  /** So the satellite never executes more commands than the ground station sealed. */
  lemma ExecutionsBoundedByCalls(cfg: Config, s0: Link, inputs: seq<Reception>, calls: seq<SealCall>)
    requires OnlySealedOpens(cfg, s0, inputs, calls) && DistinctEpochKeys(cfg, s0, inputs)
    ensures |set i | 0 <= i < |inputs| && VerdictAt(cfg, s0, inputs, i).Accepted?| <= |calls|
  {
    hide VerdictAt, Answers, OnlySealedOpens, DistinctEpochKeys, StateAt;
    var f := AgreementUpTo(cfg, s0, inputs, calls, 0, |inputs|);
    assert f.Keys == set i | 0 <= i < |inputs| && VerdictAt(cfg, s0, inputs, i).Accepted?;
    Pigeonhole(f, |calls|);
  }

  lemma {:induction false} Pigeonhole(f: map<nat, nat>, n: nat)
    requires forall i | i in f :: f[i] < n
    requires forall i, j | i in f && j in f && f[i] == f[j] :: i == j
    ensures |f.Keys| <= n
  {
    if n == 0 {
      assert f.Keys == {};
    } else {
      var g := map i | i in f && f[i] != n - 1 :: f[i];
      Pigeonhole(g, n - 1);
      if i :| i in f && f[i] == n - 1 {
        assert f.Keys == g.Keys + {i};
      } else {
        assert f.Keys == g.Keys;
      }
    }
  }
}
