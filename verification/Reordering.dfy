/** What the network may do to a run without changing its outcome: inject traffic that is rejected,
    repeat datagrams and deliver them in any order. */
module Reordering {
  import opened Bitwise
  import opened Packet
  import opened Aead
  import opened ReplayGuard
  import opened GroundStation
  import opened LinkSpec
  import opened Reports
  import opened History
  import opened Runs

  // ---------- Verify before execute ----------

  /** The commands that were accepted, in order. */
  function AcceptedCommands(vs: seq<Verdict>): seq<Bytes> {
    if vs == [] then []
    else
      var v := vs[|vs| - 1];
      AcceptedCommands(vs[..|vs| - 1]) + (if v.Accepted? then [v.command] else [])
  }

  /** What a run executes is exactly what it accepted, command for command and in order. */
  lemma {:induction false} VerifyBeforeExecute(cfg: Config, s0: Link, inputs: seq<Reception>, n: nat)
    requires n <= |inputs|
    ensures Executed(EffectsUpTo(cfg, s0, inputs, n)) == AcceptedCommands(Verdicts(cfg, s0, inputs)[..n])
  {
    hide EffectsUpTo, VerdictAt;
    if n == 0 {
      assert EffectsUpTo(cfg, s0, inputs, 0) == [] by { NothingYet(cfg, s0, inputs); }
    } else {
      VerifyBeforeExecute(cfg, s0, inputs, n - 1);
      StepCounts(cfg, s0, inputs, n);
      assert Verdicts(cfg, s0, inputs)[..n][..n - 1] == Verdicts(cfg, s0, inputs)[..n - 1];
    }
  }

  lemma NothingYet(cfg: Config, s0: Link, inputs: seq<Reception>)
    ensures StateAt(cfg, s0, inputs, 0) == s0 && EffectsUpTo(cfg, s0, inputs, 0) == []
  {
  }

  // ---------- Erasing rejected traffic ----------

  predicate Rejects(v: Verdict) {
    !v.Accepted? && !v.Rekeyed?
  }

  function Kept<T>(xs: seq<T>, keep: seq<bool>): seq<T>
    requires |xs| == |keep|
  {
    if xs == [] then []
    else
      var n := |xs| - 1;
      Kept(xs[..n], keep[..n]) + (if keep[n] then [xs[n]] else [])
  }

  lemma RejectionChangesNothing(cfg: Config, s: Link, r: Reception)
    requires Rejects(Decide(cfg, s, r))
    ensures Step(cfg, s, r) == s
  {
  }

  lemma KeptMore<T>(xs: seq<T>, keep: seq<bool>, x: T, k: bool)
    requires |xs| == |keep|
    ensures Kept(xs + [x], keep + [k]) == if k then Kept(xs, keep) + [x] else Kept(xs, keep)
  {
    assert (xs + [x])[..|xs|] == xs && (keep + [k])[..|keep|] == keep;
  }

  /** Deleting any of the rejected receptions from a run leaves, for every reception that stays, its
      verdict and everything the satellite does on it, and at the end the key and the guard. */
  lemma {:induction false} Erasure(cfg: Config, s0: Link, inputs: seq<Reception>, keep: seq<bool>)
    requires |keep| == |inputs|
    requires forall i :: 0 <= i < |inputs| && !keep[i] ==> Rejects(Verdicts(cfg, s0, inputs)[i])
    ensures Verdicts(cfg, s0, Kept(inputs, keep)) == Kept(Verdicts(cfg, s0, inputs), keep)
    ensures EffectLists(cfg, s0, Kept(inputs, keep)) == Kept(EffectLists(cfg, s0, inputs), keep)
    ensures Final(cfg, s0, Kept(inputs, keep)) == Final(cfg, s0, inputs)
    decreases |inputs|
  {
    hide Step, Decide, Effects, Verdicts, EffectLists, Final, Rejects, Kept;
    if inputs == [] {
      NothingKept(cfg, s0, inputs, keep);
    } else {
      var n := |inputs| - 1;
      var front, r, frontKeep, k := inputs[..n], inputs[n], keep[..n], keep[n];
      assert inputs == front + [r] && keep == frontKeep + [k];
      var s := Final(cfg, s0, front);
      LastStep(cfg, s0, front, r);
      var vs := Verdicts(cfg, s0, front);
      forall i | 0 <= i < n && !frontKeep[i]
        ensures Rejects(vs[i])
      {
        assert !keep[i] && Verdicts(cfg, s0, inputs)[i] == vs[i];
      }
      Erasure(cfg, s0, front, frontKeep);
      KeptMore(front, frontKeep, r, k);
      KeptMore(vs, frontKeep, Decide(cfg, s, r), k);
      KeptMore(EffectLists(cfg, s0, front), frontKeep, Effects(cfg, s, r), k);
      if k {
        LastStep(cfg, s0, Kept(front, frontKeep), r);
      } else {
        assert Verdicts(cfg, s0, inputs)[n] == Decide(cfg, s, r);
        RejectionChangesNothing(cfg, s, r);
      }
    }
  }

  lemma NothingKept(cfg: Config, s0: Link, inputs: seq<Reception>, keep: seq<bool>)
    requires |keep| == |inputs| == 0
    ensures Verdicts(cfg, s0, Kept(inputs, keep)) == Kept(Verdicts(cfg, s0, inputs), keep)
    ensures EffectLists(cfg, s0, Kept(inputs, keep)) == Kept(EffectLists(cfg, s0, inputs), keep)
    ensures Final(cfg, s0, Kept(inputs, keep)) == Final(cfg, s0, inputs)
  {
    assert Kept(inputs, keep) == inputs;
  }

  // ---------- Order independence ----------

  /** The receptions of one epoch. */
  ghost predicate NoHandshake(inputs: seq<Reception>) {
    forall i | 0 <= i < |inputs| :: !IsHandshake(inputs[i])
  }

  /** The datagrams of a run that are authentic under the key and arrive fresh. */
  function Delivered(suite: Suite, key: Key, inputs: seq<Reception>): set<Bytes> {
    set i | 0 <= i < |inputs| && Deliverable(suite, key, inputs[i]) :: Received(inputs[i])
  }

  /** The identities of a set of datagrams. */
  function Ids(datagrams: set<Bytes>): set<MessageId> {
    set d | d in datagrams && Parse(d).Some? :: IdOf(Parse(d).value)
  }

  function Acceptances(vs: seq<Verdict>): nat {
    |AcceptedCommands(vs)|
  }

  lemma IdsOfLast(suite: Suite, key: Key, front: seq<Reception>, r: Reception)
    ensures Ids(Delivered(suite, key, front + [r])) == Ids(Delivered(suite, key, front)) + NewIds(suite, key, r)
  {
    var run := front + [r];
    forall i | 0 <= i < |front|
      ensures run[i] == front[i]
    {
    }
    hide Opens;
    if Deliverable(suite, key, r) {
      assert Delivered(suite, key, run) == Delivered(suite, key, front) + {Received(r)} by {
        assert run[|front|] == r;
      }
    } else {
      assert Delivered(suite, key, run) == Delivered(suite, key, front);
    }
  }

  /** However authentic and fresh datagrams arrive within an epoch, and whatever else arrives among them,
      the guard ends up holding their identities besides what it held, and as many commands are accepted
      as there were identities not seen before. */
  lemma {:induction false} DeliveryOutcome(cfg: Config, s: Link, inputs: seq<Reception>)
    requires NoHandshake(inputs)
    ensures Final(cfg, s, inputs) == Link(s.key, s.seen + Ids(Delivered(cfg.suite, s.key, inputs)))
    ensures Acceptances(Verdicts(cfg, s, inputs)) == |Ids(Delivered(cfg.suite, s.key, inputs)) - s.seen|
    decreases |inputs|
  {
    hide Step, Decide, Ids, Delivered, NewIds, Deliverable, Verdicts, Final, IsHandshake;
    if inputs == [] {
      NothingDelivered(cfg, s, inputs);
    } else {
      var n := |inputs| - 1;
      var front, r := inputs[..n], inputs[n];
      assert inputs == front + [r];
      assert !IsHandshake(r);
      DeliveryOutcome(cfg, s, front);
      LastStep(cfg, s, front, r);
      IdsOfLast(cfg.suite, s.key, front, r);
      StepCases(cfg, Final(cfg, s, front), r);
      var ids := Ids(Delivered(cfg.suite, s.key, front));
      OneMoreCommand(Verdicts(cfg, s, front), Decide(cfg, Final(cfg, s, front), r));
      NewIdsAreOne(cfg.suite, s.key, r);
      UnseenGrows(ids, s.seen, NewIds(cfg.suite, s.key, r));
      if Deliverable(cfg.suite, s.key, r) {
        UnseenOne(IdAt(r), s.seen + ids);
      }
      assert s.seen + (ids + NewIds(cfg.suite, s.key, r)) == (s.seen + ids) + NewIds(cfg.suite, s.key, r);
    }
  }

  lemma NothingDelivered(cfg: Config, s: Link, inputs: seq<Reception>)
    requires inputs == []
    ensures Final(cfg, s, inputs) == Link(s.key, s.seen + Ids(Delivered(cfg.suite, s.key, inputs)))
    ensures Acceptances(Verdicts(cfg, s, inputs)) == |Ids(Delivered(cfg.suite, s.key, inputs)) - s.seen|
  {
    assert Delivered(cfg.suite, s.key, inputs) == {} && Ids({}) == {};
    assert s.seen + {} == s.seen && {} - s.seen == {};
  }

  lemma NewIdsAreOne(suite: Suite, key: Key, r: Reception)
    ensures Deliverable(suite, key, r) ==> Parse(Received(r)).Some? && NewIds(suite, key, r) == {IdAt(r)}
    ensures !Deliverable(suite, key, r) ==> NewIds(suite, key, r) == {}
  {
  }

  lemma OneMoreCommand(vs: seq<Verdict>, v: Verdict)
    ensures Acceptances(vs + [v]) == Acceptances(vs) + (if v.Accepted? then 1 else 0)
  {
    assert (vs + [v])[..|vs|] == vs;
  }

  lemma UnseenGrows(ids: set<MessageId>, seen: set<MessageId>, more: set<MessageId>)
    ensures |(ids + more) - seen| == |ids - seen| + |more - (seen + ids)|
  {
    assert (ids + more) - seen == (ids - seen) + (more - (seen + ids));
  }

  lemma UnseenOne(id: MessageId, held: set<MessageId>)
    ensures |{id} - held| == if id in held then 0 else 1
  {
    assert {id} - held == if id in held then {} else {id};
  }

  /** Two runs of one epoch in which the same datagrams arrive authentic and fresh, in any orders, with
      any repetitions, at any clocks and with any other traffic among them, end in the same state with
      the same number of acceptances. */
  lemma OrderIndependence(cfg: Config, s: Link, a: seq<Reception>, b: seq<Reception>)
    requires NoHandshake(a) && NoHandshake(b)
    requires Delivered(cfg.suite, s.key, a) == Delivered(cfg.suite, s.key, b)
    ensures Final(cfg, s, a) == Final(cfg, s, b)
    ensures Acceptances(Verdicts(cfg, s, a)) == Acceptances(Verdicts(cfg, s, b))
  {
    hide Final, Verdicts, Delivered;
    DeliveryOutcome(cfg, s, a);
    DeliveryOutcome(cfg, s, b);
  }

  /** No two different datagrams of the run that arrive authentic and fresh share an identity. */
  ghost predicate Distinguishable(suite: Suite, key: Key, inputs: seq<Reception>) {
    forall i, j | 0 <= i < |inputs| && 0 <= j < |inputs| ::
      (Deliverable(suite, key, inputs[i]) && Deliverable(suite, key, inputs[j])
       && IdAt(inputs[i]) == IdAt(inputs[j]))
      ==> Received(inputs[i]) == Received(inputs[j])
  }

  /** An identity the guard holds was there at the start or has been accepted since. */
  lemma {:induction false} SeenWasAccepted(cfg: Config, s: Link, inputs: seq<Reception>, id: MessageId, n: nat)
    requires n <= |inputs| && id in StateAt(cfg, s, inputs, n).seen && id !in s.seen
    ensures exists i :: 0 <= i < n && AcceptedAt(cfg, s, inputs, i, id)
  {
    hide Step, AcceptedAt, NewIds;
    NothingYet(cfg, s, inputs);
    if n > 0 {
      SeenAfterStep(cfg, s, inputs, n, id);
      AcceptedNow(cfg, s, inputs, n - 1, id);
      if id in StateAt(cfg, s, inputs, n - 1).seen {
        SeenWasAccepted(cfg, s, inputs, id, n - 1);
      }
    }
  }

  lemma {:induction false} AcceptedCounts(cfg: Config, s: Link, inputs: seq<Reception>, d: Bytes, i: nat, n: nat)
    requires i < n <= |inputs| && BytesAccepted(cfg, s, inputs, d, i)
    ensures AcceptancesOf(cfg, s, inputs, d, n) >= 1
  {
    hide BytesAccepted;
    if i < n - 1 {
      AcceptedCounts(cfg, s, inputs, d, i, n - 1);
    }
  }

  lemma {:induction false} HandshakesNone(inputs: seq<Reception>, n: nat)
    requires n <= |inputs| && NoHandshake(inputs)
    ensures Handshakes(inputs, n) == 0
  {
    if n > 0 {
      HandshakesNone(inputs, n - 1);
    }
  }

  /** If identities tell datagrams apart, each one that arrives authentic, fresh and not seen before is
      accepted exactly once, whatever else arrives in the epoch. */
  lemma {:induction false} EachExactlyOnce(cfg: Config, s: Link, inputs: seq<Reception>, k: nat)
    requires NoHandshake(inputs) && Distinguishable(cfg.suite, s.key, inputs)
    requires k < |inputs| && Deliverable(cfg.suite, s.key, inputs[k]) && IdAt(inputs[k]) !in s.seen
    ensures AcceptancesOf(cfg, s, inputs, Received(inputs[k]), |inputs|) == 1
  {
    var n, d, id := |inputs|, Received(inputs[k]), IdAt(inputs[k]);
    hide Decide, StateAt, VerdictAt, AcceptedAt, IsHandshake, Opens;
    DeliveredIsSeen(cfg, s, inputs, k);
    SeenWasAccepted(cfg, s, inputs, id, n);
    var i :| 0 <= i < n && AcceptedAt(cfg, s, inputs, i, id);
    AcceptedIsDelivered(cfg, s, inputs, i, id);
    assert BytesAccepted(cfg, s, inputs, d, i);
    AcceptedCounts(cfg, s, inputs, d, i, n);
    HandshakesNone(inputs, n);
    AcceptancesBound(cfg, s, inputs, d, n);
  }

  lemma DeliveredIsSeen(cfg: Config, s: Link, inputs: seq<Reception>, k: nat)
    requires NoHandshake(inputs) && k < |inputs| && Deliverable(cfg.suite, s.key, inputs[k])
    ensures IdAt(inputs[k]) in StateAt(cfg, s, inputs, |inputs|).seen
  {
    hide StateAt, Ids, Delivered, Deliverable, NoHandshake;
    DeliveryOutcome(cfg, s, inputs);
    DeliveredHasId(cfg.suite, s.key, inputs, k);
  }

  lemma DeliveredHasId(suite: Suite, key: Key, inputs: seq<Reception>, k: nat)
    requires k < |inputs| && Deliverable(suite, key, inputs[k])
    ensures IdAt(inputs[k]) in Ids(Delivered(suite, key, inputs))
  {
    assert Received(inputs[k]) in Delivered(suite, key, inputs);
  }

  lemma {:induction false} KeyStays(cfg: Config, s: Link, inputs: seq<Reception>, n: nat)
    requires NoHandshake(inputs) && n <= |inputs|
    ensures StateAt(cfg, s, inputs, n).key == s.key
  {
    hide Step, Decide, NewIds, IsHandshake;
    if n > 0 {
      KeyStays(cfg, s, inputs, n - 1);
      StepCases(cfg, StateAt(cfg, s, inputs, n - 1), inputs[n - 1]);
    }
  }

  lemma AcceptedIsDelivered(cfg: Config, s: Link, inputs: seq<Reception>, i: nat, id: MessageId)
    requires NoHandshake(inputs) && i < |inputs| && AcceptedAt(cfg, s, inputs, i, id)
    ensures Deliverable(cfg.suite, s.key, inputs[i]) && IdAt(inputs[i]) == id
    ensures VerdictAt(cfg, s, inputs, i).Accepted?
  {
    hide StateAt, Decide;
    KeyStays(cfg, s, inputs, i);
    AcceptedIsCommand(cfg, s, inputs, i);
  }
}
