/** The satellite and the dashboard together: what the display says about what was done. */
module Mission {
  import opened Bitwise
  import opened Options
  import opened Packet
  import opened Aead
  import opened ReplayGuard
  import opened Json
  import opened LinkSpec
  import opened Reports
  import opened History
  import opened Satellite
  import opened Reordering
  import opened Dashboard
  import opened DashboardRoutes
  import opened DashboardClient

  // ---------- From reports to the dashboard's log ----------

  /** Where reports are sent. */
  datatype Target = Target(host: string, port: int)

  /** No host that the program can connect to holds a line break. */
  predicate Reachable(to: Target) {
    '\r' !in to.host
  }

  /** The requests the dashboard serves when the texts of these reports arrive, the k-th at clocks[k]: what
      each does is read from the text. */
  function Requests(posts: seq<SecurityEvent>, to: Target, clocks: seq<int>): (requests: seq<Request>)
    requires |clocks| >= |posts|
  {
    if posts == [] then []
    else
      var n := |posts| - 1;
      Requests(posts[..n], to, clocks)
      + match Route(RequestText(posts[n], to.host, to.port), clocks[n])
        case None => []
        case Some(request) => [request]
  }

  /** What the dashboard then shows, if it has served nothing else since it was last cleared. */
  function FedView(posts: seq<SecurityEvent>, to: Target, clocks: seq<int>): View
    requires |clocks| >= |posts|
  {
    ViewOf(LogOf(Requests(posts, to, clocks)))
  }

  /** The log these reports should lead to. */
  function Logged(posts: seq<SecurityEvent>, clocks: seq<int>): (log: seq<Event>)
    requires |clocks| >= |posts|
    ensures |log| == |posts|
  {
    if posts == [] then []
    else
      var n := |posts| - 1;
      Logged(posts[..n], clocks) + [Completed(PostedOf(posts[n]), clocks[n])]
  }

  ghost predicate AllQuoteFree(posts: seq<SecurityEvent>) {
    forall e <- posts :: QuoteFree(e)
  }

  /** Nothing of a report is lost or changed on its way into the log. */
  lemma {:induction false} RequestsAreLogged(
    before: seq<Request>, posts: seq<SecurityEvent>, to: Target, clocks: seq<int>)
    requires |clocks| >= |posts| && Reachable(to) && AllQuoteFree(posts)
    ensures LogOf(before + Requests(posts, to, clocks)) == LogOf(before) + Logged(posts, clocks)
  {
    hide LogOf, QuoteFree, Route, RequestText, PostedOf, Completed;
    if posts == [] {
      assert before + [] == before;
    } else {
      var n := |posts| - 1;
      RequestsAreLogged(before, posts[..n], to, clocks);
      assert posts[n] in posts;
      RequestStoresReport(posts[n], to.host, to.port, clocks[n]);
      var served := before + Requests(posts[..n], to, clocks);
      assert before + Requests(posts, to, clocks) == served + [Request.Post(PostedOf(posts[n]), clocks[n])];
      LogGrows(served, PostedOf(posts[n]), clocks[n]);
    }
  }

  lemma FedLog(posts: seq<SecurityEvent>, to: Target, clocks: seq<int>)
    requires |clocks| >= |posts| && Reachable(to) && AllQuoteFree(posts)
    ensures FedView(posts, to, clocks) == ViewOf(Logged(posts, clocks))
  {
    hide ViewOf, Logged, AllQuoteFree;
    RequestsAreLogged([], posts, to, clocks);
    assert [] + Requests(posts, to, clocks) == Requests(posts, to, clocks);
    assert LogOf([]) + Logged(posts, clocks) == Logged(posts, clocks);
  }

  function Accepted(posts: seq<SecurityEvent>): (n: nat)
    ensures n <= |posts|
  {
    if posts == [] then 0
    else Accepted(posts[..|posts| - 1]) + (if posts[|posts| - 1].kind == "ACCEPTED" then 1 else 0)
  }

  lemma StoredAs(e: SecurityEvent, now: int)
    ensures var stored := Completed(PostedOf(e), now);
            stored.kind == e.kind && stored.latencyMs == Some(e.latencyMs)
  {
    hide ValidSeverity, ReasonSeverity, HexSession;
  }

  lemma {:induction false} LoggedCounts(posts: seq<SecurityEvent>, clocks: seq<int>)
    requires |clocks| >= |posts|
    ensures CountKind(Logged(posts, clocks), "ACCEPTED") == Accepted(posts)
  {
    hide Completed, PostedOf;
    if posts != [] {
      var n := |posts| - 1;
      LoggedCounts(posts[..n], clocks);
      StoredAs(posts[n], clocks[n]);
      assert Logged(posts, clocks)[..n] == Logged(posts[..n], clocks);
    }
  }

  lemma FedCounts(posts: seq<SecurityEvent>, to: Target, clocks: seq<int>)
    requires |clocks| >= |posts| && Reachable(to) && AllQuoteFree(posts)
    ensures FedView(posts, to, clocks).accepted == Accepted(posts)
    ensures FedView(posts, to, clocks).rejected == |posts| - Accepted(posts)
  {
    hide FedView, AllQuoteFree;
    FedLog(posts, to, clocks);
    LoggedCounts(posts, clocks);
  }

  // ---------- What the reports of a run say ----------

  /** The reports of a run, in order. */
  function ReportsOf(cfg: Config, s0: Link, inputs: seq<Reception>): seq<SecurityEvent> {
    Posts(EffectsUpTo(cfg, s0, inputs, |inputs|))
  }

  /** Every command leads to one report: the verdict the history determines, under the session id and
      with the latency of the packet if there was one. */
  lemma ReportTellsVerdict(cfg: Config, firstKey: Key, inputs: seq<Reception>, i: nat)
    requires i < |inputs| && IsCommand(inputs[i])
    ensures Posts(EffectsAt(cfg, Link(firstKey, {}), inputs, i))
            == [Report(HistoryVerdict(cfg, firstKey, inputs, i), inputs[i])]
  {
    hide StateAt, HistoryVerdict, Decide, Effects, Outcome, Posts, Executed, Acks, Report, IsCommand;
    var s, r := StateAt(cfg, Link(firstKey, {}), inputs, i), inputs[i];
    VerdictFollowsHistory(cfg, firstKey, inputs, i);
    EffectsFollowVerdict(cfg, s, r);
    VerdictKinds(cfg, s, r);
    OutcomeCounts(cfg, [], Decide(cfg, s, r), r);
    assert [] + Outcome(cfg, Decide(cfg, s, r), r) == Outcome(cfg, Decide(cfg, s, r), r);
    assert Posts([]) == [] by { NothingDone(); }
  }

  lemma NothingDone()
    ensures Posts([]) == [] && Executed([]) == [] && Acks([]) == 0 && Accepted([]) == 0
  {
  }

  /** The satellite's severities are the ones the dashboard would fill in for its reasons, so a report
      is stored the same with or without one; and its strings need no escaping. */
  lemma SeveritiesAgree(v: Verdict, r: Reception, now: int)
    requires IsCommand(r) && !v.Ignored? && !v.Rekeyed?
    ensures var e := Report(v, r);
            QuoteFree(e) && Completed(PostedOf(e), now) == Completed(PostedOf(e).(severity := None), now)
  {
    hide KindOf, ReasonOf, SeverityOf, ReasonSeverity, ValidSeverity, Quotable, SessionOf, LatencyOf, HexSession;
    NoQuotes(v);
    ReasonDecidesSeverity(v);
  }

  lemma NoQuotes(v: Verdict)
    ensures Quotable(KindOf(v)) && Quotable(ReasonOf(v)) && Quotable(SeverityOf(v))
  {
  }

  lemma ReasonDecidesSeverity(v: Verdict)
    requires !v.Ignored? && !v.Rekeyed?
    ensures ReasonSeverity(ReasonOf(v)) == SeverityOf(v) && ValidSeverity(SeverityOf(v))
  {
    assert ReasonOf(v) == "BAD_FORMAT" ==> ReasonOf(v)[0] == 'B';
    assert ReasonOf(v) == "OK" ==> ReasonOf(v)[0] == 'O';
  }

  lemma {:induction false} ReportsNeedNoEscape(cfg: Config, s0: Link, inputs: seq<Reception>, n: nat)
    requires n <= |inputs|
    ensures AllQuoteFree(Posts(EffectsUpTo(cfg, s0, inputs, n)))
  {
    hide Posts, Executed, Acks, IsCommand, VerdictAt, EffectsUpTo, Quotable, KindOf, ReasonOf, SeverityOf;
    if n == 0 {
      NothingYet(cfg, s0, inputs);
      NothingDone();
    } else {
      ReportsNeedNoEscape(cfg, s0, inputs, n - 1);
      StepCounts(cfg, s0, inputs, n);
      NoQuotes(VerdictAt(cfg, s0, inputs, n - 1));
    }
  }

  // ---------- Conservation ----------

  /** Datagrams that are neither empty nor a handshake. */
  function Commands(inputs: seq<Reception>, n: nat): nat
    requires n <= |inputs|
  {
    if n == 0 then 0 else Commands(inputs, n - 1) + (if IsCommand(inputs[n - 1]) then 1 else 0)
  }

  /** The sizes the guard had reached when each closed epoch ended. */
  function ClosedEpochs(cfg: Config, s0: Link, inputs: seq<Reception>, n: nat): nat
    requires n <= |inputs|
  {
    if n == 0 then 0
    else ClosedEpochs(cfg, s0, inputs, n - 1)
         + (if IsHandshake(inputs[n - 1]) then |StateAt(cfg, s0, inputs, n - 1).seen| else 0)
  }

  lemma AcceptedGrows(posts: seq<SecurityEvent>, e: SecurityEvent)
    ensures Accepted(posts + [e]) == Accepted(posts) + (if e.kind == "ACCEPTED" then 1 else 0)
  {
    assert (posts + [e])[..|posts|] == posts;
  }

  /** The guard of an epoch grows by one with each acceptance. */
  lemma GuardGrowth(cfg: Config, s0: Link, inputs: seq<Reception>, n: nat)
    requires 0 < n <= |inputs|
    ensures var accepted := VerdictAt(cfg, s0, inputs, n - 1).Accepted?;
            var before, now := StateAt(cfg, s0, inputs, n - 1).seen, StateAt(cfg, s0, inputs, n).seen;
            && (accepted ==> IsCommand(inputs[n - 1]))
            && (IsHandshake(inputs[n - 1]) ==> now == {} && !accepted)
            && (!IsHandshake(inputs[n - 1]) ==> |now| == |before| + (if accepted then 1 else 0))
  {
    hide Step, Decide, Deliverable, IsHandshake, IsCommand;
    var s, r := StateAt(cfg, s0, inputs, n - 1), inputs[n - 1];
    StepCases(cfg, s, r);
    VerdictKinds(cfg, s, r);
    NewIdsAreOne(cfg.suite, s.key, r);
    if Deliverable(cfg.suite, s.key, r) {
      UnseenOne(IdAt(r), s.seen);
      assert |s.seen + {IdAt(r)}| == |s.seen| + |{IdAt(r)} - s.seen| by {
        assert s.seen + {IdAt(r)} == s.seen + ({IdAt(r)} - s.seen);
      }
    }
  }

  lemma {:induction false} DecisionsConserved(cfg: Config, firstKey: Key, inputs: seq<Reception>, n: nat)
    requires n <= |inputs|
    ensures var s0 := Link(firstKey, {});
            var fx := EffectsUpTo(cfg, s0, inputs, n);
            && |Executed(fx)| == Acks(fx) == Accepted(Posts(fx))
            && |Executed(fx)| == ClosedEpochs(cfg, s0, inputs, n) + |StateAt(cfg, s0, inputs, n).seen|
            && |Posts(fx)| == Commands(inputs, n)
  {
    hide Posts, Executed, Acks, Accepted, EffectsUpTo, StateAt, VerdictAt, IsCommand, IsHandshake;
    hide KindOf, ReasonOf, SeverityOf, SessionOf, LatencyOf;
    var s0 := Link(firstKey, {});
    if n == 0 {
      NothingYet(cfg, s0, inputs);
      NothingDone();
    } else {
      DecisionsConserved(cfg, firstKey, inputs, n - 1);
      GuardGrowth(cfg, s0, inputs, n);
      StepCounts(cfg, s0, inputs, n);
      var v, before := VerdictAt(cfg, s0, inputs, n - 1), Posts(EffectsUpTo(cfg, s0, inputs, n - 1));
      KindTellsAcceptance(v);
      if IsCommand(inputs[n - 1]) {
        AcceptedGrows(before, Report(v, inputs[n - 1]));
      } else {
        assert before + [] == before;
      }
    }
  }

  /** With every report delivered and no reset, the dashboard's accepted count is the number of
      executions, of acknowledgements, and of messages the guards of all epochs hold; its rejected
      count is the number of the other command datagrams. */
  lemma Conservation(cfg: Config, firstKey: Key, inputs: seq<Reception>, to: Target, clocks: seq<int>)
    requires |clocks| >= |ReportsOf(cfg, Link(firstKey, {}), inputs)| && Reachable(to)
    ensures var s0, n := Link(firstKey, {}), |inputs|;
            var fx := EffectsUpTo(cfg, s0, inputs, n);
            var view := FedView(ReportsOf(cfg, s0, inputs), to, clocks);
            && view.accepted == |Executed(fx)| == Acks(fx)
            && view.accepted == ClosedEpochs(cfg, s0, inputs, n) + |StateAt(cfg, s0, inputs, n).seen|
            && view.rejected == Commands(inputs, n) - view.accepted
  {
    hide FedView, AllQuoteFree, Posts, Executed, Acks, EffectsUpTo, StateAt, Commands, ClosedEpochs;
    DecisionsConserved(cfg, firstKey, inputs, |inputs|);
    ReportsNeedNoEscape(cfg, Link(firstKey, {}), inputs, |inputs|);
    FedCounts(ReportsOf(cfg, Link(firstKey, {}), inputs), to, clocks);
  }

  /** Effects that begin with a public key count like the ones after it. */
  lemma {:induction false} KeyFirst(to: Address, key: Bytes, fx: seq<LinkSpec.Effect>)
    ensures var all := [SendPublicKey(to, key)] + fx;
            Posts(all) == Posts(fx) && Executed(all) == Executed(fx) && Acks(all) == Acks(fx)
  {
    var first := SendPublicKey(to, key);
    hide Posts, Executed, Acks;
    NothingDone();
    if fx == [] {
      OneMoreEffect([], first);
      assert [first] + fx == [] + [first];
    } else {
      var front, x := fx[..|fx| - 1], fx[|fx| - 1];
      KeyFirst(to, key, front);
      OneMoreEffect(front, x);
      OneMoreEffect([first] + front, x);
      assert fx == front + [x] && [first] + fx == [first] + front + [x];
    }
  }

  /** The running satellite and the running dashboard: if all the dashboard has served since it was last
      cleared are the reports of the satellite's run, its counters are what the satellite did, and what
      was accepted since the last handshake is as many as the strings the satellite's guard holds. */
  lemma ObjectsConserve(
    node: SatelliteNode, server: Server, before: seq<Request>, to: Target, clocks: seq<int>)
    requires node.Valid() && server.Valid() && Reachable(to)
    requires |clocks| >= |Posts(node.effects)| && LogOf(before) == []
    requires server.requests == before + Requests(Posts(node.effects), to, clocks)
    ensures var s0, n := node.Start().link, |node.history|;
            && server.accepted == |Executed(node.effects)| == Acks(node.effects)
            && server.accepted
               == ClosedEpochs(node.cfg, s0, node.history, n) + |node.replayGuard.seenNonces|
            && server.rejected == Commands(node.history, n) - server.accepted
  {
    hide AllQuoteFree, Posts, Executed, Acks, EffectsUpTo, StateAt, Commands, ClosedEpochs, LogOf, Requests;
    var s0, n := node.Start().link, |node.history|;
    WhatNodeDid(node);
    DecisionsConserved(node.cfg, s0.key, node.history, n);
    ReportsNeedNoEscape(node.cfg, s0, node.history, n);
    ServerCounts(server, before, Posts(node.effects), to, clocks);
    AsManyKeysAsIds(node.replayGuard.marked);
  }

  lemma WhatNodeDid(node: SatelliteNode)
    requires node.Valid()
    ensures var fx := EffectsUpTo(node.cfg, node.Start().link, node.history, |node.history|);
            && Posts(node.effects) == Posts(fx) && Executed(node.effects) == Executed(fx)
            && Acks(node.effects) == Acks(fx)
    ensures node.replayGuard.marked == StateAt(node.cfg, node.Start().link, node.history, |node.history|).seen
  {
    hide Posts, Executed, Acks, EffectsUpTo, StateAt, LastHandshake;
    KeyFirst(node.boot.sender, node.cfg.publicKey,
             EffectsUpTo(node.cfg, node.Start().link, node.history, |node.history|));
  }

  lemma ServerCounts(server: Server, before: seq<Request>, posts: seq<SecurityEvent>, to: Target, clocks: seq<int>)
    requires server.Valid() && Reachable(to) && AllQuoteFree(posts)
    requires |clocks| >= |posts| && LogOf(before) == []
    requires server.requests == before + Requests(posts, to, clocks)
    ensures server.accepted == Accepted(posts) && server.rejected == |posts| - Accepted(posts)
  {
    hide AllQuoteFree, LogOf, Requests, Logged, LatencyTotal, LatencyCount;
    RequestsAreLogged(before, posts, to, clocks);
    LoggedCounts(posts, clocks);
    assert [] + Logged(posts, clocks) == Logged(posts, clocks);
  }

  lemma {:induction false} KeptCounts(posts: seq<SecurityEvent>, keep: seq<bool>)
    requires |posts| == |keep|
    ensures var kept := Kept(posts, keep);
            && Accepted(kept) <= Accepted(posts) && |kept| - Accepted(kept) <= |posts| - Accepted(posts)
            && (AllQuoteFree(posts) ==> AllQuoteFree(kept))
  {
    hide QuoteFree, Accepted, Kept, AllQuoteFree;
    if posts == [] {
      NoneKept(posts, keep);
    } else {
      var n := |posts| - 1;
      var kept := Kept(posts[..n], keep[..n]);
      KeptCounts(posts[..n], keep[..n]);
      KeptMore(posts[..n], keep[..n], posts[n], keep[n]);
      assert posts == posts[..n] + [posts[n]] && keep == keep[..n] + [keep[n]];
      AcceptedGrows(posts[..n], posts[n]);
      AcceptedGrows(kept, posts[n]);
      QuoteFreeGrows(posts[..n], posts[n]);
      QuoteFreeGrows(kept, posts[n]);
    }
  }

  lemma NoneKept(posts: seq<SecurityEvent>, keep: seq<bool>)
    requires |posts| == |keep| == 0
    ensures Kept(posts, keep) == posts
  {
  }

  lemma QuoteFreeGrows(posts: seq<SecurityEvent>, e: SecurityEvent)
    ensures AllQuoteFree(posts + [e]) <==> AllQuoteFree(posts) && QuoteFree(e)
  {
    hide QuoteFree;
    assert e in posts + [e];
    assert forall other <- posts :: other in posts + [e];
  }

  /** If reports may be lost, neither count exceeds what happened, and together they are the reports
      that arrived. */
  lemma LossyConservation(
    cfg: Config, firstKey: Key, inputs: seq<Reception>, keep: seq<bool>, to: Target, clocks: seq<int>)
    requires |keep| == |ReportsOf(cfg, Link(firstKey, {}), inputs)| && Reachable(to)
    requires |clocks| >= |Kept(ReportsOf(cfg, Link(firstKey, {}), inputs), keep)|
    ensures var fx := EffectsUpTo(cfg, Link(firstKey, {}), inputs, |inputs|);
            var arrived := Kept(ReportsOf(cfg, Link(firstKey, {}), inputs), keep);
            var view := FedView(arrived, to, clocks);
            && view.accepted <= |Executed(fx)|
            && view.rejected <= Commands(inputs, |inputs|) - |Executed(fx)|
            && view.accepted + view.rejected == |arrived|
  {
    hide FedView, AllQuoteFree, Posts, Executed, Acks, Kept, EffectsUpTo, StateAt, Commands, ClosedEpochs;
    var posts := ReportsOf(cfg, Link(firstKey, {}), inputs);
    DecisionsConserved(cfg, firstKey, inputs, |inputs|);
    ReportsNeedNoEscape(cfg, Link(firstKey, {}), inputs, |inputs|);
    KeptCounts(posts, keep);
    FedCounts(Kept(posts, keep), to, clocks);
  }

  // ---------- Latency ----------

  /** The reported latency is the difference up to a multiple of 2^64, in the signed range; so it is the
      exact one precisely when that fits a signed 64-bit word. */
  lemma LatencyExactIff(now: UInt64, timestampMs: UInt64)
    ensures -0x8000_0000_0000_0000 <= LatencyMs(now, timestampMs) < 0x8000_0000_0000_0000
    ensures (LatencyMs(now, timestampMs) - (now - timestampMs)) % 0x1_0000_0000_0000_0000 == 0
    ensures LatencyMs(now, timestampMs) == now - timestampMs
            <==> -0x8000_0000_0000_0000 <= now - timestampMs < 0x8000_0000_0000_0000
  {
  }

  /** The two readings are ordered and far from where a signed 64-bit word ends. */
  predicate SoundClocks(r: Reception) {
    r.Datagram? ==> r.latencyClock <= r.freshClock < 0x8000_0000_0000_0000 - 30000
  }

  /** An accepted packet's latency is computed without leaving the signed range at any point; it is the
      exact difference, at most the freshness window. */
  lemma AcceptedLatency(cfg: Config, s: Link, r: Reception)
    requires SoundClocks(r) && Decide(cfg, s, r).Accepted?
    ensures var p := Parse(Received(r)).value;
            && LatencyOf(r) == r.latencyClock - p.timestampMs
            && ToLong(r.latencyClock) == r.latencyClock && ToLong(p.timestampMs) == p.timestampMs
            && -0x8000_0000_0000_0000 <= r.latencyClock - p.timestampMs <= 30000
  {

    StepCases(cfg, s, r);
  }

  /** The exact latency of an accepted packet, if it is not negative. */
  function ExactLatency(cfg: Config, s: Link, r: Reception): Option<nat> {
    if !Decide(cfg, s, r).Accepted? then None
    else
      var latency := r.latencyClock - Parse(Received(r)).value.timestampMs;
      if latency < 0 then None else Some(latency)
  }

  /** The exact sum and number of the non-negative latencies of the accepted packets of a run. */
  function ExactTotal(cfg: Config, s0: Link, inputs: seq<Reception>, n: nat): (nat, nat)
    requires n <= |inputs|
  {
    if n == 0 then (0, 0)
    else
      var (total, count) := ExactTotal(cfg, s0, inputs, n - 1);
      match ExactLatency(cfg, StateAt(cfg, s0, inputs, n - 1), inputs[n - 1])
      case None => (total, count)
      case Some(latency) => (total + latency, count + 1)
  }

  /** What enters the average if this event is logged. */
  function Measurement(e: Event): Option<nat> {
    if Measured(e) then Some(e.latencyMs.value) else None
  }

  /** What a command's report brings into the dashboard's average is its exact latency, in bounds. */
  lemma StepLatency(cfg: Config, s: Link, r: Reception, now: int)
    requires SoundClocks(r) && IsCommand(r)
    ensures Measurement(Completed(PostedOf(Report(Decide(cfg, s, r), r)), now)) == ExactLatency(cfg, s, r)
    ensures ExactLatency(cfg, s, r).Some? ==> ExactLatency(cfg, s, r).value <= 30000
  {
    hide Decide, Completed, PostedOf, KindOf, ReasonOf, SeverityOf, SessionOf, LatencyOf, IsCommand, SoundClocks;
    KindTellsAcceptance(Decide(cfg, s, r));
    StoredAs(Report(Decide(cfg, s, r), r), now);
    if Decide(cfg, s, r).Accepted? {
      AcceptedLatency(cfg, s, r);
    }
  }

  ghost predicate BoundedLatencies(log: seq<Event>) {
    forall i | 0 <= i < |log| && Measured(log[i]) :: log[i].latencyMs.value <= 30000
  }

  lemma LogStep(posts: seq<SecurityEvent>, e: SecurityEvent, clocks: seq<int>)
    requires |clocks| > |posts|
    ensures Logged(posts + [e], clocks) == Logged(posts, clocks) + [Completed(PostedOf(e), clocks[|posts|])]
  {
    assert (posts + [e])[..|posts|] == posts;
  }

  /** The log of a run's first n receptions holds the exact latencies. */
  ghost predicate ExactLog(cfg: Config, s0: Link, inputs: seq<Reception>, n: nat, log: seq<Event>)
    requires n <= |inputs|
  {
    BoundedLatencies(log) && ExactTotal(cfg, s0, inputs, n) == (LatencyTotal(log), LatencyCount(log))
  }

  lemma ExactLogStep(cfg: Config, s0: Link, inputs: seq<Reception>, n: nat, log: seq<Event>, e: Event)
    requires 0 < n <= |inputs| && ExactLog(cfg, s0, inputs, n - 1, log)
    requires var latency := ExactLatency(cfg, StateAt(cfg, s0, inputs, n - 1), inputs[n - 1]);
             Measurement(e) == latency && (latency.Some? ==> latency.value <= 30000)
    ensures ExactLog(cfg, s0, inputs, n, log + [e])
  {
    hide ExactLatency, StateAt, LatencyTotal, LatencyCount;
    TalliesGrow(log, e);
  }

  lemma {:induction false} LoggedLatencies(cfg: Config, s0: Link, inputs: seq<Reception>, n: nat, clocks: seq<int>)
    requires n <= |inputs| && forall i :: 0 <= i < |inputs| ==> SoundClocks(inputs[i])
    requires |clocks| >= |Posts(EffectsUpTo(cfg, s0, inputs, n))|
    ensures ExactLog(cfg, s0, inputs, n, Logged(Posts(EffectsUpTo(cfg, s0, inputs, n)), clocks))
  {
    hide ExactLog, Logged, Posts, EffectsUpTo, StateAt, Decide, SoundClocks, IsCommand, ExactLatency, Measurement;
    hide Executed, Acks, Report, Completed, PostedOf;
    if n == 0 {
      NothingLogged(cfg, s0, inputs, clocks);
    } else {
      StepCounts(cfg, s0, inputs, n);
      var before := Posts(EffectsUpTo(cfg, s0, inputs, n - 1));
      LoggedLatencies(cfg, s0, inputs, n - 1, clocks);
      var s, r := StateAt(cfg, s0, inputs, n - 1), inputs[n - 1];
      if IsCommand(r) {
        var e := Report(VerdictAt(cfg, s0, inputs, n - 1), r);
        StepLatency(cfg, s, r, clocks[|before|]);
        LogStep(before, e, clocks);
        ExactLogStep(cfg, s0, inputs, n, Logged(before, clocks), Completed(PostedOf(e), clocks[|before|]));
      } else {
        assert before + [] == before;
        NoLatency(cfg, s0, inputs, n, Logged(before, clocks));
      }
    }
  }

  lemma NothingLogged(cfg: Config, s0: Link, inputs: seq<Reception>, clocks: seq<int>)
    ensures Posts(EffectsUpTo(cfg, s0, inputs, 0)) == []
    ensures ExactLog(cfg, s0, inputs, 0, Logged([], clocks))
  {
  }

  lemma NoLatency(cfg: Config, s0: Link, inputs: seq<Reception>, n: nat, log: seq<Event>)
    requires 0 < n <= |inputs| && !IsCommand(inputs[n - 1]) && ExactLog(cfg, s0, inputs, n - 1, log)
    ensures ExactLog(cfg, s0, inputs, n, log)
  {
    hide Decide, IsCommand, BoundedLatencies;
    VerdictKinds(cfg, StateAt(cfg, s0, inputs, n - 1), inputs[n - 1]);
  }

  /** In every run fed by the satellite alone, with sound clocks, the displayed average lies between 0
      and 30000 and is the nearest integer to the exact mean of the accepted packets' latencies. */
  lemma DisplayedLatency(cfg: Config, s0: Link, inputs: seq<Reception>, to: Target, clocks: seq<int>)
    requires forall i :: 0 <= i < |inputs| ==> SoundClocks(inputs[i])
    requires |clocks| >= |ReportsOf(cfg, s0, inputs)| && Reachable(to)
    ensures var average := FedView(ReportsOf(cfg, s0, inputs), to, clocks).avgLatencyMs;
            var (total, count) := ExactTotal(cfg, s0, inputs, |inputs|);
            average <= 30000 && ShowsMean(average, total, count)
  {
    hide FedView, AllQuoteFree, Posts, EffectsUpTo, ExactTotal, ShowsMean, SoundClocks, Logged, ViewOf;
    hide LatencyTotal, LatencyCount;
    var log := Logged(ReportsOf(cfg, s0, inputs), clocks);
    ReportsNeedNoEscape(cfg, s0, inputs, |inputs|);
    FedLog(ReportsOf(cfg, s0, inputs), to, clocks);
    LoggedLatencies(cfg, s0, inputs, |inputs|, clocks);
    AverageBound(log, 30000);
    ShownAverage(log);
  }
}
