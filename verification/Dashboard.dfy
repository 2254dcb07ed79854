/** The monitoring dashboard (phase5_dashboard/dashboard.py): a bounded deque and running counters,
    proved to answer as if the whole log since the last reset were kept. */
module Dashboard {
  import opened Options

  const DEQUE_SIZE := 500
  const FEED_SIZE := 30
  const WINDOW_SIZE := 10

  /** A posted JSON object; a missing key is None. */
  datatype Posted = Posted(
    timestamp: Option<int>, kind: Option<string>, reason: Option<string>,
    sessionId: Option<string>, latencyMs: Option<int>, severity: Option<string>)

  /** The same after the defaults have been filled in. */
  datatype Event = Event(
    timestamp: int, kind: string, reason: string,
    sessionId: Option<string>, latencyMs: Option<int>, severity: string)

  datatype View = View(linkStatus: string, accepted: nat, rejected: nat, avgLatencyMs: nat, recent: seq<Event>)

  datatype Request = Post(posted: Posted, now: int) | Reset

  function Default<T>(field: Option<T>, value: T): T {
    if field.Some? then field.value else value
  }

  function ReasonSeverity(reason: string): string {
    if reason in {"TAG_FAIL", "REPLAY_TS", "DUP_NONCE", "DECRYPT_FAIL"} then "CRITICAL"
    else if reason == "BAD_FORMAT" then "MEDIUM"
    else "LOW"
  }

  predicate ValidSeverity(severity: string) {
    severity in {"LOW", "MEDIUM", "CRITICAL"}
  }

  function Completed(e: Posted, now: int): (stored: Event)
    ensures ValidSeverity(stored.severity)
  {
    var reason := Default(e.reason, "OK");
    var severity := if e.severity.Some? && ValidSeverity(e.severity.value)
                    then e.severity.value else ReasonSeverity(reason);
    Event(Default(e.timestamp, now), Default(e.kind, "REJECTED"), reason, e.sessionId, e.latencyMs, severity)
  }

  /** What becomes of a posted object, field by field: what is there is kept, what is missing is filled in. */
  ghost predicate Stores(posted: Posted, now: int, e: Event) {
    && (posted.timestamp.Some? ==> e.timestamp == posted.timestamp.value)
    && (posted.timestamp.None? ==> e.timestamp == now)
    && (posted.kind.Some? ==> e.kind == posted.kind.value)
    && (posted.kind.None? ==> e.kind == "REJECTED")
    && (posted.reason.Some? ==> e.reason == posted.reason.value)
    && (posted.reason.None? ==> e.reason == "OK")
    && e.sessionId == posted.sessionId && e.latencyMs == posted.latencyMs
    && if LegalSeverity(posted.severity) then e.severity == posted.severity.value else Graded(e.reason, e.severity)
  }

  /** Only a post that says so counts as an acceptance; one that says nothing is a rejection. */
  predicate Accepts(posted: Posted) {
    posted.kind == Some("ACCEPTED")
  }

  /** A post that enters the average. */
  predicate Times(posted: Posted): (yes: bool)
    ensures yes ==> posted.latencyMs.Some? && posted.latencyMs.value >= 0
  {
    Accepts(posted) && posted.latencyMs.Some? && posted.latencyMs.value >= 0
  }

  predicate LegalSeverity(severity: Option<string>) {
    severity == Some("LOW") || severity == Some("MEDIUM") || severity == Some("CRITICAL")
  }

  /** The severity each reason calls for. */
  ghost predicate Graded(reason: string, severity: string) {
    && (reason == "TAG_FAIL" ==> severity == "CRITICAL")
    && (reason == "REPLAY_TS" ==> severity == "CRITICAL")
    && (reason == "DUP_NONCE" ==> severity == "CRITICAL")
    && (reason == "DECRYPT_FAIL" ==> severity == "CRITICAL")
    && (reason == "BAD_FORMAT" ==> severity == "MEDIUM")
    && (reason !in ["TAG_FAIL", "REPLAY_TS", "DUP_NONCE", "DECRYPT_FAIL", "BAD_FORMAT"] ==> severity == "LOW")
  }

  lemma SeverityGraded(reason: string)
    ensures Graded(reason, ReasonSeverity(reason))
  {
    if reason == "BAD_FORMAT" {
      assert reason[0] == 'B';
    }
  }

  lemma CompletedStores(posted: Posted, now: int)
    ensures Stores(posted, now, Completed(posted, now))
  {
    hide Graded, ReasonSeverity;
    SeverityGraded(Default(posted.reason, "OK"));
  }

  /** The deque of 500 before and after a post: what it became is the newest, and the oldest makes room. */
  ghost predicate Ingested(before: seq<Event>, posted: Posted, now: int, after: seq<Event>) {
    && |after| == (if |before| < 500 then |before| + 1 else 500)
    && Stores(posted, now, after[|after| - 1])
    && after[..|after| - 1] == before[|before| - (|after| - 1)..]
  }

  // ---------- The unbounded log and what it answers ----------

  /** Every event since the last reset. */
  function LogOf(requests: seq<Request>): seq<Event> {
    if requests == [] then []
    else match requests[|requests| - 1]
      case Reset => []
      case Post(e, now) => LogOf(requests[..|requests| - 1]) + [Completed(e, now)]
  }

  function Last<T>(xs: seq<T>, n: nat): (r: seq<T>)
    ensures |r| <= n && |r| <= |xs|
  {
    if |xs| <= n then xs else xs[|xs| - n..]
  }

  function CountKind(log: seq<Event>, kind: string): (n: nat)
    ensures n <= |log|
  {
    if log == [] then 0
    else CountKind(log[..|log| - 1], kind) + (if log[|log| - 1].kind == kind then 1 else 0)
  }

  /** The latencies that enter the average. */
  predicate Measured(e: Event) {
    e.kind == "ACCEPTED" && e.latencyMs.Some? && e.latencyMs.value >= 0
  }

  function LatencyTotal(log: seq<Event>): nat {
    if log == [] then 0
    else
      var e := log[|log| - 1];
      LatencyTotal(log[..|log| - 1]) + (if Measured(e) then e.latencyMs.value else 0)
  }

  function LatencyCount(log: seq<Event>): nat {
    if log == [] then 0
    else LatencyCount(log[..|log| - 1]) + (if Measured(log[|log| - 1]) then 1 else 0)
  }

  /** The integer nearest to total / count, ties to even. */
  function RoundHalfEven(total: nat, count: nat): (r: nat)
    requires count > 0
  {
    var q, rest := total / count, total % count;
    if 2 * rest < count || (2 * rest == count && q % 2 == 0) then q else q + 1
  }

  function Average(total: nat, count: nat): nat {
    if count == 0 then 0 else RoundHalfEven(total, count)
  }

  function LinkStatus(log: seq<Event>): string {
    if log == [] then "DISCONNECTED"
    else
      var rejected := CountKind(Last(log, WINDOW_SIZE), "REJECTED");
      var accepted := CountKind(Last(log, WINDOW_SIZE), "ACCEPTED");
      if rejected > 0 && rejected >= accepted then "DEGRADED" else "CONNECTED"
  }

  /** What a dashboard that forgot nothing would show. */
  function ViewOf(log: seq<Event>): View {
    var accepted := CountKind(log, "ACCEPTED");
    View(LinkStatus(log), accepted, |log| - accepted, Average(LatencyTotal(log), LatencyCount(log)),
         Last(log, FEED_SIZE))
  }

  // ---------- The program ----------

  /** What the program keeps of a log: its newest events and its totals. */
  ghost predicate Summarizes(
    log: seq<Event>, events: seq<Event>, accepted: nat, rejected: nat, latencyMs: nat, latencyN: nat)
  {
    && events == Last(log, DEQUE_SIZE)
    && accepted == CountKind(log, "ACCEPTED") && rejected == |log| - accepted
    && latencyMs == LatencyTotal(log) && latencyN == LatencyCount(log)
  }

  /** One more event in the log is one more event in its summary. */
  lemma SummaryGrows(
    log: seq<Event>, events: seq<Event>, accepted: nat, rejected: nat, latencyMs: nat, latencyN: nat, e: Event)
    requires Summarizes(log, events, accepted, rejected, latencyMs, latencyN)
    ensures |events| <= DEQUE_SIZE
    ensures Summarizes(log + [e], Last(events + [e], DEQUE_SIZE),
                       accepted + (if e.kind == "ACCEPTED" then 1 else 0),
                       rejected + (if e.kind == "ACCEPTED" then 0 else 1),
                       latencyMs + (if Measured(e) then e.latencyMs.value else 0),
                       latencyN + (if Measured(e) then 1 else 0))
  {
    hide CountKind, LatencyTotal, LatencyCount, Last, Measured;
    LastOfLast(log, e, DEQUE_SIZE);
    TalliesGrow(log, e);
  }

  class Server {
    var events: seq<Event>
    var accepted: nat
    var rejected: nat
    var latencyMs: nat
    var latencyN: nat
    ghost var requests: seq<Request>

    ghost predicate Valid()
      reads this
    {
      Summarizes(LogOf(requests), events, accepted, rejected, latencyMs, latencyN)
    }

    constructor ()
      ensures Valid() && requests == [] && LogOf(requests) == []
      ensures events == [] && accepted == rejected == latencyMs == latencyN == 0
    {
      events, accepted, rejected, latencyMs, latencyN := [], 0, 0, 0, 0;
      requests := [];
    }

    /** Append to the deque, which drops its oldest element beyond its capacity. */
    method Append(e: Event)
      requires |events| <= DEQUE_SIZE
      modifies this`events
      ensures events == Last(old(events) + [e], DEQUE_SIZE)
    {
      events := events + [e];
      if |events| > DEQUE_SIZE {
        events := events[1..];
      }
    }

    method UpdateCounters(e: Event)
      modifies this`accepted, this`rejected, this`latencyMs, this`latencyN
      ensures accepted == old(accepted) + (if e.kind == "ACCEPTED" then 1 else 0)
      ensures rejected == old(rejected) + (if e.kind == "ACCEPTED" then 0 else 1)
      ensures latencyMs == old(latencyMs) + (if Measured(e) then e.latencyMs.value else 0)
      ensures latencyN == old(latencyN) + (if Measured(e) then 1 else 0)
    {
      if e.kind == "ACCEPTED" {
        accepted := accepted + 1;
        if e.latencyMs.Some? && e.latencyMs.value >= 0 {
          latencyMs := latencyMs + e.latencyMs.value;
          latencyN := latencyN + 1;
        }
      } else {
        rejected := rejected + 1;
      }
    }

    method FillDefaults(posted: Posted, now: int) returns (e: Event)
      ensures e == Completed(posted, now)
    {
      hide ValidSeverity, ReasonSeverity;
      var timestamp := if posted.timestamp.None? then now else posted.timestamp.value;
      var kind := if posted.kind.None? then "REJECTED" else posted.kind.value;
      var reason := if posted.reason.None? then "OK" else posted.reason.value;
      var severity := ReasonSeverity(reason);
      if posted.severity.Some? && ValidSeverity(posted.severity.value) {
        severity := posted.severity.value;
      }
      e := Event(timestamp, kind, reason, posted.sessionId, posted.latencyMs, severity);
    }

    method IngestEvent(posted: Posted, now: int)
      requires Valid()
      modifies this
      ensures Valid() && requests == old(requests) + [Post(posted, now)]
      ensures Ingested(old(events), posted, now, events)
      ensures accepted == old(accepted) + (if Accepts(posted) then 1 else 0)
      ensures rejected == old(rejected) + (if Accepts(posted) then 0 else 1)
      ensures latencyMs == old(latencyMs) + (if Times(posted) then posted.latencyMs.value else 0)
      ensures latencyN == old(latencyN) + (if Times(posted) then 1 else 0)
    {
      hide LogOf, Last, Completed, Ingested, Measured, Summarizes, Accepts, Times;
      var e := FillDefaults(posted, now);
      KindAndLatencyKept(posted, now);
      LogGrows(requests, posted, now);
      SummaryGrows(LogOf(requests), events, accepted, rejected, latencyMs, latencyN, e);
      PushIngests(events, posted, now);
      UpdateCounters(e);
      Append(e);
      requests := requests + [Post(posted, now)];
    }

    method State() returns (view: View)
      requires Valid()
      ensures view == ViewOf(LogOf(requests)) && Shows(view, LogOf(requests))
    {
      hide LogOf, CountKind, LatencyTotal, LatencyCount, Shows;
      ViewShows(LogOf(requests));
      var recent := Last(events, FEED_SIZE);
      var link: string;
      if |events| == 0 {
        link := "DISCONNECTED";
      } else {
        var window := Last(events, WINDOW_SIZE);
        var rej := CountKind(window, "REJECTED");
        var acc := CountKind(window, "ACCEPTED");
        link := if rej > 0 && rej >= acc then "DEGRADED" else "CONNECTED";
      }
      var avgLatency := if latencyN > 0 then RoundHalfEven(latencyMs, latencyN) else 0;
      view := View(link, accepted, rejected, avgLatency, recent);
    }

    method Reset()
      requires Valid()
      modifies this
      ensures Valid() && requests == old(requests) + [Request.Reset] && LogOf(requests) == []
      ensures events == [] && accepted == rejected == latencyMs == latencyN == 0
    {
      events := [];
      accepted := 0;
      rejected := 0;
      latencyMs := 0;
      latencyN := 0;
      requests := requests + [Request.Reset];
    }
  }

  lemma KindAndLatencyKept(posted: Posted, now: int)
    ensures Completed(posted, now).kind == "ACCEPTED" <==> Accepts(posted)
    ensures Measured(Completed(posted, now)) <==> Times(posted)
    ensures Completed(posted, now).latencyMs == posted.latencyMs
  {
    hide ValidSeverity, ReasonSeverity;
    assert "ACCEPTED"[0] != "REJECTED"[0];
  }

  lemma PushIngests(events: seq<Event>, posted: Posted, now: int)
    requires |events| <= DEQUE_SIZE
    ensures Ingested(events, posted, now, Last(events + [Completed(posted, now)], DEQUE_SIZE))
  {
    hide Completed, Stores;
    CompletedStores(posted, now);
  }

  lemma LogGrows(requests: seq<Request>, posted: Posted, now: int)
    ensures LogOf(requests + [Post(posted, now)]) == LogOf(requests) + [Completed(posted, now)]
  {
    assert (requests + [Post(posted, now)])[..|requests|] == requests;
  }

  lemma TalliesGrow(log: seq<Event>, e: Event)
    ensures CountKind(log + [e], "ACCEPTED") == CountKind(log, "ACCEPTED") + (if e.kind == "ACCEPTED" then 1 else 0)
    ensures LatencyTotal(log + [e]) == LatencyTotal(log) + (if Measured(e) then e.latencyMs.value else 0)
    ensures LatencyCount(log + [e]) == LatencyCount(log) + (if Measured(e) then 1 else 0)
  {
    assert (log + [e])[..|log|] == log;
  }

  /** Evicting as events arrive keeps what evicting once would. */
  lemma LastOfLast<T>(xs: seq<T>, x: T, n: nat)
    ensures Last(Last(xs, n) + [x], n) == Last(xs + [x], n)
  {
  }

  // ---------- What the display means ----------

  /** The positions from `from` on that hold an event of this kind. */
  function Positions(log: seq<Event>, from: nat, kind: string): set<nat> {
    set i: nat | from <= i < |log| && log[i].kind == kind
  }

  /** Where the last n events begin. */
  function Start(log: seq<Event>, n: nat): nat {
    if |log| <= n then 0 else |log| - n
  }

  /** The display in terms of the positions of the log: the status from the last ten events, the totals
      from all, and the feed holding the last thirty, newest last. */
  ghost predicate Shows(view: View, log: seq<Event>) {
    var rejected, accepted := Positions(log, Start(log, 10), "REJECTED"), Positions(log, Start(log, 10), "ACCEPTED");
    && (view.linkStatus == "DISCONNECTED" <==> log == [])
    && (view.linkStatus == "DEGRADED" <==> rejected != {} && |rejected| >= |accepted|)
    && (view.linkStatus == "CONNECTED" <==> log != [] && !(rejected != {} && |rejected| >= |accepted|))
    && view.accepted == |Positions(log, 0, "ACCEPTED")| && view.accepted + view.rejected == |log|
    && view.recent == log[Start(log, 30)..]
  }

  lemma NoPositions(log: seq<Event>, kind: string)
    ensures Positions(log, |log|, kind) == {}
  {
  }

  lemma PositionsGrow(log: seq<Event>, from: nat, kind: string)
    requires from < |log|
    ensures var n := |log| - 1;
            var before := Positions(log[..n], from, kind);
            |Positions(log, from, kind)| == |before| + if log[n].kind == kind then 1 else 0
  {
    var n := |log| - 1;
    var before := Positions(log[..n], from, kind);
    assert Positions(log, from, kind) == if log[n].kind == kind then before + {n} else before;
  }

  lemma {:induction false} CountIsPositions(log: seq<Event>, from: nat, kind: string)
    requires from <= |log|
    ensures CountKind(log[from..], kind) == |Positions(log, from, kind)|
  {
    hide Positions;
    if from == |log| {
      assert Positions(log, from, kind) == {} by { NoPositions(log, kind); }
    } else {
      var n := |log| - 1;
      CountIsPositions(log[..n], from, kind);
      assert log[from..][..n - from] == log[..n][from..];
      PositionsGrow(log, from, kind);
    }
  }

  lemma ViewShows(log: seq<Event>)
    ensures Shows(ViewOf(log), log)
  {
    hide CountKind, Average, LatencyTotal, LatencyCount;
    var from := Start(log, 10);
    assert Last(log, 10) == log[from..] && log[0..] == log;
    CountIsPositions(log, from, "REJECTED");
    CountIsPositions(log, from, "ACCEPTED");
    CountIsPositions(log, 0, "ACCEPTED");
    StatusesDiffer();
  }

  lemma StatusesDiffer()
    ensures "DISCONNECTED" != "DEGRADED" && "DISCONNECTED" != "CONNECTED" && "DEGRADED" != "CONNECTED"
  {
    assert "DISCONNECTED"[1] == 'I' && "DEGRADED"[1] == 'E' && "CONNECTED"[1] == 'O';
  }

  /** The displayed average is within one half of the exact mean, and an even number when it is exactly
      one half away; no other number is. */
  lemma NearestMean(total: nat, count: nat, r: nat)
    requires count > 0
    ensures r == RoundHalfEven(total, count) <==> IsNearestMean(total, count, r)
  {
    hide IsNearest, RoundHalfEven;
    var q, rest, below := Divide(total, count);
    MultiplesApart(r, q, count);
    NearestQuotient(total, count, below, rest, q, r, r * count);
  }

  lemma Divide(total: nat, count: nat) returns (q: nat, rest: nat, below: nat)
    requires count > 0
    ensures total == below + rest && rest < count && below == q * count
    ensures RoundHalfEven(total, count)
            == if 2 * rest < count || (2 * rest == count && q % 2 == 0) then q else q + 1
  {
    q, rest := total / count, total % count;
    below := q * count;
  }

  /** `multiple`, which is r * count, is nearest to total among the multiples of count. */
  predicate IsNearest(total: nat, count: nat, r: nat, multiple: nat) {
    && 2 * multiple <= 2 * total + count && 2 * total <= 2 * multiple + count
    && (2 * multiple == 2 * total + count || 2 * total == 2 * multiple + count ==> r % 2 == 0)
  }

  predicate IsNearestMean(total: nat, count: nat, r: nat) {
    IsNearest(total, count, r, r * count)
  }

  /** What the display shows for a log. */
  lemma ShownAverage(log: seq<Event>)
    ensures ShowsMean(ViewOf(log).avgLatencyMs, LatencyTotal(log), LatencyCount(log))
  {
    hide IsNearestMean, RoundHalfEven, LatencyTotal, LatencyCount;
    var total, count := LatencyTotal(log), LatencyCount(log);
    if count > 0 {
      NearestMean(total, count, RoundHalfEven(total, count));
    }
  }

  /** Zero if there is nothing to average. */
  predicate ShowsMean(average: nat, total: nat, count: nat) {
    if count == 0 then average == 0 else IsNearestMean(total, count, average)
  }

  lemma MultiplesApart(r: nat, q: nat, count: nat)
    ensures r == q + 1 ==> r * count == q * count + count
    ensures r < q ==> r * count + count <= q * count
    ensures r > q + 1 ==> r * count >= q * count + 2 * count
  {
    if r < q {
      Distribute(r, q - r, count);
    } else {
      Distribute(q, r - q, count);
    }
  }

  lemma Distribute(a: nat, d: nat, c: nat)
    ensures (a + d) * c == a * c + d * c
    ensures d >= 1 ==> d * c >= c
    ensures d == 1 ==> d * c == c
    ensures d >= 2 ==> d * c >= 2 * c
  {
    if d >= 2 {
      assert d * c == (d - 2) * c + 2 * c;
    }
  }

  lemma NearestQuotient(total: nat, count: nat, below: nat, rest: nat, q: nat, r: nat, multiple: nat)
    requires total == below + rest && rest < count
    requires r == q ==> multiple == below
    requires r == q + 1 ==> multiple == below + count
    requires r < q ==> multiple + count <= below
    requires r > q + 1 ==> multiple >= below + 2 * count
    ensures r == (if 2 * rest < count || (2 * rest == count && q % 2 == 0) then q else q + 1)
            <==> IsNearest(total, count, r, multiple)
  {
  }

  ghost predicate AllOfKind(log: seq<Event>, kind: string) {
    forall i :: 0 <= i < |log| ==> log[i].kind == kind
  }

  /** Whatever came before, k events of this kind leave the link in this status. */
  ghost predicate Forces(k: nat, kind: string, status: string) {
    forall log: seq<Event>, tail: seq<Event> | |tail| == k && AllOfKind(tail, kind) ::
      LinkStatus(log + tail) == status
  }

  lemma {:induction false} CountsOfConcat(a: seq<Event>, b: seq<Event>, kind: string)
    ensures CountKind(a + b, kind) == CountKind(a, kind) + CountKind(b, kind)
  {
    if b == [] {
      assert a + b == a;
    } else {
      CountsOfConcat(a, b[..|b| - 1], kind);
      assert (a + b)[..|a + b| - 1] == a + b[..|b| - 1];
    }
  }

  lemma {:induction false} CountsOfKind(log: seq<Event>, kind: string, other: string)
    requires AllOfKind(log, kind)
    ensures CountKind(log, other) == if other == kind then |log| else 0
  {
    if log != [] {
      CountsOfKind(log[..|log| - 1], kind, other);
    }
  }

  lemma {:induction false} CountsShare(log: seq<Event>)
    ensures CountKind(log, "ACCEPTED") + CountKind(log, "REJECTED") <= |log|
  {
    if log != [] {
      CountsShare(log[..|log| - 1]);
    }
  }

  /** The window after k events of one kind: those, and what is left of the history. */
  lemma WindowCounts(log: seq<Event>, tail: seq<Event>, kind: string, other: string)
    requires AllOfKind(tail, kind) && |tail| <= WINDOW_SIZE
    ensures CountKind(Last(log + tail, WINDOW_SIZE), other)
            == CountKind(Last(log, WINDOW_SIZE - |tail|), other) + (if other == kind then |tail| else 0)
  {
    assert Last(log + tail, WINDOW_SIZE) == Last(log, WINDOW_SIZE - |tail|) + tail;
    CountsOfConcat(Last(log, WINDOW_SIZE - |tail|), tail, other);
    CountsOfKind(tail, kind, other);
  }

  /** Consecutive acceptances force CONNECTED exactly from six on. */
  lemma SixAcceptancesConnect(k: nat)
    ensures Forces(k, "ACCEPTED", "CONNECTED") <==> k >= 6
  {
    if k >= 6 {
      forall log: seq<Event>, tail: seq<Event> | |tail| == k && AllOfKind(tail, "ACCEPTED")
        ensures LinkStatus(log + tail) == "CONNECTED"
      {
        LongTail(log, tail, "ACCEPTED");
        var m := if k > 10 then 10 else k;
        var h, t := log + tail[..k - m], tail[k - m..];
        WindowCounts(h, t, "ACCEPTED", "ACCEPTED");
        WindowCounts(h, t, "ACCEPTED", "REJECTED");
        CountsShare(Last(h, 10 - m));
      }
    } else {
      Counterexample(k, "REJECTED", "ACCEPTED");
    }
  }

  /** Consecutive rejections force DEGRADED exactly from five on. */
  lemma FiveRejectionsDegrade(k: nat)
    ensures Forces(k, "REJECTED", "DEGRADED") <==> k >= 5
  {
    if k >= 5 {
      forall log: seq<Event>, tail: seq<Event> | |tail| == k && AllOfKind(tail, "REJECTED")
        ensures LinkStatus(log + tail) == "DEGRADED"
      {
        LongTail(log, tail, "REJECTED");
        var m := if k > 10 then 10 else k;
        var h, t := log + tail[..k - m], tail[k - m..];
        WindowCounts(h, t, "REJECTED", "ACCEPTED");
        WindowCounts(h, t, "REJECTED", "REJECTED");
        CountsShare(Last(h, 10 - m));
      }
    } else {
      Counterexample(k, "ACCEPTED", "REJECTED");
    }
  }

  lemma LongTail(log: seq<Event>, tail: seq<Event>, kind: string)
    requires AllOfKind(tail, kind)
    ensures var m := if |tail| > 10 then |tail| - 10 else 0;
            log + tail == (log + tail[..m]) + tail[m..] && AllOfKind(tail[m..], kind)
  {
  }

  /** Ten events of one kind followed by fewer than enough of the other. */
  lemma Counterexample(k: nat, before: string, after: string)
    requires k <= 5 && before != after
    ensures exists log: seq<Event>, tail: seq<Event> ::
              && |tail| == k && AllOfKind(tail, after) && log + tail != []
              && CountKind(Last(log + tail, 10), before) == 10 - k
              && CountKind(Last(log + tail, 10), after) == k
  {
    var log := seq(10, i => Event(0, before, "OK", None, None, "LOW"));
    var tail := seq(k, i => Event(0, after, "OK", None, None, "LOW"));
    WindowCounts(log, tail, after, before);
    WindowCounts(log, tail, after, after);
    assert AllOfKind(Last(log, 10 - k), before);
    CountsOfKind(Last(log, 10 - k), before, before);
    CountsOfKind(Last(log, 10 - k), before, after);
    assert |tail| == k && AllOfKind(tail, after) && log + tail != [];
  }

  /** If no measured latency exceeds a bound, neither does the displayed average. */
  lemma AverageBound(log: seq<Event>, bound: nat)
    requires forall i | 0 <= i < |log| && Measured(log[i]) :: log[i].latencyMs.value <= bound
    ensures ViewOf(log).avgLatencyMs <= bound
  {
    hide RoundHalfEven, LatencyTotal, LatencyCount, LinkStatus, CountKind;
    var total, count := LatencyTotal(log), LatencyCount(log);
    TotalBound(log, bound);
    if count > 0 {
      var r := RoundHalfEven(total, count);
      NearestMean(total, count, r);
      MultiplesApart(r, bound, count);
    }
  }

  lemma {:induction false} TotalBound(log: seq<Event>, bound: nat)
    requires forall i | 0 <= i < |log| && Measured(log[i]) :: log[i].latencyMs.value <= bound
    ensures LatencyTotal(log) <= bound * LatencyCount(log)
  {
    if log != [] {
      var front := log[..|log| - 1];
      TotalBound(front, bound);
      assert bound * (LatencyCount(front) + 1) == bound * LatencyCount(front) + bound;
    }
  }
}
