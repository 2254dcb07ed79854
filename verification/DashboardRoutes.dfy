/** What the dashboard takes from the text of a request (the routes of phase5_dashboard/dashboard.py). */
module DashboardRoutes {
  import opened Options
  import opened Json
  import opened Http
  import opened Dashboard

  // ---------- Bodies ----------

  /** The value of a key; of several with the same key the last counts. */
  function Lookup(members: seq<Member>, key: string): Option<Value> {
    if members == [] then None
    else
      var m := members[|members| - 1];
      if m.key == key then Some(m.value) else Lookup(members[..|members| - 1], key)
  }

  function TextAt(members: seq<Member>, key: string): Option<string> {
    match Lookup(members, key) case Some(Text(text)) => Some(text) case _ => None
  }

  function NumberAt(members: seq<Member>, key: string): Option<int> {
    match Lookup(members, key) case Some(Number(number)) => Some(number) case _ => None
  }

  /** The posted object a body stands for, if it is one. */
  function ReadBody(s: string): Option<Posted> {
    match ReadObject(s)
    case None => None
    case Some(members) =>
      Some(Posted(NumberAt(members, "timestamp"), TextAt(members, "type"), TextAt(members, "reason"),
                  TextAt(members, "session_id"), NumberAt(members, "latency_ms"), TextAt(members, "severity")))
  }

  lemma LookupLast(members: seq<Member>, m: Member, key: string)
    ensures Lookup(members + [m], key) == if m.key == key then Some(m.value) else Lookup(members, key)
  {
    assert (members + [m])[..|members|] == members;
  }

  lemma LookupOfFive(a: Member, b: Member, c: Member, d: Member, e: Member, key: string)
    ensures Lookup([a, b, c, d, e], key)
            == if e.key == key then Some(e.value) else if d.key == key then Some(d.value)
               else if c.key == key then Some(c.value) else if b.key == key then Some(b.value)
               else if a.key == key then Some(a.value) else None
  {
    assert [a, b, c, d, e] == [a, b, c, d] + [e];
    LookupLast([a, b, c, d], e, key);
    assert [a, b, c, d] == [a, b, c] + [d];
    LookupLast([a, b, c], d, key);
    assert [a, b, c] == [a, b] + [c];
    LookupLast([a, b], c, key);
    assert [a, b] == [a] + [b];
    LookupLast([a], b, key);
    assert [a] == [] + [a];
    LookupLast([], a, key);
  }

  // ---------- Routes ----------

  const EMPTY_POST := Posted(None, None, None, None, None, None)

  /** What a request makes the dashboard do, by method and path: store an event, with an unreadable body
      counting as an empty object, clear everything, or change nothing. */
  function Route(text: string, now: int): Option<Request> {
    match ReadMessage(text)
    case None => None
    case Some(m) =>
      if m.verb != "POST" then None
      else if m.target == "/api/event" then Some(Request.Post(Default(ReadBody(m.body), EMPTY_POST), now))
      else if m.target == "/api/reset" then Some(Request.Reset)
      else None
  }

  /** A post with an unreadable body is logged as a rejection that the dashboard dates itself. */
  lemma UnreadableIsRejection(requests: seq<Request>, text: string, now: int)
    requires var m := ReadMessage(text);
             m.Some? && m.value.verb == "POST" && m.value.target == "/api/event" && ReadBody(m.value.body).None?
    ensures Route(text, now).Some?
    ensures LogOf(requests + [Route(text, now).value])
            == LogOf(requests) + [Event(now, "REJECTED", "OK", None, None, "LOW")]
  {
    hide LogOf, ReadMessage, ReadBody, Completed;
    LogGrows(requests, EMPTY_POST, now);
    CompletedStores(EMPTY_POST, now);
  }
}
