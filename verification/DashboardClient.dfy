/** How the satellite writes a report (phase5_dashboard/dashboard_client.cpp), and what the dashboard
    reads from it. */
module DashboardClient {
  import opened Bitwise
  import opened Options
  import opened Formatting
  import opened Json
  import opened Http
  import opened LinkSpec
  import opened Dashboard
  import opened DashboardRoutes

  // ---------- The body ----------

  /** The low sixteen bits in four upper-case hexadecimal digits. */
  function HexSession(id: UInt32): (s: string)
    ensures |s| == 4
  {
    PaddedHex('A', And(id, 0xFFFF), 4)
  }

  /** 2026 is written as four digits. */
  lemma HexSessionExample()
    ensures HexSession(2026) == "07EA"
  {
    hide And;
    AndWordMask(2026);
    assert 2026 % 0x1_0000 == 2026;
    assert PaddedHex('A', 0, 1) == "0";
    assert PaddedHex('A', 7, 2) == "07";
    assert PaddedHex('A', 126, 3) == "07E";
  }

  /** Read as a number, the session is the id modulo 65536; its letters are upper-case. */
  lemma HexSessionReads(id: UInt32)
    ensures HexValue(HexSession(id)) == id % 0x1_0000
    ensures forall c <- HexSession(id) :: IsDigit(c) || 'A' <= c <= 'F'
  {
    AndWordMask(id);
    ShlBytes(1);
    PaddedHexReads('A', id % 0x1_0000, 4);
  }

  lemma HexSessionKeepsLowBits(a: UInt32, b: UInt32)
    ensures HexSession(a) == HexSession(b) <==> a % 0x1_0000 == b % 0x1_0000
  {
    hide PaddedHex, HexValue;
    AndWordMask(a);
    AndWordMask(b);
    HexSessionReads(a);
    HexSessionReads(b);
  }

  function MembersOf(e: SecurityEvent): (members: seq<Member>) {
    [Member("type", Text(e.kind)),
     Member("reason", Text(e.reason)),
     Member("session_id", Text(HexSession(e.sessionId))),
     Member("latency_ms", Number(e.latencyMs)),
     Member("severity", Text(e.severity))]
  }

  function Body(e: SecurityEvent): string {
    ObjectText(MembersOf(e))
  }

  method RenderBody(e: SecurityEvent) returns (body: string)
    ensures body == Body(e)
  {
    hide MemberText, MembersText;
    ghost var members := MembersOf(e);
    MemberLiterals(e);
    body := "{";
    body := body + ("\"type\":\"" + e.kind + "\"");
    FirstMember(members);
    body := body + "," + ("\"reason\":\"" + e.reason + "\"");
    NextMember(members, 1);
    body := body + "," + ("\"session_id\":\"" + HexSession(e.sessionId) + "\"");
    NextMember(members, 2);
    body := body + "," + ("\"latency_ms\":" + SignedDecimal(e.latencyMs));
    NextMember(members, 3);
    body := body + "," + ("\"severity\":\"" + e.severity + "\"");
    NextMember(members, 4);
    body := body + "}";
    assert members[..5] == members;
  }

  lemma FirstMember(members: seq<Member>)
    requires members != []
    ensures "{" + MemberText(members[0]) == "{" + MembersText(members[..1])
  {
    assert members[..1][0] == members[0];
  }

  lemma NextMember(members: seq<Member>, k: nat)
    requires 0 < k < |members|
    ensures ("{" + MembersText(members[..k])) + "," + MemberText(members[k]) == "{" + MembersText(members[..k + 1])
  {
    hide MemberText, MembersText;
    assert members[..k + 1] == members[..k] + [members[k]];
    MembersTextGrows(members[..k], members[k]);
  }

  /** The pieces the program writes are the members of the object. */
  lemma MemberLiterals(e: SecurityEvent)
    ensures var ms := MembersOf(e);
            && MemberText(ms[0]) == "\"type\":\"" + e.kind + "\""
            && MemberText(ms[1]) == "\"reason\":\"" + e.reason + "\""
            && MemberText(ms[2]) == "\"session_id\":\"" + HexSession(e.sessionId) + "\""
            && MemberText(ms[3]) == "\"latency_ms\":" + SignedDecimal(e.latencyMs)
            && MemberText(ms[4]) == "\"severity\":\"" + e.severity + "\""
  {
    hide HexSession, SignedDecimal, MemberText;
    KeyLiteral("type", e.kind, "\"type\":\"");
    KeyLiteral("reason", e.reason, "\"reason\":\"");
    KeyLiteral("session_id", HexSession(e.sessionId), "\"session_id\":\"");
    NumberLiteral(e.latencyMs);
    KeyLiteral("severity", e.severity, "\"severity\":\"");
  }

  lemma NumberLiteral(number: int)
    ensures MemberText(Member("latency_ms", Number(number))) == "\"latency_ms\":" + SignedDecimal(number)
  {
    hide SignedDecimal;
    assert "\"" + "latency_ms" + "\":" == "\"latency_ms\":";
  }

  lemma KeyLiteral(key: string, text: string, literal: string)
    requires literal == "\"" + key + "\":\""
    ensures MemberText(Member(key, Text(text))) == literal + text + "\""
  {
    assert "\":\"" == "\":" + "\"";
  }

  /** The object a report should be read as: all its fields, and no timestamp. */
  function PostedOf(e: SecurityEvent): Posted {
    Posted(None, Some(e.kind), Some(e.reason), Some(HexSession(e.sessionId)), Some(e.latencyMs), Some(e.severity))
  }

  predicate QuoteFree(e: SecurityEvent) {
    Quotable(e.kind) && Quotable(e.reason) && Quotable(e.severity)
  }

  lemma KeysQuotable()
    ensures Quotable("type") && Quotable("reason") && Quotable("session_id")
    ensures Quotable("latency_ms") && Quotable("severity")
  {
  }

  lemma MembersWritable(e: SecurityEvent)
    requires QuoteFree(e)
    ensures forall m <- MembersOf(e) :: Writable(m)
  {
    hide HexSession, HexValue;
    KeysQuotable();
    HexSessionReads(e.sessionId);
    assert Quotable(HexSession(e.sessionId));
  }

  lemma KeysDiffer()
    ensures "type"[0] == 't' && "reason"[0] == 'r' && "session_id"[3] == 's' && "latency_ms"[0] == 'l'
            && "severity"[3] == 'e' && "timestamp"[1] == 'i' && "type"[1] == 'y'
  {
  }

  lemma FieldsFound(e: SecurityEvent)
    ensures var ms := MembersOf(e);
            && TextAt(ms, "type") == Some(e.kind) && TextAt(ms, "reason") == Some(e.reason)
            && TextAt(ms, "session_id") == Some(HexSession(e.sessionId))
            && NumberAt(ms, "latency_ms") == Some(e.latencyMs)
            && TextAt(ms, "severity") == Some(e.severity) && NumberAt(ms, "timestamp") == None
  {
    hide Lookup, HexSession;
    var ms := MembersOf(e);
    forall key: string
      ensures Lookup(ms, key)
              == if "severity" == key then Some(Text(e.severity))
                 else if "latency_ms" == key then Some(Number(e.latencyMs))
                 else if "session_id" == key then Some(Text(HexSession(e.sessionId)))
                 else if "reason" == key then Some(Text(e.reason))
                 else if "type" == key then Some(Text(e.kind)) else None
    {
      LookupOfFive(ms[0], ms[1], ms[2], ms[3], ms[4], key);
    }
    KeysDiffer();
  }

  /** The dashboard reads from a body exactly the report it was written from. */
  lemma BodyReadBack(e: SecurityEvent)
    requires QuoteFree(e)
    ensures ReadBody(Body(e)) == Some(PostedOf(e))
  {
    hide ObjectText, ReadObject, MembersOf, TextAt, NumberAt, Writable, QuoteFree, HexSession;
    MembersWritable(e);
    ObjectReads(MembersOf(e));
    FieldsFound(e);
  }

  /** A body loses nothing of a report but the upper sixteen bits of its session id. */
  lemma BodyInjective(e: SecurityEvent, f: SecurityEvent)
    requires QuoteFree(e) && QuoteFree(f)
    ensures Body(e) == Body(f)
            <==> && e.kind == f.kind && e.reason == f.reason && e.severity == f.severity
                 && e.latencyMs == f.latencyMs && e.sessionId % 0x1_0000 == f.sessionId % 0x1_0000
  {
    hide HexSession, ReadBody, QuoteFree;
    BodyReadBack(e);
    BodyReadBack(f);
    HexSessionKeepsLowBits(e.sessionId, f.sessionId);
    if MembersOf(e) == MembersOf(f) {
      assert Body(e) == Body(f);
    }
  }

  // ---------- The request ----------

  function HeaderLines(host: string, port: int, length: nat): seq<string> {
    ["POST /api/event HTTP/1.1",
     "Host: " + host + ":" + SignedDecimal(port),
     "Content-Type: application/json",
     "Content-Length: " + Decimal(length),
     "Connection: close"]
  }

  function RequestText(e: SecurityEvent, host: string, port: int): string {
    Lines(HeaderLines(host, port, |Body(e)|)) + CRLF + Body(e)
  }

  /** The request as it should be understood. */
  function RequestMessage(e: SecurityEvent, host: string, port: int): Message {
    Message("POST", "/api/event", "HTTP/1.1",
            [Field("Host", host + ":" + SignedDecimal(port)),
             Field("Content-Type", "application/json"),
             Field("Content-Length", Decimal(|Body(e)|)),
             Field("Connection", "close")],
            Body(e))
  }

  method RenderRequest(e: SecurityEvent, host: string, port: int) returns (request: string)
    ensures request == RequestText(e, host, port)
  {
    var json := RenderBody(e);
    ghost var lines, done := HeaderLines(host, port, |json|), [];
    request := "";
    request := request + "POST /api/event HTTP/1.1" + CRLF;
    OneMoreLine(done, lines[0]);
    done := done + [lines[0]];
    request := request + ("Host: " + host + ":" + SignedDecimal(port)) + CRLF;
    OneMoreLine(done, lines[1]);
    done := done + [lines[1]];
    request := request + "Content-Type: application/json" + CRLF;
    OneMoreLine(done, lines[2]);
    done := done + [lines[2]];
    request := request + ("Content-Length: " + Decimal(|json|)) + CRLF;
    OneMoreLine(done, lines[3]);
    done := done + [lines[3]];
    request := request + "Connection: close" + CRLF;
    OneMoreLine(done, lines[4]);
    done := done + [lines[4]];
    assert done == lines;
    request := request + CRLF + json;
  }

  lemma PlainLine(head: string, tail: string)
    requires OneLine(head) && '\r' !in tail
    ensures OneLine(head + tail)
  {
  }

  lemma PlainLines(host: string, port: int, length: nat)
    requires '\r' !in host
    ensures forall line <- HeaderLines(host, port, length) :: OneLine(line)
  {
    hide OneLine, SignedDecimal, Decimal;
    SignDecidesHead(port);
    LiteralLines();
    PlainLine("Host: ", host);
    PlainLine("Host: " + host, ":");
    PlainLine("Host: " + host + ":", SignedDecimal(port));
    PlainLine("Content-Length: ", Decimal(length));
  }

  lemma LiteralLines()
    ensures OneLine("POST /api/event HTTP/1.1") && OneLine("Host: ") && OneLine("Content-Type: application/json")
    ensures OneLine("Content-Length: ") && OneLine("Connection: close")
  {
  }

  lemma FourFields(a: Field, b: Field, c: Field, d: Field)
    ensures FieldLines([a, b, c, d]) == [FieldLine(a), FieldLine(b), FieldLine(c), FieldLine(d)]
  {
    hide FieldLine;
    assert [a, b, c, d][1..] == [b, c, d] && [b, c, d][1..] == [c, d] && [c, d][1..] == [d] && [d][1..] == [];
    assert FieldLines([d]) == [FieldLine(d)] && FieldLines([c, d]) == [FieldLine(c), FieldLine(d)];
  }

  lemma ThirdOfFour(a: Field, b: Field, c: Field, d: Field)
    requires a.name != c.name && b.name != c.name
    ensures FieldValue([a, b, c, d], c.name) == Some(c.value)
  {
    assert [a, b, c, d][1..] == [b, c, d] && [b, c, d][1..] == [c, d];
    assert FieldValue([c, d], c.name) == Some(c.value);
  }

  /** The literal heads of the lines are the names of the fields. */
  lemma FixedLines()
    ensures "POST" + " " + "/api/event" + " " + "HTTP/1.1" == "POST /api/event HTTP/1.1"
    ensures "Content-Type" + ": " + "application/json" == "Content-Type: application/json"
  {
  }

  lemma FixedHeads()
    ensures "Host" + ": " == "Host: " && "Content-Length" + ": " == "Content-Length: "
    ensures "Connection" + ": " + "close" == "Connection: close"
  {
  }

  lemma LinesWritten(e: SecurityEvent, host: string, port: int)
    ensures MessageLines(RequestMessage(e, host, port)) == HeaderLines(host, port, |Body(e)|)
  {
    hide Body, SignedDecimal, Decimal, FieldLines;
    var fields := RequestMessage(e, host, port).fields;
    FourFields(fields[0], fields[1], fields[2], fields[3]);
    FixedLines();
    FixedHeads();
    assert "Host: " + (host + ":" + SignedDecimal(port)) == "Host: " + host + ":" + SignedDecimal(port);
  }

  lemma NamesPlain()
    ensures ' ' !in "POST" && ' ' !in "/api/event"
    ensures ':' !in "Host" && ':' !in "Content-Type" && ':' !in "Content-Length" && ':' !in "Connection"
  {
  }

  lemma NamesDiffer()
    ensures "Host" != "Content-Length" && "Content-Type" != "Content-Length"
  {
    assert "Content-Length"[0] == 'C' && "Host"[0] == 'H';
    assert "Content-Length"[8] == 'L' && "Content-Type"[8] == 'T';
  }

  /** A reader of HTTP messages understands the request as a POST of the body to /api/event on this host,
      in JSON, of the length it has. */
  lemma RequestUnderstood(e: SecurityEvent, host: string, port: int)
    requires '\r' !in host
    ensures ReadMessage(RequestText(e, host, port)) == Some(RequestMessage(e, host, port))
  {
    hide Body, OneLine, ReadMessage, HeaderLines, MessageLines, FieldValue, FieldLines, SignedDecimal, Decimal;
    var m := RequestMessage(e, host, port);
    PlainLines(host, port, |Body(e)|);
    LinesWritten(e, host, port);
    NamesPlain();
    NamesDiffer();
    ThirdOfFour(m.fields[0], m.fields[1], m.fields[2], m.fields[3]);
    MessageReads(m, "");
    assert m.body + "" == m.body;
  }

  /** The whole way: what the dashboard does with a request is to store the report it was made for. */
  lemma RequestStoresReport(e: SecurityEvent, host: string, port: int, now: int)
    requires QuoteFree(e) && '\r' !in host
    ensures Route(RequestText(e, host, port), now) == Some(Request.Post(PostedOf(e), now))
  {
    hide ReadMessage, ReadBody, Body, PostedOf, RequestText;
    RequestUnderstood(e, host, port);
    BodyReadBack(e);
  }

  /** A reader that stops at the first blank line finds a body of the length the header declares. */
  lemma DeclaredLengthIsBodyLength(e: SecurityEvent, host: string, port: int)
    requires '\r' !in host
    ensures var (lines, body) := SplitHead(RequestText(e, host, port));
            |lines| == 5 && body == Body(e) && lines[3] == "Content-Length: " + Decimal(|body|)
  {
    hide OneLine, SplitHead;
    PlainLines(host, port, |Body(e)|);
    ReadWhatWasWritten(HeaderLines(host, port, |Body(e)|), Body(e));
  }
}
