/** HTTP request messages (RFC 9112): how their lines are written, and a reader for them. */
module Http {
  import opened Options
  import opened Formatting
  import opened Json

  const CRLF := "\r\n"

  function Lines(lines: seq<string>): string {
    if lines == [] then "" else lines[0] + CRLF + Lines(lines[1..])
  }

  lemma {:induction false} OneMoreLine(lines: seq<string>, line: string)
    ensures Lines(lines + [line]) == Lines(lines) + line + CRLF
  {
    var all := lines + [line];
    if lines == [] {
      assert all == [line] && all[1..] == [];
    } else {
      assert all[0] == lines[0] && all[1..] == lines[1..] + [line];
      OneMoreLine(lines[1..], line);
      Regroup(lines[0], CRLF, Lines(lines[1..]), line, CRLF);
    }
  }

  lemma Regroup(a: string, b: string, c: string, d: string, e: string)
    ensures a + b + (c + d + e) == (a + b + c) + d + e
  {
  }

  // ---------- Reading ----------

  datatype Message = Message(verb: string, target: string, version: string, fields: seq<Field>, body: string)

  /** A header field; names are compared as they are written. */
  datatype Field = Field(name: string, value: string)

  /** Where the first line of s ends; the length of s if it holds no line break. */
  function LineEnd(s: string): (n: nat)
    ensures n <= |s|
    ensures n < |s| ==> n + 2 <= |s|
  {
    if |s| < 2 then |s|
    else if s[..2] == CRLF then 0
    else 1 + LineEnd(s[1..])
  }

  /** The header lines up to the first blank line, and everything after it. */
  function SplitHead(s: string): (r: (seq<string>, string))
    decreases |s|
  {
    var n := LineEnd(s);
    if n >= |s| then ([], s)
    else if n == 0 then ([], s[2..])
    else
      var (lines, body) := SplitHead(s[n + 2..]);
      ([s[..n]] + lines, body)
  }

  lemma {:induction false} LineEndsAtBreak(line: string, rest: string)
    requires '\r' !in line
    ensures LineEnd(line + CRLF + rest) == |line|
  {
    var s := line + CRLF + rest;
    if line == "" {
      assert s[..2] == CRLF;
    } else {
      assert s[0] == line[0] && s[..2][0] != CRLF[0];
      LineEndsAtBreak(line[1..], rest);
      assert s[1..] == line[1..] + CRLF + rest;
    }
  }

  lemma {:induction false} ReadWhatWasWritten(lines: seq<string>, body: string)
    requires forall line <- lines :: OneLine(line)
    ensures SplitHead(Lines(lines) + CRLF + body) == (lines, body)
  {
    var s := Lines(lines) + CRLF + body;
    if lines == [] {
      assert s == "" + CRLF + body;
      LineEndsAtBreak("", body);
      assert s[2..] == body;
    } else {
      var rest := Lines(lines[1..]) + CRLF + body;
      assert lines[0] in lines && OneLine(lines[0]);
      assert s == lines[0] + CRLF + rest;
      LineEndsAtBreak(lines[0], rest);
      assert s[..|lines[0]|] == lines[0] && s[|lines[0]| + 2..] == rest;
      ReadWhatWasWritten(lines[1..], body);
      assert lines == [lines[0]] + lines[1..];
    }
  }

  /** Lines that a reader takes for neither two lines nor a blank one. */
  predicate OneLine(line: string) {
    line != "" && '\r' !in line
  }

  /** The two parts of s around the first c, if there is one. */
  function SplitAt(s: string, c: char): Option<(string, string)> {
    var n := IndexOf(s, c);
    if n == |s| then None else Some((s[..n], s[n + 1..]))
  }

  lemma SplitReads(a: string, c: char, b: string)
    requires c !in a
    ensures SplitAt(a + [c] + b, c) == Some((a, b))
  {
    IndexAfter(a, c, b);
    var s := a + [c] + b;
    assert s[..|a|] == a && s[|a| + 1..] == b;
  }

  /** Method, target and version, each separated from the next by one space. */
  function ReadRequestLine(line: string): Option<(string, string, string)> {
    match SplitAt(line, ' ')
    case None => None
    case Some((verb, rest)) =>
      match SplitAt(rest, ' ')
      case None => None
      case Some((target, version)) => Some((verb, target, version))
  }

  /** Name and value around the first colon, with one space before the value. */
  function ReadField(line: string): Option<Field> {
    match SplitAt(line, ':')
    case None => None
    case Some((name, rest)) => if rest != "" && rest[0] == ' ' then Some(Field(name, rest[1..])) else None
  }

  function ReadFields(lines: seq<string>): Option<seq<Field>> {
    if lines == [] then Some([])
    else match (ReadField(lines[0]), ReadFields(lines[1..]))
      case (Some(field), Some(fields)) => Some([field] + fields)
      case _ => None
  }

  /** The value of the first field with this name. */
  function FieldValue(fields: seq<Field>, name: string): Option<string> {
    if fields == [] then None
    else if fields[0].name == name then Some(fields[0].value)
    else FieldValue(fields[1..], name)
  }

  /** The number some text consists of, if it is all digits. */
  function ReadLength(s: string): Option<nat> {
    if s != "" && DigitCount(s) == |s| then
      assert s[..|s|] == s;
      Some(DecimalValue(s))
    else None
  }

  /** A whole request. The body is as many characters as the header declares, and none if it declares
      nothing; a text that holds fewer is no request. */
  function ReadMessage(s: string): Option<Message> {
    var (lines, rest) := SplitHead(s);
    if lines == [] then None
    else match (ReadRequestLine(lines[0]), ReadFields(lines[1..]))
      case (Some((verb, target, version)), Some(fields)) =>
        var declared := FieldValue(fields, "Content-Length");
        if declared.None? then Some(Message(verb, target, version, fields, ""))
        else
          var length := ReadLength(declared.value);
          if length.None? || |rest| < length.value then None
          else Some(Message(verb, target, version, fields, rest[..length.value]))
      case _ => None
  }

  /** How a field is written. */
  function FieldLine(field: Field): string {
    field.name + ": " + field.value
  }

  lemma FieldReads(field: Field)
    requires ':' !in field.name
    ensures ReadField(FieldLine(field)) == Some(field)
  {
    var rest := " " + field.value;
    assert FieldLine(field) == field.name + [':'] + rest;
    SplitReads(field.name, ':', rest);
    assert rest[1..] == field.value;
  }

  function FieldLines(fields: seq<Field>): (lines: seq<string>)
    ensures |lines| == |fields|
  {
    if fields == [] then [] else [FieldLine(fields[0])] + FieldLines(fields[1..])
  }

  lemma {:induction false} FieldsRead(fields: seq<Field>)
    requires forall f <- fields :: ':' !in f.name
    ensures ReadFields(FieldLines(fields)) == Some(fields)
  {
    hide ReadField, FieldLine;
    if fields != [] {
      FieldReads(fields[0]);
      FieldsRead(fields[1..]);
      assert FieldLines(fields)[1..] == FieldLines(fields[1..]);
      assert fields == [fields[0]] + fields[1..];
    }
  }

  lemma RequestLineReads(verb: string, target: string, version: string)
    requires ' ' !in verb && ' ' !in target
    ensures ReadRequestLine(verb + " " + target + " " + version) == Some((verb, target, version))
  {
    hide SplitAt;
    assert verb + " " + target + " " + version == verb + [' '] + (target + [' '] + version);
    SplitReads(verb, ' ', target + [' '] + version);
    SplitReads(target, ' ', version);
  }

  lemma LengthReads(n: nat)
    ensures ReadLength(Decimal(n)) == Some(n)
  {
    DecimalValueOf(n);
    DigitsCounted(Decimal(n), "");
    assert Decimal(n) + "" == Decimal(n);
  }

  /** A message written with a correct length is read as what it was written from, whatever follows it. */
  lemma MessageReads(m: Message, more: string)
    requires ' ' !in m.verb && ' ' !in m.target
    requires forall f <- m.fields :: ':' !in f.name
    requires FieldValue(m.fields, "Content-Length") == Some(Decimal(|m.body|))
    requires forall line <- MessageLines(m) :: OneLine(line)
    ensures ReadMessage(Lines(MessageLines(m)) + CRLF + (m.body + more)) == Some(m)
  {
    hide OneLine, SplitHead, ReadRequestLine, ReadFields, ReadLength, Decimal;
    var lines := MessageLines(m);
    ReadWhatWasWritten(lines, m.body + more);
    assert lines[0] == m.verb + " " + m.target + " " + m.version && lines[1..] == FieldLines(m.fields);
    RequestLineReads(m.verb, m.target, m.version);
    FieldsRead(m.fields);
    LengthReads(|m.body|);
    assert (m.body + more)[..|m.body|] == m.body;
  }

  function MessageLines(m: Message): seq<string> {
    [m.verb + " " + m.target + " " + m.version] + FieldLines(m.fields)
  }
}
