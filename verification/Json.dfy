/** Flat JSON objects (section 4 of RFC 8259) without white space or escapes: how they are written, and
    a reader for them. */
module Json {
  import opened Options
  import opened Formatting

  datatype Value = Text(text: string) | Number(number: int)

  datatype Member = Member(key: string, value: Value)

  function ValueText(v: Value): string {
    match v
    case Text(text) => "\"" + text + "\""
    case Number(number) => SignedDecimal(number)
  }

  function MemberText(m: Member): string {
    "\"" + m.key + "\":" + ValueText(m.value)
  }

  function MembersText(members: seq<Member>): string {
    if members == [] then ""
    else if |members| == 1 then MemberText(members[0])
    else MemberText(members[0]) + "," + MembersText(members[1..])
  }

  function ObjectText(members: seq<Member>): string {
    "{" + MembersText(members) + "}"
  }

  lemma {:induction false} MembersTextGrows(members: seq<Member>, m: Member)
    requires members != []
    ensures MembersText(members + [m]) == MembersText(members) + "," + MemberText(m)
  {
    hide MemberText;
    var all := members + [m];
    assert all[0] == members[0] && all[1..] == members[1..] + [m];
    if |members| == 1 {
      assert all[1..] == [m];
    } else {
      MembersTextGrows(members[1..], m);
      Reassociate(MemberText(members[0]), ",", MembersText(members[1..]), ",", MemberText(m));
    }
  }

  lemma Reassociate(a: string, b: string, c: string, d: string, e: string)
    ensures a + b + (c + d + e) == (a + b + c) + d + e
  {
  }

  // ---------- Reading ----------

  /** Where c first occurs in s; the length of s if it does not. */
  function IndexOf(s: string, c: char): (n: nat)
    ensures n <= |s|
  {
    if s == "" || s[0] == c then 0 else 1 + IndexOf(s[1..], c)
  }

  /** How many digits s begins with. */
  function DigitCount(s: string): (n: nat)
    ensures n <= |s|
    ensures forall c <- s[..n] :: IsDigit(c)
  {
    if s == "" || !IsDigit(s[0]) then 0
    else
      var rest := DigitCount(s[1..]);
      assert s[..1 + rest] == [s[0]] + s[1..][..rest];
      1 + rest
  }

  /** A string in quotes, and what follows it. */
  function ReadText(s: string): (r: Option<(string, string)>)
    ensures r.Some? ==> |r.value.1| < |s|
  {
    if s == "" || s[0] != '\"' then None
    else
      var n := IndexOf(s[1..], '\"');
      if n + 1 == |s| then None else Some((s[1..n + 1], s[n + 2..]))
  }

  /** A number with an optional minus sign, and what follows it. */
  function ReadNumber(s: string): (r: Option<(int, string)>)
    ensures r.Some? ==> |r.value.1| < |s|
  {
    var negative := s != "" && s[0] == '-';
    var digits := if negative then s[1..] else s;
    var n := DigitCount(digits);
    if n == 0 then None
    else
      var magnitude: int := DecimalValue(digits[..n]);
      Some((if negative then -magnitude else magnitude, digits[n..]))
  }

  function ReadValue(s: string): (r: Option<(Value, string)>)
    ensures r.Some? ==> |r.value.1| < |s|
  {
    match ReadText(s)
    case Some((text, rest)) => Some((Text(text), rest))
    case None =>
      match ReadNumber(s)
      case Some((number, rest)) => Some((Number(number), rest))
      case None => None
  }

  function ReadMember(s: string): (r: Option<(Member, string)>)
    ensures r.Some? ==> |r.value.1| < |s|
  {
    match ReadText(s)
    case None => None
    case Some((key, rest)) =>
      if rest == "" || rest[0] != ':' then None
      else match ReadValue(rest[1..])
        case None => None
        case Some((value, after)) => Some((Member(key, value), after))
  }

  /** Members up to the closing brace, which must end the text. */
  function ReadMembers(s: string): Option<seq<Member>>
    decreases |s|
  {
    match ReadMember(s)
    case None => None
    case Some((m, rest)) =>
      if rest == "}" then Some([m])
      else if rest == "" || rest[0] != ',' then None
      else match ReadMembers(rest[1..])
        case None => None
        case Some(members) => Some([m] + members)
  }

  function ReadObject(s: string): Option<seq<Member>> {
    if s == "{}" then Some([])
    else if s == "" || s[0] != '{' then None
    else ReadMembers(s[1..])
  }

  // ---------- Reading what was written ----------

  predicate Quotable(s: string) {
    '\"' !in s
  }

  predicate Writable(m: Member) {
    Quotable(m.key) && (m.value.Text? ==> Quotable(m.value.text))
  }

  lemma {:induction false} IndexAfter(s: string, c: char, rest: string)
    requires c !in s
    ensures IndexOf(s + [c] + rest, c) == |s|
  {
    var all := s + [c] + rest;
    if s == "" {
      assert all[0] == c;
    } else {
      assert all[0] == s[0] && all[1..] == s[1..] + [c] + rest;
      IndexAfter(s[1..], c, rest);
    }
  }

  lemma TextReads(text: string, rest: string)
    requires Quotable(text)
    ensures ReadText("\"" + text + "\"" + rest) == Some((text, rest))
  {
    var s := "\"" + text + "\"" + rest;
    assert s[1..] == text + ['\"'] + rest;
    IndexAfter(text, '\"', rest);
    assert s[1..|text| + 1] == text && s[|text| + 2..] == rest;
  }

  lemma {:induction false} DigitsCounted(digits: string, rest: string)
    requires forall c <- digits :: IsDigit(c)
    requires rest == "" || !IsDigit(rest[0])
    ensures DigitCount(digits + rest) == |digits|
  {
    var all := digits + rest;
    if digits == "" {
      assert all == rest;
    } else {
      assert all[0] == digits[0] && digits[0] in digits && all[1..] == digits[1..] + rest;
      DigitsCounted(digits[1..], rest);
    }
  }

  lemma NumberReads(number: int, rest: string)
    requires rest == "" || !IsDigit(rest[0])
    ensures ReadNumber(SignedDecimal(number) + rest) == Some((number, rest))
  {
    var s, magnitude := SignedDecimal(number) + rest, if number < 0 then -number else number;
    hide Decimal, DecimalValue, DigitCount;
    SignDecidesHead(number);
    DigitsCounted(Decimal(magnitude), rest);
    DecimalValueOf(magnitude);
    var digits := if number < 0 then s[1..] else s;
    assert digits == Decimal(magnitude) + rest;
    assert digits[..|Decimal(magnitude)|] == Decimal(magnitude) && digits[|Decimal(magnitude)|..] == rest;
  }

  lemma ValueReads(v: Value, rest: string)
    requires v.Text? ==> Quotable(v.text)
    requires rest == "" || !IsDigit(rest[0])
    ensures ReadValue(ValueText(v) + rest) == Some((v, rest))
  {
    hide ReadText, ReadNumber, SignedDecimal, Quotable;
    match v
    case Text(text) => TextReads(text, rest);
    case Number(number) =>
      NumberReads(number, rest);
      SignDecidesHead(number);
      assert SignedDecimal(number)[0] in SignedDecimal(number);
      NoTextThere(SignedDecimal(number) + rest);
  }

  lemma NoTextThere(s: string)
    requires s != "" && s[0] != '\"'
    ensures ReadText(s).None?
  {
  }

  lemma MemberReads(m: Member, rest: string)
    requires Writable(m) && (rest == "" || !IsDigit(rest[0]))
    ensures ReadMember(MemberText(m) + rest) == Some((m, rest))
  {
    hide ReadText, ReadValue, ValueText, Quotable;
    var after := ":" + ValueText(m.value) + rest;
    assert MemberText(m) + rest == "\"" + m.key + "\"" + after;
    TextReads(m.key, after);
    assert after[1..] == ValueText(m.value) + rest;
    ValueReads(m.value, rest);
  }

  lemma {:induction false} MembersRead(members: seq<Member>)
    requires members != [] && forall m <- members :: Writable(m)
    ensures ReadMembers(MembersText(members) + "}") == Some(members)
  {
    hide ReadMember, MemberText, Writable;
    var m := members[0];
    assert m in members;
    if |members| == 1 {
      MemberReads(m, "}");
      assert members == [m];
    } else {
      var rest := "," + (MembersText(members[1..]) + "}");
      assert MembersText(members) + "}" == MemberText(m) + rest;
      MemberReads(m, rest);
      assert rest[1..] == MembersText(members[1..]) + "}" && rest != "}";
      MembersRead(members[1..]);
      assert members == [m] + members[1..];
    }
  }

  /** What is written as an object is read back as it was, in order. */
  lemma ObjectReads(members: seq<Member>)
    requires forall m <- members :: Writable(m)
    ensures ReadObject(ObjectText(members)) == Some(members)
  {
    hide ReadMembers, MemberText, Writable;
    var s := ObjectText(members);
    if members == [] {
      assert s == "{}";
    } else {
      MembersRead(members);
      assert s[1..] == MembersText(members) + "}";
      NotEmptyText(members);
    }
  }

  lemma NotEmptyText(members: seq<Member>)
    requires members != []
    ensures ObjectText(members) != "{}"
  {
    assert ObjectText(members)[1] == '\"';
  }
}
