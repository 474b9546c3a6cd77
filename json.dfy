/**
 * The change payload of an audit entry and its text form.
 *
 * `AuditLogService.LogAsync` stores `JsonSerializer.Serialize(changes)` for a
 * non-null payload. The payloads the system logs are anonymous objects whose
 * properties are strings, numbers or further anonymous objects, so a payload
 * is modelled as a small key/value tree and its text form as a JSON object
 * written without whitespace. `Parse` reads that text back; the round trip
 * `Parse(Serialize(p)) == Some(p)` is what lets a reader recover the keys
 * ("Old", "New") and the values ("Test Listing") of a stored entry.
 */
module Json {
  import opened Wrappers
  import Text

  datatype Payload = Str(s: string) | Num(n: int) | Obj(members: seq<Member>)
  datatype Member = Member(key: string, value: Payload)

  predicate IsDigit(c: char)
  {
    '0' <= c <= '9'
  }

  predicate AllDigits(s: string)
  {
    forall i :: 0 <= i < |s| ==> IsDigit(s[i])
  }

  /** Strings are written without escapes, so only quote-free text round-trips. */
  predicate NoQuote(s: string)
  {
    forall i :: 0 <= i < |s| ==> s[i] != '"'
  }

  predicate WellFormed(p: Payload)
    decreases p
  {
    match p
    case Str(s) => NoQuote(s)
    case Num(_) => true
    case Obj(ms) => WellFormedMembers(ms)
  }

  predicate WellFormedMembers(ms: seq<Member>)
    decreases ms
  {
    ms == [] || (NoQuote(ms[0].key) && WellFormed(ms[0].value) && WellFormedMembers(ms[1..]))
  }

  // ---------------------------------------------------------------- numbers

  function DigitChar(d: int): (c: char)
    requires 0 <= d < 10
    ensures IsDigit(c)
  {
    ('0' as int + d) as char
  }

  function DigitValue(c: char): (d: nat)
    requires IsDigit(c)
    ensures d < 10
  {
    c as int - '0' as int
  }

  /** Decimal digits of `n`, most significant first, without leading zeros. */
  function Digits(n: nat): (r: string)
    ensures |r| > 0 && AllDigits(r)
  {
    if n < 10 then [DigitChar(n)] else Digits(n / 10) + [DigitChar(n % 10)]
  }

  /** The number a run of decimal digits denotes. */
  function DigitsValue(ds: string): nat
    requires AllDigits(ds)
  {
    if ds == [] then 0 else DigitsValue(ds[..|ds| - 1]) * 10 + DigitValue(ds[|ds| - 1])
  }

  lemma {:induction false} DigitsRoundTrip(n: nat)
    ensures DigitsValue(Digits(n)) == n
  {
    if n >= 10 {
      var ds := Digits(n);
      assert ds[..|ds| - 1] == Digits(n / 10);
      DigitsRoundTrip(n / 10);
    }
  }

  function NumberText(n: int): (r: string)
    ensures |r| > 0
  {
    if n < 0 then "-" + Digits(-n) else Digits(n)
  }

  // ------------------------------------------------------------ serialising

  function Quote(s: string): string
  {
    "\"" + s + "\""
  }

  function Serialize(p: Payload): (r: string)
    decreases p
  {
    match p
    case Str(s) => Quote(s)
    case Num(n) => NumberText(n)
    case Obj(ms) => "{" + SerializeMembers(ms) + "}"
  }

  function SerializeMembers(ms: seq<Member>): string
    decreases ms
  {
    if ms == [] then ""
    else if |ms| == 1 then SerializeMember(ms[0])
    else SerializeMember(ms[0]) + "," + SerializeMembers(ms[1..])
  }

  function SerializeMember(m: Member): string
    decreases m
  {
    Quote(m.key) + ":" + Serialize(m.value)
  }

  // ---------------------------------------------------------------- parsing

  /** Length of the quote-free prefix of `s`. */
  function QuoteEnd(s: string): (k: nat)
    ensures k <= |s|
    ensures NoQuote(s[..k])
    ensures k < |s| ==> s[k] == '"'
  {
    if s == [] || s[0] == '"' then 0 else 1 + QuoteEnd(s[1..])
  }

  /** Length of the run of digits that starts `s`. */
  function DigitRun(s: string): (k: nat)
    ensures k <= |s|
    ensures AllDigits(s[..k])
    ensures k < |s| ==> !IsDigit(s[k])
  {
    if s == [] || !IsDigit(s[0]) then 0 else 1 + DigitRun(s[1..])
  }

  /** A quoted string at the start of `s`, and what follows it. */
  function ParseQuoted(s: string): (r: Option<(string, string)>)
    ensures r.Some? ==> NoQuote(r.value.0) && |r.value.1| < |s|
  {
    if s == [] || s[0] != '"' then None
    else
      var k := QuoteEnd(s[1..]);
      assert s[1..k + 1] == s[1..][..k];
      if k == |s| - 1 then None else Some((s[1..k + 1], s[k + 2..]))
  }

  /** A run of digits at the start of `s`, read as a number, and what follows it. */
  function ParseDigits(s: string): (r: Option<(nat, string)>)
    ensures r.Some? ==> |r.value.1| < |s|
  {
    var k := DigitRun(s);
    if k == 0 then None else Some((DigitsValue(s[..k]), s[k..]))
  }

  /** A value at the start of `s`, and what follows it. */
  function ParseValue(s: string): (r: Option<(Payload, string)>)
    ensures r.Some? ==> |r.value.1| < |s|
    decreases |s|, 2
  {
    if s == [] then None
    else if s[0] == '"' then
      match ParseQuoted(s)
      case None => None
      case Some((t, rest)) => Some((Str(t), rest))
    else if s[0] == '-' then
      match ParseDigits(s[1..])
      case None => None
      case Some((n, rest)) => Some((Num(0 - n), rest))
    else if IsDigit(s[0]) then
      match ParseDigits(s)
      case None => None
      case Some((n, rest)) => Some((Num(n), rest))
    else if s[0] == '{' then
      if |s| >= 2 && s[1] == '}' then Some((Obj([]), s[2..]))
      else
        match ParseMembers(s[1..])
        case None => None
        case Some((ms, rest)) => Some((Obj(ms), rest))
    else None
  }

  /** One or more members separated by commas and closed by a brace. */
  function ParseMembers(s: string): (r: Option<(seq<Member>, string)>)
    ensures r.Some? ==> |r.value.1| < |s|
    decreases |s|, 1
  {
    match ParseMember(s)
    case None => None
    case Some((m, rest)) =>
      if rest != [] && rest[0] == ',' then
        match ParseMembers(rest[1..])
        case None => None
        case Some((ms, rest')) => Some(([m] + ms, rest'))
      else if rest != [] && rest[0] == '}' then Some(([m], rest[1..]))
      else None
  }

  /** A `"key":value` pair at the start of `s`, and what follows it. */
  function ParseMember(s: string): (r: Option<(Member, string)>)
    ensures r.Some? ==> |r.value.1| < |s|
    decreases |s|, 0
  {
    match ParseQuoted(s)
    case None => None
    case Some((key, rest)) =>
      if rest != [] && rest[0] == ':' then
        match ParseValue(rest[1..])
        case None => None
        case Some((v, rest')) => Some((Member(key, v), rest'))
      else None
  }

  /** The payload a whole text denotes, if it is exactly one value. */
  function Parse(s: string): Option<Payload>
  {
    match ParseValue(s)
    case Some((p, rest)) => if rest == [] then Some(p) else None
    case None => None
  }

  /**
   * The value of a member named `key` of an object (`JsonElement.TryGetProperty`,
   * which throws on any value that is not an object). Names are unique in the
   * payloads logged, so which duplicate wins does not arise.
   */
  function TryGetProperty(p: Payload, key: string): (r: Option<Payload>)
    requires p.Obj?
    ensures r.Some? ==> exists i :: 0 <= i < |p.members| && p.members[i] == Member(key, r.value)
    ensures r.None? ==> forall i :: 0 <= i < |p.members| ==> p.members[i].key != key
  {
    FindMember(p.members, key)
  }

  function FindMember(ms: seq<Member>, key: string): (r: Option<Payload>)
    ensures r.Some? ==> exists i :: 0 <= i < |ms| && ms[i] == Member(key, r.value)
    ensures r.None? ==> forall i :: 0 <= i < |ms| ==> ms[i].key != key
  {
    if ms == [] then None
    else if ms[0].key == key then Some(ms[0].value)
    else
      var r := FindMember(ms[1..], key);
      assert r.Some? ==> exists i :: 0 < i < |ms| && ms[i] == Member(key, r.value) by {
        if r.Some? {
          var j :| 0 <= j < |ms[1..]| && ms[1..][j] == Member(key, r.value);
          assert ms[j + 1] == Member(key, r.value);
        }
      }
      r
  }

  // ------------------------------------------------------------- round trip

  lemma {:induction false} QuoteEndOf(s: string, rest: string)
    requires NoQuote(s)
    ensures QuoteEnd(s + "\"" + rest) == |s|
  {
    if s != [] {
      assert (s + "\"" + rest)[1..] == s[1..] + "\"" + rest;
      QuoteEndOf(s[1..], rest);
    }
  }

  lemma ParseQuotedRoundTrip(s: string, rest: string)
    requires NoQuote(s)
    ensures ParseQuoted(Quote(s) + rest) == Some((s, rest))
  {
    var t := Quote(s) + rest;
    assert t[1..] == s + "\"" + rest;
    QuoteEndOf(s, rest);
    assert t[1..|s| + 1] == s;
    assert t[|s| + 2..] == rest;
  }

  lemma {:induction false} DigitRunOf(ds: string, rest: string)
    requires AllDigits(ds)
    requires rest == [] || !IsDigit(rest[0])
    ensures DigitRun(ds + rest) == |ds|
  {
    if ds != [] {
      assert (ds + rest)[1..] == ds[1..] + rest;
      DigitRunOf(ds[1..], rest);
    }
  }

  lemma ParseDigitsRoundTrip(n: nat, rest: string)
    requires rest == [] || !IsDigit(rest[0])
    ensures ParseDigits(Digits(n) + rest) == Some((n, rest))
  {
    var ds := Digits(n);
    DigitRunOf(ds, rest);
    assert (ds + rest)[..|ds|] == ds;
    assert (ds + rest)[|ds|..] == rest;
    DigitsRoundTrip(n);
  }

  /** Reading back the text of a well-formed payload gives the payload and leaves what follows. */
  lemma {:induction false} ParseValueRoundTrip(p: Payload, rest: string)
    requires WellFormed(p)
    requires rest == [] || !IsDigit(rest[0])
    ensures ParseValue(Serialize(p) + rest) == Some((p, rest))
    decreases p, 0
  {
    match p
    case Str(s) =>
      ParseQuotedRoundTrip(s, rest);
    case Num(n) =>
      NumRoundTrip(n, rest);
    case Obj(ms) =>
      if ms == [] {
        assert Serialize(p) + rest == "{}" + rest;
      } else {
        ParseMembersRoundTrip(ms, rest);
        ObjRoundTrip(ms, rest);
      }
  }

  lemma NumRoundTrip(n: int, rest: string)
    requires rest == [] || !IsDigit(rest[0])
    ensures ParseValue(NumberText(n) + rest) == Some((Num(n), rest))
  {
    if n < 0 {
      NegativeRoundTrip(-n, rest);
    } else {
      NonNegativeRoundTrip(n, rest);
    }
  }

  lemma NegativeRoundTrip(m: nat, rest: string)
    requires m > 0
    requires rest == [] || !IsDigit(rest[0])
    ensures ParseValue(NumberText(-(m as int)) + rest) == Some((Num(-(m as int)), rest))
  {
    var t := "-" + Digits(m) + rest;
    assert t[1..] == Digits(m) + rest;
    ParseDigitsRoundTrip(m, rest);
    NegativeStep(t, m, rest);
    assert NumberText(-(m as int)) + rest == t;
  }

  lemma NonNegativeRoundTrip(n: nat, rest: string)
    requires rest == [] || !IsDigit(rest[0])
    ensures ParseValue(NumberText(n) + rest) == Some((Num(n), rest))
  {
    var t := Digits(n) + rest;
    ParseDigitsRoundTrip(n, rest);
    NonNegativeStep(t, n, rest);
  }

  lemma NegativeStep(t: string, n: nat, rest: string)
    requires t != [] && t[0] == '-'
    requires ParseDigits(t[1..]) == Some((n, rest))
    ensures ParseValue(t) == Some((Num(-(n as int)), rest))
  {
  }

  lemma NonNegativeStep(t: string, n: nat, rest: string)
    requires t != [] && IsDigit(t[0])
    requires ParseDigits(t) == Some((n, rest))
    ensures ParseValue(t) == Some((Num(n), rest))
  {
  }

  lemma ObjRoundTrip(ms: seq<Member>, rest: string)
    requires ms != []
    requires ParseMembers(SerializeMembers(ms) + "}" + rest) == Some((ms, rest))
    ensures ParseValue(Serialize(Obj(ms)) + rest) == Some((Obj(ms), rest))
  {
    var m := SerializeMembers(ms);
    var body := m + "}" + rest;
    MembersOpenWithQuote(ms);
    Enclose(m, rest);
    var t := "{" + body;
    assert t[1..] == body;
    assert t[1] == m[0];
  }

  /** The text of a non-empty member list starts with the opening quote of its first key. */
  lemma MembersOpenWithQuote(ms: seq<Member>)
    requires ms != []
    ensures |SerializeMembers(ms)| > 0 && SerializeMembers(ms)[0] == '"'
  {
    var first := SerializeMember(ms[0]);
    assert first[0] == '"';
    if |ms| > 1 {
      assert SerializeMembers(ms) == first + "," + SerializeMembers(ms[1..]);
    }
  }

  lemma Enclose(m: string, rest: string)
    ensures "{" + m + "}" + rest == "{" + (m + "}" + rest)
  {
  }

  lemma {:induction false} ParseMembersRoundTrip(ms: seq<Member>, rest: string)
    requires ms != [] && WellFormedMembers(ms)
    ensures ParseMembers(SerializeMembers(ms) + "}" + rest) == Some((ms, rest))
    decreases ms, 1
  {
    if |ms| == 1 {
      ParseMemberRoundTrip(ms[0], "}" + rest);
      OneMember(ms, rest);
    } else {
      ParseMemberRoundTrip(ms[0], "," + (SerializeMembers(ms[1..]) + "}" + rest));
      ParseMembersRoundTrip(ms[1..], rest);
      MoreMembers(ms, rest);
    }
  }

  lemma OneMember(ms: seq<Member>, rest: string)
    requires |ms| == 1
    requires ParseMember(SerializeMember(ms[0]) + ("}" + rest)) == Some((ms[0], "}" + rest))
    ensures ParseMembers(SerializeMembers(ms) + "}" + rest) == Some((ms, rest))
  {
    var text := SerializeMembers(ms) + "}" + rest;
    var tail := "}" + rest;
    assert text == SerializeMember(ms[0]) + tail;
    LastMemberStep(text, ms[0], tail);
    assert tail[1..] == rest;
    assert [ms[0]] == ms;
  }

  lemma MoreMembers(ms: seq<Member>, rest: string)
    requires |ms| > 1
    requires ParseMember(SerializeMember(ms[0]) + ("," + (SerializeMembers(ms[1..]) + "}" + rest)))
               == Some((ms[0], "," + (SerializeMembers(ms[1..]) + "}" + rest)))
    requires ParseMembers(SerializeMembers(ms[1..]) + "}" + rest) == Some((ms[1..], rest))
    ensures ParseMembers(SerializeMembers(ms) + "}" + rest) == Some((ms, rest))
  {
    var a, b := SerializeMember(ms[0]), SerializeMembers(ms[1..]);
    var tail := "," + (b + "}" + rest);
    SerializeMembersCons(ms);
    Regroup(a, b, rest);
    DropComma(b + "}" + rest);
    NextMemberStep(a + tail, ms[0], tail, ms[1..], rest);
    assert [ms[0]] + ms[1..] == ms;
  }

  lemma SerializeMembersCons(ms: seq<Member>)
    requires |ms| > 1
    ensures SerializeMembers(ms) == SerializeMember(ms[0]) + "," + SerializeMembers(ms[1..])
  {
  }

  lemma DropComma(body: string)
    ensures ("," + body)[1..] == body
  {
  }

  lemma Regroup(a: string, b: string, rest: string)
    ensures a + "," + b + "}" + rest == a + ("," + (b + "}" + rest))
  {
  }

  lemma LastMemberStep(text: string, m: Member, tail: string)
    requires ParseMember(text) == Some((m, tail))
    requires tail != [] && tail[0] == '}'
    ensures ParseMembers(text) == Some(([m], tail[1..]))
  {
  }

  lemma NextMemberStep(text: string, m: Member, tail: string, ms: seq<Member>, rest: string)
    requires ParseMember(text) == Some((m, tail))
    requires tail != [] && tail[0] == ','
    requires ParseMembers(tail[1..]) == Some((ms, rest))
    ensures ParseMembers(text) == Some(([m] + ms, rest))
  {
  }

  lemma {:induction false} ParseMemberRoundTrip(m: Member, rest: string)
    requires NoQuote(m.key) && WellFormed(m.value)
    requires rest != [] && !IsDigit(rest[0])
    ensures ParseMember(SerializeMember(m) + rest) == Some((m, rest))
    decreases m, 2
  {
    var after := ":" + Serialize(m.value) + rest;
    assert SerializeMember(m) + rest == Quote(m.key) + after;
    ParseQuotedRoundTrip(m.key, after);
    assert after[1..] == Serialize(m.value) + rest;
    ParseValueRoundTrip(m.value, rest);
  }

  /** What a reader of a stored payload text can rely on: it parses back (when well formed) and shows every string value. */
  lemma SerializeFacts(p: Payload)
    ensures WellFormed(p) ==> Parse(Serialize(p)) == Some(p)
    ensures forall v :: Mentions(p, v) ==> Text.Contains(Serialize(p), v)
  {
    if WellFormed(p) {
      ParseSerialize(p);
    }
    forall v | Mentions(p, v)
      ensures Text.Contains(Serialize(p), v)
    {
      MentionedTextAppears(p, v);
    }
  }

  /** Serialising a well-formed payload loses nothing: it parses back to itself. */
  lemma ParseSerialize(p: Payload)
    requires WellFormed(p)
    ensures Parse(Serialize(p)) == Some(p)
  {
    ParseValueRoundTrip(p, []);
    assert Serialize(p) + [] == Serialize(p);
  }

  // ------------------------------------------------------- value containment

  /** `v` is the value of some string anywhere in the payload. */
  predicate Mentions(p: Payload, v: string)
    decreases p
  {
    match p
    case Str(s) => s == v
    case Num(_) => false
    case Obj(ms) => MembersMention(ms, v)
  }

  predicate MembersMention(ms: seq<Member>, v: string)
    decreases ms
  {
    ms != [] && (Mentions(ms[0].value, v) || MembersMention(ms[1..], v))
  }

  /** Every string value of a payload appears verbatim in its text. */
  lemma {:induction false} MentionedTextAppears(p: Payload, v: string)
    requires Mentions(p, v)
    ensures Text.Contains(Serialize(p), v)
    decreases p, 0
  {
    match p
    case Str(s) =>
      Text.ContainsSelf(s);
      Text.ContainsWithin("\"", s, "\"", v);
    case Obj(ms) =>
      MembersTextAppears(ms, v);
      Text.ContainsWithin("{", SerializeMembers(ms), "}", v);
  }

  lemma {:induction false} MembersTextAppears(ms: seq<Member>, v: string)
    requires MembersMention(ms, v)
    ensures Text.Contains(SerializeMembers(ms), v)
    decreases ms, 1
  {
    var m := ms[0];
    var rest := if |ms| == 1 then "" else "," + SerializeMembers(ms[1..]);
    assert SerializeMembers(ms) == SerializeMember(m) + rest;
    if Mentions(m.value, v) {
      MentionedTextAppears(m.value, v);
      Text.ContainsWithin(Quote(m.key) + ":", Serialize(m.value), rest, v);
    } else {
      MembersTextAppears(ms[1..], v);
      Text.ContainsWithin(SerializeMember(m) + ",", SerializeMembers(ms[1..]), "", v);
      assert SerializeMember(m) + "," + SerializeMembers(ms[1..]) + "" == SerializeMembers(ms);
    }
  }
}
