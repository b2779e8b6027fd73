/** The JSON texts the services exchange: flat objects whose members are
    strings, and bare strings. `Stringify` follows `JSON.stringify` for these
    shapes (members whose value is `undefined` are dropped, strings are quoted
    with the escapes of ECMAScript's QuoteJSONString); `Parse` reads the
    compact text back, so that every error a handler serialises into a
    redirect is recovered field by field by whoever parses it. */
module Json {
  import opened Js

  /** One `key: value` of an object literal; a `None` value is `undefined`. */
  datatype Member = Member(key: string, value: Option<string>)

  datatype Json = JStr(text: string) | JObj(members: seq<Member>)

  // ---------------------------------------------------------------------
  // Serialisation

  function HexDigit(d: int): (c: char)
    requires 0 <= d < 16
  {
    if d < 10 then ('0' as int + d) as char else ('a' as int + (d - 10)) as char
  }

  /** The escape sequence JSON.stringify writes for one character. */
  function EscapeChar(c: char): string {
    if c == '"' then "\\\""
    else if c == '\\' then "\\\\"
    else if c as int == 0x08 then "\\b"
    else if c as int == 0x09 then "\\t"
    else if c as int == 0x0A then "\\n"
    else if c as int == 0x0C then "\\f"
    else if c as int == 0x0D then "\\r"
    else if c as int < 0x20 then "\\u00" + [HexDigit(c as int / 16), HexDigit(c as int % 16)]
    else [c]
  }

  function Escape(s: string): string {
    if s == [] then [] else EscapeChar(s[0]) + Escape(s[1..])
  }

  function Quote(s: string): string {
    "\"" + Escape(s) + "\""
  }

  predicate AllPresent(ms: seq<Member>) {
    forall i :: 0 <= i < |ms| ==> ms[i].value.Some?
  }

  /** The members JSON.stringify keeps: those whose value is not `undefined`. */
  function Present(ms: seq<Member>): (r: seq<Member>)
    ensures AllPresent(r)
    ensures |r| <= |ms|
  {
    if ms == [] then []
    else if ms[0].value.Some? then [ms[0]] + Present(ms[1..])
    else Present(ms[1..])
  }

  function MemberText(m: Member): string
    requires m.value.Some?
  {
    Quote(m.key) + ":" + Quote(m.value.value)
  }

  function MembersText(ms: seq<Member>): string
    requires AllPresent(ms)
  {
    if ms == [] then ""
    else if |ms| == 1 then MemberText(ms[0])
    else MemberText(ms[0]) + "," + MembersText(ms[1..])
  }

  function Stringify(j: Json): string {
    match j
    case JStr(t) => Quote(t)
    case JObj(ms) => "{" + MembersText(Present(ms)) + "}"
  }

  /** The value JSON.parse(JSON.stringify(j)) yields. */
  function Normalize(j: Json): Json {
    match j
    case JStr(_) => j
    case JObj(ms) => JObj(Present(ms))
  }

  // ---------------------------------------------------------------------
  // Parsing the compact text

  function HexValue(c: char): (r: Option<int>)
    ensures r.Some? ==> 0 <= r.value < 16
  {
    if '0' <= c <= '9' then Some(c as int - '0' as int)
    else if 'a' <= c <= 'f' then Some(c as int - 'a' as int + 10)
    else if 'A' <= c <= 'F' then Some(c as int - 'A' as int + 10)
    else None
  }

  function Hex4(h: string): (r: Option<int>)
    requires |h| == 4
    ensures r.Some? ==> 0 <= r.value < 0x10000
  {
    match (HexValue(h[0]), HexValue(h[1]), HexValue(h[2]), HexValue(h[3]))
    case (Some(a), Some(b), Some(c), Some(d)) => Some(((a * 16 + b) * 16 + c) * 16 + d)
    case _ => None
  }

  /** Reads one character of a string literal's body (not its closing quote):
      the character and how many text characters it took. */
  function DecodeOne(s: string): (r: Option<(char, nat)>)
    requires s != []
    ensures r.Some? ==> 1 <= r.value.1 <= |s|
  {
    if s[0] == '\\' then
      if |s| < 2 then None
      else if s[1] == '"' then Some(('"', 2))
      else if s[1] == '\\' then Some(('\\', 2))
      else if s[1] == '/' then Some(('/', 2))
      else if s[1] == 'b' then Some((0x08 as char, 2))
      else if s[1] == 't' then Some((0x09 as char, 2))
      else if s[1] == 'n' then Some((0x0A as char, 2))
      else if s[1] == 'f' then Some((0x0C as char, 2))
      else if s[1] == 'r' then Some((0x0D as char, 2))
      else if s[1] == 'u' && |s| >= 6 then
        match Hex4(s[2..6])
        case Some(v) => if v < 0xD800 || 0xE000 <= v then Some((v as char, 6)) else None
        case None => None
      else None
    else if s[0] as int < 0x20 then None
    else Some((s[0], 1))
  }

  /** Reads the body of a string literal up to and including its closing
      quote: the decoded string and the text after the quote. */
  function ParseChars(s: string): (r: Option<(string, string)>)
    ensures r.Some? ==> |r.value.1| < |s|
    decreases |s|
  {
    if s == [] then None
    else if s[0] == '"' then Some(([], s[1..]))
    else
      match DecodeOne(s)
      case None => None
      case Some((c, n)) =>
        match ParseChars(s[n..])
        case None => None
        case Some((t, rest)) => Some(([c] + t, rest))
  }

  function ConsMember(m: Member, r: Option<(seq<Member>, string)>): Option<(seq<Member>, string)> {
    match r
    case None => None
    case Some((more, rest)) => Some(([m] + more, rest))
  }

  /** Reads `"k":"v"` members separated by commas, up to and including the
      closing brace of the object. */
  function ParseMembers(s: string): (r: Option<(seq<Member>, string)>)
    ensures r.Some? ==> |r.value.1| < |s| && AllPresent(r.value.0)
    decreases |s|
  {
    if s == [] || s[0] != '"' then None
    else
      match ParseChars(s[1..])
      case None => None
      case Some((k, r1)) =>
        if |r1| < 2 || r1[0] != ':' || r1[1] != '"' then None
        else
          match ParseChars(r1[2..])
          case None => None
          case Some((v, r2)) =>
            if r2 == [] then None
            else if r2[0] == '}' then Some(([Member(k, Some(v))], r2[1..]))
            else if r2[0] == ',' then ConsMember(Member(k, Some(v)), ParseMembers(r2[1..]))
            else None
  }

  function Parse(s: string): Option<Json> {
    if s == [] then None
    else if s[0] == '"' then
      match ParseChars(s[1..])
      case Some((t, rest)) => if rest == [] then Some(JStr(t)) else None
      case None => None
    else if s[0] == '{' then
      if s[1..] == "}" then Some(JObj([]))
      else
        match ParseMembers(s[1..])
        case Some((ms, rest)) => if rest == [] then Some(JObj(ms)) else None
        case None => None
    else None
  }

  // ---------------------------------------------------------------------
  // Round trip

  lemma HexDigitValue(d: int)
    requires 0 <= d < 16
    ensures HexValue(HexDigit(d)) == Some(d)
  {
  }

  lemma EscapeCharShape(c: char)
    ensures |EscapeChar(c)| >= 1 && EscapeChar(c)[0] != '"'
  {
  }

  lemma DecodeOneEscapeChar(c: char, tail: string)
    ensures EscapeChar(c) + tail != []
    ensures DecodeOne(EscapeChar(c) + tail) == Some((c, |EscapeChar(c)|))
  {
    var s := EscapeChar(c) + tail;
    EscapeCharShape(c);
    if c != '"' && c != '\\' && c as int != 0x08 && c as int != 0x09 && c as int != 0x0A
       && c as int != 0x0C && c as int != 0x0D && c as int < 0x20 {
      var hi, lo := c as int / 16, c as int % 16;
      HexDigitValue(hi);
      HexDigitValue(lo);
      assert s[2..6] == ['0', '0', HexDigit(hi), HexDigit(lo)];
      assert Hex4(s[2..6]) == Some(c as int);
    }
  }

  lemma {:induction false} ParseCharsEscape(t: string, rest: string)
    ensures ParseChars(Escape(t) + "\"" + rest) == Some((t, rest))
  {
    var s := Escape(t) + "\"" + rest;
    if t == [] {
      assert s == "\"" + rest;
    } else {
      var e := EscapeChar(t[0]);
      var tail := Escape(t[1..]) + "\"" + rest;
      assert s == e + tail;
      EscapeCharShape(t[0]);
      DecodeOneEscapeChar(t[0], tail);
      assert s[|e|..] == tail;
      ParseCharsEscape(t[1..], rest);
      assert [t[0]] + t[1..] == t;
    }
  }

  lemma MemberTextSplit(ek: string, ev: string, tail: string)
    ensures ("\"" + ek + "\"") + ":" + ("\"" + ev + "\"") + tail == "\"" + (ek + "\"" + (":\"" + ev + "\"" + tail))
  {
    assert ":\"" == ":" + "\"";
  }

  lemma DropTwo(ev: string, tail: string)
    ensures (":\"" + ev + "\"" + tail)[2..] == ev + "\"" + tail
  {
    assert ":\"" + ev + "\"" + tail == ":\"" + (ev + "\"" + tail);
  }

  /** One member's text followed by `tail` reads back as the member. */
  lemma MemberTextParses(m: Member, tail: string)
    requires m.value.Some?
    ensures var s := MemberText(m) + tail;
      s != [] && s[0] == '"'
      && ParseChars(s[1..]) == Some((m.key, ":\"" + Escape(m.value.value) + "\"" + tail))
      && ParseChars((":\"" + Escape(m.value.value) + "\"" + tail)[2..]) == Some((m.value.value, tail))
  {
    var k, v := m.key, m.value.value;
    var ek, ev := Escape(k), Escape(v);
    var r1 := ":\"" + ev + "\"" + tail;
    MemberTextSplit(ek, ev, tail);
    var s := MemberText(m) + tail;
    assert s == "\"" + (ek + "\"" + r1);
    assert s[1..] == ek + "\"" + r1;
    ParseCharsEscape(k, r1);
    DropTwo(ev, tail);
    ParseCharsEscape(v, tail);
  }

  /** How ParseMembers proceeds once one member has been read. */
  lemma ParseMembersStep(s: string, k: string, r1: string, v: string, tail: string)
    requires s != [] && s[0] == '"' && ParseChars(s[1..]) == Some((k, r1))
    requires |r1| >= 2 && r1[0] == ':' && r1[1] == '"' && ParseChars(r1[2..]) == Some((v, tail))
    requires tail != [] && (tail[0] == '}' || tail[0] == ',')
    ensures tail[0] == '}' ==> ParseMembers(s) == Some(([Member(k, Some(v))], tail[1..]))
    ensures tail[0] == ',' ==> ParseMembers(s) == ConsMember(Member(k, Some(v)), ParseMembers(tail[1..]))
  {
  }

  lemma Concat5(a: string, b: string, c: string, d: string, e: string)
    ensures a + b + c + d + e == a + (b + (c + d + e))
  {
  }

  /** The first member of a list, read back with whatever text follows it. */
  lemma ParseFirstMember(m: Member, tail: string)
    requires m.value.Some?
    requires tail != [] && (tail[0] == '}' || tail[0] == ',')
    ensures tail[0] == '}' ==> ParseMembers(MemberText(m) + tail) == Some(([m], tail[1..]))
    ensures tail[0] == ',' ==> ParseMembers(MemberText(m) + tail) == ConsMember(m, ParseMembers(tail[1..]))
  {
    var k, v := m.key, m.value.value;
    var r1 := ":\"" + Escape(v) + "\"" + tail;
    MemberTextParses(m, tail);
    ParseMembersStep(MemberText(m) + tail, k, r1, v, tail);
  }

  lemma {:induction false} ParseMembersText(ms: seq<Member>, rest: string)
    requires ms != [] && AllPresent(ms)
    ensures ParseMembers(MembersText(ms) + "}" + rest) == Some((ms, rest))
  {
    var m := ms[0];
    if |ms| == 1 {
      var tail := "}" + rest;
      assert MembersText(ms) + "}" + rest == MemberText(m) + tail;
      ParseFirstMember(m, tail);
      assert tail[1..] == rest;
      assert [m] == ms;
    } else {
      var after := MembersText(ms[1..]) + "}" + rest;
      var tail := "," + after;
      assert MembersText(ms) == MemberText(m) + "," + MembersText(ms[1..]);
      Concat5(MemberText(m), ",", MembersText(ms[1..]), "}", rest);
      ParseMembersText(ms[1..], rest);
      assert tail[1..] == after;
      assert ParseMembers(tail[1..]) == Some((ms[1..], rest));
      ParseFirstMember(m, tail);
      assert [m] + ms[1..] == ms;
    }
  }

  lemma StringRoundTrip(t: string)
    ensures Parse(Stringify(JStr(t))) == Some(JStr(t))
  {
    var s := Stringify(JStr(t));
    assert s == "\"" + (Escape(t) + "\"" + []);
    assert s[1..] == Escape(t) + "\"" + [];
    ParseCharsEscape(t, []);
  }

  lemma ObjectRoundTrip(ms: seq<Member>)
    ensures Parse(Stringify(JObj(ms))) == Some(JObj(Present(ms)))
  {
    var ps := Present(ms);
    var s := Stringify(JObj(ms));
    if ps == [] {
      assert s == "{}";
    } else {
      assert s == "{" + (MembersText(ps) + "}" + []);
      assert s[1..] == MembersText(ps) + "}" + [];
      ParseMembersText(ps, []);
    }
  }

  /** Parsing what JSON.stringify wrote gives back the value, minus its
      `undefined` members. */
  lemma ParseStringify(j: Json)
    ensures Parse(Stringify(j)) == Some(Normalize(j))
  {
    match j
    case JStr(t) => StringRoundTrip(t);
    case JObj(ms) => ObjectRoundTrip(ms);
  }

  /** Two values serialise to the same text only if they are the same JSON. */
  lemma StringifyInjective(a: Json, b: Json)
    requires Stringify(a) == Stringify(b)
    ensures Normalize(a) == Normalize(b)
  {
    ParseStringify(a);
    ParseStringify(b);
  }

  lemma {:induction false} PresentOfAllPresent(ms: seq<Member>)
    requires AllPresent(ms)
    ensures Present(ms) == ms
  {
    if ms != [] {
      PresentOfAllPresent(ms[1..]);
    }
  }

  /** JSON.stringify never gives the empty text: a string starts with a
      quote, an object with a brace. */
  lemma {:induction false} StringifyNonEmpty(j: Json)
    ensures Stringify(j) != "" && Stringify(j)[0] in "\"{"
  {
    match j
    case JStr(t) =>
      assert Stringify(j) == "\"" + Escape(t) + "\"";
    case JObj(ms) =>
      assert Stringify(j) == "{" + MembersText(Present(ms)) + "}";
  }

  /** Escaping never shortens a string. */
  lemma {:induction false} EscapeLength(s: string)
    ensures |Escape(s)| >= |s|
  {
    if s != [] {
      EscapeLength(s[1..]);
    }
  }
}
