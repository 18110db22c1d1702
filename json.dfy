/**
 * The JSON text that `JSON.stringify` produces for the flat objects the
 * subscription endpoint writes: objects whose values are booleans or strings,
 * with their members in insertion order and no whitespace.  String escaping
 * follows QuoteJSONString of ECMA-262 (section 25.5.2.3): the seven short
 * escapes, `\u00xx` with lower-case hex digits for the other control
 * characters, and every other character as itself.
 *
 * `ParseObject` reads such text back; the round-trip lemma shows that the
 * serialised form loses nothing.
 */
module Json {
  import opened Wrappers

  /** A member value: the source only ever serialises booleans and strings. */
  datatype Scalar = Bool(b: bool) | Str(s: string)

  /** One `"name":value` member of an object. */
  type Field = (string, Scalar)

  // ---------------------------------------------------------------------------
  // Serialisation

  function HexDigit(n: nat): (c: char)
    requires n < 16
    ensures HexValue(c) == Some(n)
  {
    if n < 10 then ('0' as int + n) as char else ('a' as int + (n - 10)) as char
  }

  /** The JSON spelling of one character inside a string literal. */
  function EscapeChar(c: char): string {
    if c == '"' then "\\\""
    else if c == '\\' then "\\\\"
    else if c as int == 0x08 then "\\b"
    else if c == '\t' then "\\t"
    else if c == '\n' then "\\n"
    else if c as int == 0x0C then "\\f"
    else if c == '\r' then "\\r"
    else if c as int < 0x20 then "\\u00" + [HexDigit(c as int / 16), HexDigit(c as int % 16)]
    else [c]
  }

  function Escape(s: string): string {
    if s == [] then [] else EscapeChar(s[0]) + Escape(s[1..])
  }

  /** A string literal: the escaped characters between double quotes. */
  function Quote(s: string): string {
    "\"" + Escape(s) + "\""
  }

  function ScalarText(v: Scalar): string {
    match v
    case Bool(b) => if b then "true" else "false"
    case Str(s) => Quote(s)
  }

  function MemberText(f: Field): string {
    Quote(f.0) + ":" + ScalarText(f.1)
  }

  function MembersText(fs: seq<Field>): string {
    if fs == [] then ""
    else if |fs| == 1 then MemberText(fs[0])
    else MemberText(fs[0]) + "," + MembersText(fs[1..])
  }

  /** `JSON.stringify` of a flat object whose members are `fs`, in order. */
  function Stringify(fs: seq<Field>): (text: string)
    ensures |text| >= 2 && text[0] == '{' && text[|text| - 1] == '}'
  {
    "{" + MembersText(fs) + "}"
  }

  // ---------------------------------------------------------------------------
  // Parsing (the inverse used to state what the serialised text contains)

  function HexValue(c: char): Option<nat> {
    if '0' <= c <= '9' then Some(c as int - '0' as int)
    else if 'a' <= c <= 'f' then Some(c as int - 'a' as int + 10)
    else if 'A' <= c <= 'F' then Some(c as int - 'A' as int + 10)
    else None
  }

  /** The value of four hex digits. */
  function Hex4(s: string): (r: Option<nat>)
    requires |s| == 4
    ensures r.Some? ==> r.value < 0x10000
  {
    match (HexValue(s[0]), HexValue(s[1]), HexValue(s[2]), HexValue(s[3]))
    case (Some(a), Some(b), Some(c), Some(d)) =>
      if a < 16 && b < 16 && c < 16 && d < 16 then Some(((a * 16 + b) * 16 + c) * 16 + d) else None
    case _ => None
  }

  /** The character a one-letter escape `\x` stands for. */
  function ShortEscape(x: char): Option<char> {
    if x == '"' then Some('"')
    else if x == '\\' then Some('\\')
    else if x == '/' then Some('/')
    else if x == 'b' then Some(0x08 as char)
    else if x == 't' then Some('\t')
    else if x == 'n' then Some('\n')
    else if x == 'f' then Some(0x0C as char)
    else if x == 'r' then Some('\r')
    else None
  }

  function Prepend(c: char, r: Option<(string, string)>): Option<(string, string)> {
    match r
    case None => None
    case Some((d, rest)) => Some(([c] + d, rest))
  }

  /**
   * Reads the characters of a string literal whose opening quote has already
   * been consumed, up to and including the closing quote; yields the decoded
   * characters and the text after the closing quote.
   */
  function ParseChars(s: string): (r: Option<(string, string)>)
    ensures r.Some? ==> |r.value.1| < |s|
    decreases |s|
  {
    if s == [] then None
    else if s[0] == '"' then Some(([], s[1..]))
    else if s[0] as int < 0x20 then None
    else if s[0] == '\\' then
      if |s| < 2 then None
      else match ShortEscape(s[1])
        case Some(c) => Prepend(c, ParseChars(s[2..]))
        case None =>
          if s[1] == 'u' && |s| >= 6 then
            match Hex4(s[2..6])
            case Some(n) =>
              if n < 0xD800 || 0xE000 <= n then Prepend(n as char, ParseChars(s[6..])) else None
            case None => None
          else None
    else Prepend(s[0], ParseChars(s[1..]))
  }

  function ParseScalar(s: string): (r: Option<(Scalar, string)>)
    ensures r.Some? ==> |r.value.1| < |s|
  {
    if |s| >= 4 && s[..4] == "true" then Some((Bool(true), s[4..]))
    else if |s| >= 5 && s[..5] == "false" then Some((Bool(false), s[5..]))
    else if |s| > 0 && s[0] == '"' then
      match ParseChars(s[1..])
      case Some((v, rest)) => Some((Str(v), rest))
      case None => None
    else None
  }

  /** Reads `member ( , member )* }` and nothing after it. */
  function ParseMembers(s: string): Option<seq<Field>>
    decreases |s|, 1
  {
    if |s| == 0 || s[0] != '"' then None
    else match ParseChars(s[1..])
      case None => None
      case Some((name, r1)) =>
        if |r1| == 0 || r1[0] != ':' then None
        else match ParseScalar(r1[1..])
          case None => None
          case Some((v, r2)) => MembersAfter((name, v), r2)
  }

  /** Given the member just read, reads what follows it: `}` or `, members`. */
  function MembersAfter(first: Field, r: string): Option<seq<Field>>
    decreases |r|, 0
  {
    if r == "}" then Some([first])
    else if |r| > 0 && r[0] == ',' then
      match ParseMembers(r[1..])
      case None => None
      case Some(more) => Some([first] + more)
    else None
  }

  /** Reads a whole flat object. */
  function ParseObject(text: string): Option<seq<Field>> {
    if text == "{}" then Some([])
    else if |text| > 0 && text[0] == '{' then ParseMembers(text[1..])
    else None
  }

  // ---------------------------------------------------------------------------
  // Round trip

  /** Decoding one escaped character consumes exactly its escape. */
  lemma ParseEscapedChar(c: char, t: string)
    ensures ParseChars(EscapeChar(c) + t) == Prepend(c, ParseChars(t))
  {
    var s := EscapeChar(c) + t;
    var n := c as int;
    if c == '"' || c == '\\' || n == 0x08 || c == '\t' || c == '\n' || n == 0x0C || c == '\r' {
      assert s[0] == '\\' && s[2..] == t;
    } else if n < 0x20 {
      var hi, lo := HexDigit(n / 16), HexDigit(n % 16);
      assert s == "\\u00" + [hi, lo] + t;
      assert s[1] == 'u' && ShortEscape(s[1]) == None;
      assert s[2..6] == ['0', '0', hi, lo];
      assert Hex4(s[2..6]) == Some(n);
      assert s[6..] == t;
    } else {
      assert s == [c] + t;
      assert s[1..] == t;
    }
  }

  lemma {:induction false} ParseQuotedTail(x: string, rest: string)
    ensures ParseChars(Escape(x) + "\"" + rest) == Some((x, rest))
    decreases |x|
  {
    if x == [] {
      assert Escape(x) + "\"" + rest == "\"" + rest;
      assert ("\"" + rest)[1..] == rest;
    } else {
      var t := Escape(x[1..]) + "\"" + rest;
      assert Escape(x) + "\"" + rest == EscapeChar(x[0]) + t;
      ParseEscapedChar(x[0], t);
      ParseQuotedTail(x[1..], rest);
      assert [x[0]] + x[1..] == x;
    }
  }

  /** A string literal followed by anything reads back as its string. */
  lemma ParseQuote(x: string, rest: string)
    ensures |Quote(x) + rest| > 0 && (Quote(x) + rest)[0] == '"'
    ensures ParseChars((Quote(x) + rest)[1..]) == Some((x, rest))
  {
    assert (Quote(x) + rest)[1..] == Escape(x) + "\"" + rest;
    ParseQuotedTail(x, rest);
  }

  lemma ParseScalarText(v: Scalar, rest: string)
    ensures ParseScalar(ScalarText(v) + rest) == Some((v, rest))
  {
    match v
    case Bool(b) =>
      var s := ScalarText(v) + rest;
      if b {
        assert s[..4] == "true" && s[4..] == rest;
      } else {
        assert s[..4][3] != "true"[3];
        assert s[..5] == "false" && s[5..] == rest;
      }
    case Str(x) =>
      var s := Quote(x) + rest;
      ParseQuote(x, rest);
      assert |s| < 4 || s[..4][0] != "true"[0];
      assert |s| < 5 || s[..5][0] != "false"[0];
  }

  /** How `ParseMembers` reads a member: name, colon, value, then whatever follows. */
  lemma ParseMembersStep(s: string, name: string, r1: string, v: Scalar, r2: string)
    requires |s| > 0 && s[0] == '"' && ParseChars(s[1..]) == Some((name, r1))
    requires |r1| > 0 && r1[0] == ':' && ParseScalar(r1[1..]) == Some((v, r2))
    ensures ParseMembers(s) == MembersAfter((name, v), r2)
  {
  }

  lemma ParseMemberText(f: Field, rest: string)
    ensures ParseMembers(MemberText(f) + rest) == MembersAfter(f, rest)
  {
    var r1 := ":" + (ScalarText(f.1) + rest);
    assert MemberText(f) + rest == Quote(f.0) + r1 by {
      AppendAssoc(Quote(f.0), ":", ScalarText(f.1), rest);
    }
    ParseQuote(f.0, r1);
    assert r1[1..] == ScalarText(f.1) + rest;
    ParseScalarText(f.1, rest);
    ParseMembersStep(Quote(f.0) + r1, f.0, r1, f.1, rest);
  }

  lemma MembersTextCons(fs: seq<Field>)
    requires |fs| > 1
    ensures MembersText(fs) + "}" == MemberText(fs[0]) + ("," + (MembersText(fs[1..]) + "}"))
  {
    AppendAssoc(MemberText(fs[0]), ",", MembersText(fs[1..]), "}");
  }

  lemma AppendAssoc<T>(a: seq<T>, b: seq<T>, c: seq<T>, d: seq<T>)
    ensures a + b + c + d == a + (b + (c + d))
  {
  }

  /** After a member, a comma and a list of members that reads back, the whole list reads back. */
  lemma MembersAfterComma(first: Field, tail: string, more: seq<Field>)
    requires ParseMembers(tail) == Some(more)
    ensures MembersAfter(first, "," + tail) == Some([first] + more)
  {
    assert ("," + tail)[1..] == tail;
    assert ("," + tail)[0] == ',';
  }

  lemma {:induction false} ParseMembersText(fs: seq<Field>)
    requires fs != []
    ensures ParseMembers(MembersText(fs) + "}") == Some(fs)
    decreases |fs|
  {
    if |fs| == 1 {
      ParseMemberText(fs[0], "}");
      assert [fs[0]] == fs;
    } else {
      var tail := MembersText(fs[1..]) + "}";
      MembersTextCons(fs);
      ParseMemberText(fs[0], "," + tail);
      ParseMembersText(fs[1..]);
      MembersAfterComma(fs[0], tail, fs[1..]);
      assert [fs[0]] + fs[1..] == fs;
    }
  }

  /** Reading back the text `Stringify` writes recovers the members exactly. */
  lemma StringifyRoundTrip(fs: seq<Field>)
    ensures ParseObject(Stringify(fs)) == Some(fs)
  {
    var text := Stringify(fs);
    if fs != [] {
      ParseMembersText(fs);
      assert MembersText(fs)[0] == '"';
      assert text[1..] == MembersText(fs) + "}";
      assert text != "{}" by { assert |text| > 2; }
    }
  }
}
