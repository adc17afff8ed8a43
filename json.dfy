/** The JSON text Go's encoding/json writes for strings and string arrays (with its
    default HTML escaping), and a reader for exactly that text. */
module JsonText {
  import opened Wrappers

  function HexDigit(d: int): (c: char)
    requires 0 <= d < 16
  {
    if d < 10 then ('0' as int + d) as char else ('a' as int + d - 10) as char
  }

  /** The value of a hexadecimal digit in either case. */
  function HexValue(c: char): Option<int> {
    if '0' <= c <= '9' then Some(c as int - '0' as int)
    else if 'a' <= c <= 'f' then Some(c as int - 'a' as int + 10)
    else if 'A' <= c <= 'F' then Some(c as int - 'A' as int + 10)
    else None
  }

  /** Four lower-case hexadecimal digits of `n`. */
  function Hex4(n: int): (s: string)
    requires 0 <= n < 0x1_0000
    ensures |s| == 4
  {
    var high := n / 0x100;
    [HexDigit(high / 16), HexDigit(high % 16), HexDigit(n / 16 % 16), HexDigit(n % 16)]
  }

  function ParseHex4(t: string): Option<int>
    requires |t| >= 4
  {
    match (HexValue(t[0]), HexValue(t[1]), HexValue(t[2]), HexValue(t[3]))
    case (Some(a), Some(b), Some(c), Some(d)) => Some(((a * 16 + b) * 16 + c) * 16 + d)
    case _ => None
  }

  /** Characters written as \uXXXX: control characters, the HTML-sensitive '<', '>'
      and '&', and the line and paragraph separators U+2028 and U+2029. */
  predicate EscapedAsHex(c: char) {
    c < ' ' || c == '<' || c == '>' || c == '&' || c == '\U{2028}' || c == '\U{2029}'
  }

  /** How one character of a string is written inside the quotes. */
  function EscapeChar(c: char): (s: string)
    ensures |s| > 0 && s[0] != '"' && s[0] >= ' '
    ensures |s| == 1 <==> s[0] != '\\'
    ensures s[0] != '\\' ==> s == [c]
  {
    if c == '"' then "\\\""
    else if c == '\\' then "\\\\"
    else if c == '\n' then "\\n"
    else if c == '\r' then "\\r"
    else if c == '\t' then "\\t"
    else if c == '\U{8}' then "\\b"
    else if c == '\U{C}' then "\\f"
    else if EscapedAsHex(c) then "\\u" + Hex4(c as int)
    else [c]
  }

  function Escape(s: string): string {
    if s == [] then "" else EscapeChar(s[0]) + Escape(s[1..])
  }

  /** A string as a JSON string literal. */
  function Quote(s: string): (q: string)
    ensures |q| >= 2 && q[0] == '"' && q[|q| - 1] == '"'
  {
    "\"" + Escape(s) + "\""
  }

  /** The elements of a non-empty array, separated by commas. */
  function Elements(ss: seq<string>): (e: string)
    requires ss != []
    ensures |e| >= 2 && e[0] == '"'
  {
    if |ss| == 1 then Quote(ss[0]) else Quote(ss[0]) + ("," + Elements(ss[1..]))
  }

  /** An array of strings as a JSON array. */
  function QuoteList(ss: seq<string>): string {
    if ss == [] then "[]" else "[" + (Elements(ss) + "]")
  }

  /** Reads the character after a backslash. */
  function ParseEscape(t: string): (r: Option<(char, string)>)
    ensures r.Some? ==> |r.value.1| < |t|
  {
    if t == [] then None
    else if t[0] == '"' then Some(('"', t[1..]))
    else if t[0] == '\\' then Some(('\\', t[1..]))
    else if t[0] == '/' then Some(('/', t[1..]))
    else if t[0] == 'n' then Some(('\n', t[1..]))
    else if t[0] == 'r' then Some(('\r', t[1..]))
    else if t[0] == 't' then Some(('\t', t[1..]))
    else if t[0] == 'b' then Some(('\U{8}', t[1..]))
    else if t[0] == 'f' then Some(('\U{C}', t[1..]))
    else if t[0] == 'u' && |t| >= 5 then
      match ParseHex4(t[1..5])
      case Some(n) =>
        if 0 <= n < 0xD800 || 0xE000 <= n < 0x1_0000 then Some((n as char, t[5..])) else None
      case None => None
    else None
  }

  /** Reads one character of a string body, which must not be the closing quote. */
  function ParseChar(t: string): (r: Option<(char, string)>)
    requires t != [] && t[0] != '"'
    ensures r.Some? ==> |r.value.1| < |t|
  {
    if t[0] == '\\' then ParseEscape(t[1..])
    else if t[0] < ' ' then None
    else Some((t[0], t[1..]))
  }

  /** Reads a string body up to its closing quote; gives the string and what follows. */
  function ParseBody(t: string): (r: Option<(string, string)>)
    ensures r.Some? ==> |r.value.1| < |t|
    decreases |t|
  {
    if t == [] then None
    else if t[0] == '"' then Some(("", t[1..]))
    else match ParseChar(t)
      case None => None
      case Some((c, rest)) =>
        match ParseBody(rest)
        case None => None
        case Some((s, after)) => Some(([c] + s, after))
  }

  /** Reads a string literal at the start of `t`. */
  function ParseString(t: string): (r: Option<(string, string)>)
    ensures r.Some? ==> |r.value.1| < |t|
  {
    if t != [] && t[0] == '"' then ParseBody(t[1..]) else None
  }

  /** Reads the elements of a non-empty array and its closing bracket. */
  function ParseElements(t: string): (r: Option<(seq<string>, string)>)
    ensures r.Some? ==> |r.value.1| < |t|
    decreases |t|
  {
    match ParseString(t)
    case None => None
    case Some((s, rest)) =>
      if rest != [] && rest[0] == ']' then Some(([s], rest[1..]))
      else if rest != [] && rest[0] == ',' then
        match ParseElements(rest[1..])
        case None => None
        case Some((ss, after)) => Some(([s] + ss, after))
      else None
  }

  /** Reads an array of strings at the start of `t`. */
  function ParseList(t: string): Option<(seq<string>, string)> {
    if |t| >= 2 && t[0] == '[' && t[1] == ']' then Some(([], t[2..]))
    else if t != [] && t[0] == '[' then ParseElements(t[1..])
    else None
  }

  lemma HexDigitRoundTrip(d: int)
    requires 0 <= d < 16
    ensures HexValue(HexDigit(d)) == Some(d)
  {
  }

  lemma Hex4RoundTrip(n: int)
    requires 0 <= n < 0x1_0000
    ensures ParseHex4(Hex4(n)) == Some(n)
  {
    var low := n / 16;
    var high := n / 0x100;
    assert high == low / 16;
    var a, b, c, d := high / 16, high % 16, low % 16, n % 16;
    HexDigitRoundTrip(a);
    HexDigitRoundTrip(b);
    HexDigitRoundTrip(c);
    HexDigitRoundTrip(d);
    assert high == a * 16 + b;
    assert low == high * 16 + c;
    assert n == low * 16 + d;
  }

  /** Every escaped character reads back as itself, leaving what follows untouched. */
  lemma EscapeCharRoundTrip(c: char, rest: string)
    ensures ParseChar(EscapeChar(c) + rest) == Some((c, rest))
  {
    var e := EscapeChar(c);
    var t := e + rest;
    if e[0] == '\\' {
      assert t[1..] == e[1..] + rest;
      if EscapedAsHex(c) && !(c == '\n' || c == '\r' || c == '\t' || c == '\U{8}' || c == '\U{C}') {
        var n := c as int;
        assert e == "\\u" + Hex4(n);
        assert t[1..][1..5] == Hex4(n);
        assert t[1..][5..] == rest;
        Hex4RoundTrip(n);
      }
    } else {
      assert t[1..] == rest;
    }
  }

  lemma {:induction false} BodyRoundTrip(s: string, rest: string)
    ensures ParseBody(Escape(s) + "\"" + rest) == Some((s, rest))
    decreases |s|
  {
    if s == [] {
      assert Escape(s) + "\"" + rest == "\"" + rest;
    } else {
      var tail := Escape(s[1..]) + "\"" + rest;
      assert Escape(s) + "\"" + rest == EscapeChar(s[0]) + tail;
      EscapeCharRoundTrip(s[0], tail);
      BodyRoundTrip(s[1..], rest);
      assert [s[0]] + s[1..] == s;
    }
  }

  /** Reading a quoted string back gives the string, whatever text follows it. */
  lemma QuoteRoundTrip(s: string, rest: string)
    ensures ParseString(Quote(s) + rest) == Some((s, rest))
  {
    var t := Quote(s) + rest;
    assert t[1..] == Escape(s) + "\"" + rest;
    BodyRoundTrip(s, rest);
  }

  lemma {:induction false} ElementsRoundTrip(ss: seq<string>, rest: string)
    requires ss != []
    ensures ParseElements(Elements(ss) + ("]" + rest)) == Some((ss, rest))
    decreases |ss|
  {
    if |ss| == 1 {
      assert ss == [ss[0]];
      QuoteRoundTrip(ss[0], "]" + rest);
      assert ("]" + rest)[1..] == rest;
    } else {
      var tail := "," + (Elements(ss[1..]) + ("]" + rest));
      assert Elements(ss) + ("]" + rest) == Quote(ss[0]) + tail;
      QuoteRoundTrip(ss[0], tail);
      assert tail[1..] == Elements(ss[1..]) + ("]" + rest);
      ElementsRoundTrip(ss[1..], rest);
      assert [ss[0]] + ss[1..] == ss;
    }
  }

  lemma NonEmptyListRoundTrip(ss: seq<string>, rest: string)
    requires ss != []
    ensures ParseList("[" + (Elements(ss) + "]") + rest) == Some((ss, rest))
  {
    var body := Elements(ss) + ("]" + rest);
    var t := "[" + (Elements(ss) + "]") + rest;
    assert t == "[" + body;
    assert t[1..] == body && t[1] == '"';
    ElementsRoundTrip(ss, rest);
  }

  /** Reading an array of strings back gives the same strings in the same order. */
  lemma QuoteListRoundTrip(ss: seq<string>, rest: string)
    ensures ParseList(QuoteList(ss) + rest) == Some((ss, rest))
  {
    if ss == [] {
      assert ("[]" + rest)[2..] == rest;
    } else {
      NonEmptyListRoundTrip(ss, rest);
    }
  }
}
