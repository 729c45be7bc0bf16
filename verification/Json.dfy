/** The JSON strings of tools/nlance2table.cpp, and reading them back by section 7 of RFC 8259. */
module Json {
  import opened Options
  import opened Text

  // ---- writing -------------------------------------------------------------------------------------

  function EscapedChar(c: char): string {
    if c == '"' then "\\\""
    else if c == '\\' then "\\\\"
    else if c == '\n' then "\\n"
    else if c == '\r' then "\\r"
    else if c == '\t' then "\\t"
    else if c < ' ' then "\\u00" + [HexDigit(c as int / 16), HexDigit(c as int % 16)]
    else [c]
  }

  function Inside(s: string): string {
    if s == "" then "" else EscapedChar(s[0]) + Inside(s[1..])
  }

  lemma {:induction false} InsidePush(s: string, c: char)
    ensures Inside(s + [c]) == Inside(s) + EscapedChar(c)
    decreases |s|
  {
    hide EscapedChar;
    if s == "" {
      assert s + [c] == [c];
    } else {
      assert (s + [c])[1..] == s[1..] + [c];
      InsidePush(s[1..], c);
    }
  }

  /** `json_escape_string`. */
  method JsonEscapeString(out: string, s: string) returns (r: string)
    ensures r == out + "\"" + Inside(s) + "\""
  {
    hide EscapedChar;
    r := out + "\"";
    for i := 0 to |s|
      invariant r == out + "\"" + Inside(s[..i])
    {
      InsidePush(s[..i], s[i]);
      assert s[..i + 1] == s[..i] + [s[i]];
      r := r + EscapedChar(s[i]);
    }
    assert s[..|s|] == s;
    r := r + "\"";
  }

  // ---- reading, by section 7 of RFC 8259 -----------------------------------------------------------

  predicate IsHex(c: char) {
    '0' <= c <= '9' || 'a' <= c <= 'f' || 'A' <= c <= 'F'
  }

  function HexValue(c: char): (v: nat)
    requires IsHex(c)
    ensures v < 16
  {
    if 'A' <= c <= 'F' then c as int - 'A' as int + 10 else DigitValue(c)
  }

  /** The character of an escape that is not a \u one. */
  function Short(c: char): Option<char> {
    if c == '"' || c == '\\' || c == '/' then Some(c)
    else if c == 'b' then Some(8 as char)
    else if c == 'f' then Some(12 as char)
    else if c == 'n' then Some('\n')
    else if c == 'r' then Some('\r')
    else if c == 't' then Some('\t')
    else None
  }

  function FourDigits(a: nat, b: nat, c: nat, d: nat): (code: nat)
    requires a < 16 && b < 16 && c < 16 && d < 16
    ensures code < 0x10000
  {
    4096 * a + 256 * b + 16 * c + d
  }

  /** The character four hex digits name; a surrogate half is not one by itself. */
  function Named(code: nat): Option<char>
    requires code < 0x10000
  {
    if 0xD800 <= code < 0xE000 then None else Some(code as char)
  }

  /** One character and how much text it took. */
  function ReadChar(s: string): (r: Option<(char, nat)>)
    ensures r.Some? ==> 1 <= r.value.1 <= |s|
  {
    if s == "" || s[0] == '"' || s[0] < ' ' then None
    else if s[0] != '\\' then Some((s[0], 1))
    else if |s| < 2 then None
    else if s[1] != 'u' then
      match Short(s[1])
      case None => None
      case Some(c) => Some((c, 2))
    else if |s| < 6 || !IsHex(s[2]) || !IsHex(s[3]) || !IsHex(s[4]) || !IsHex(s[5]) then None
    else
      match Named(FourDigits(HexValue(s[2]), HexValue(s[3]), HexValue(s[4]), HexValue(s[5])))
      case None => None
      case Some(c) => Some((c, 6))
  }

  /** The characters up to the closing quote, and the text after it. */
  function ReadInside(s: string): Option<(string, string)>
    decreases |s|
  {
    if s != "" && s[0] == '"' then Some(("", s[1..]))
    else
      match ReadChar(s)
      case None => None
      case Some(c) =>
        match ReadInside(s[c.1..])
        case None => None
        case Some(r) => Some(([c.0] + r.0, r.1))
  }

  function ReadString(s: string): Option<(string, string)> {
    if s != "" && s[0] == '"' then ReadInside(s[1..]) else None
  }

  // ---- the inverse ---------------------------------------------------------------------------------

  lemma HexIs(n: nat)
    requires n < 16
    ensures IsHex(HexDigit(n)) && HexValue(HexDigit(n)) == n
  {
    HexDigitBack(n);
  }

  lemma ControlBack(c: char, rest: string)
    requires c < ' '
    ensures ReadChar("\\u00" + [HexDigit(c as int / 16), HexDigit(c as int % 16)] + rest) == Some((c, 6))
  {
    hide HexDigit, HexValue, IsHex;
    HexIs(c as int / 16);
    HexIs(c as int % 16);
    HexIs(0);
    assert HexDigit(0) == '0' by { ZeroDigit(); }
  }

  lemma ZeroDigit()
    ensures HexDigit(0) == '0'
  {
  }

  lemma CharBack(c: char, rest: string)
    ensures EscapedChar(c) != "" && EscapedChar(c)[0] != '"'
    ensures ReadChar(EscapedChar(c) + rest) == Some((c, |EscapedChar(c)|))
  {
    hide HexDigit, HexValue, IsHex;
    if c < ' ' { ControlBack(c, rest); }
  }

  lemma {:induction false} InsideBack(s: string, rest: string)
    ensures ReadInside(Inside(s) + "\"" + rest) == Some((s, rest))
    decreases |s|
  {
    hide ReadChar, EscapedChar;
    var t := Inside(s) + "\"" + rest;
    if s == "" {
      assert t == "\"" + rest && t[1..] == rest;
    } else {
      var e, tail := EscapedChar(s[0]), Inside(s[1..]) + "\"" + rest;
      assert t == e + tail && t[|e|..] == tail;
      CharBack(s[0], tail);
      InsideBack(s[1..], rest);
      assert s == [s[0]] + s[1..];
    }
  }

  /** Whatever the string holds, a JSON reader gets it back, and stops at its end. */
  lemma StringRoundTrip(s: string, rest: string)
    ensures ReadString("\"" + Inside(s) + "\"" + rest) == Some((s, rest))
  {
    var t := "\"" + Inside(s) + "\"" + rest;
    assert t[1..] == Inside(s) + "\"" + rest;
    InsideBack(s, rest);
  }
}
