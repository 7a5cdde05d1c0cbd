/** json_string, and the reader of RFC 8259 that takes it back. */
module JsonStrings {
  import opened Wrappers
  import opened JsonScanner
  import opened JsonText

  const DIGITS := "0123456789abcdef"

  /** One byte of the string, as json_string writes it. */
  function Escape(c: char): (e: string)
    ensures |e| > 0
  {
    match c
    case '\\' => "\\\\"
    case '"' => "\\\""
    case _ =>
      if c == 8 as char then "\\b"
      else if c == 12 as char then "\\f"
      else if c == '\n' then "\\n"
      else if c == '\r' then "\\r"
      else if c == '\t' then "\\t"
      else if c < ' ' then "\\u00" + [DIGITS[c as int / 16], DIGITS[c as int % 16]]
      else [c]
  }

  function Escapes(value: string): string {
    if value == [] then [] else Escapes(value[..|value| - 1]) + Escape(value[|value| - 1])
  }

  function JsonString(value: string): string { Quoted(Escapes(value)) }

  /** The switch in json_string's loop. */
  method AppendEscaped(escaped: string, character: char) returns (longer: string)
    ensures longer == escaped + Escape(character)
  {
    if character == '\\' { longer := escaped + "\\\\"; }
    else if character == '"' { longer := escaped + "\\\""; }
    else if character == 8 as char { longer := escaped + "\\b"; }
    else if character == 12 as char { longer := escaped + "\\f"; }
    else if character == '\n' { longer := escaped + "\\n"; }
    else if character == '\r' { longer := escaped + "\\r"; }
    else if character == '\t' { longer := escaped + "\\t"; }
    else if character < ' ' {
      longer := escaped + ("\\u00" + [DIGITS[character as int / 16], DIGITS[character as int % 16]]);
    } else {
      longer := escaped + [character];
    }
  }

  /** json_string */
  method PrintJsonString(value: string) returns (escaped: string)
    ensures escaped == JsonString(value)
  {
    hide Escape;
    escaped := "\"";
    for i := 0 to |value|
      invariant escaped == "\"" + Escapes(value[..i])
    {
      hide Escape;
      assert value[..i + 1][..i] == value[..i];
      escaped := AppendEscaped(escaped, value[i]);
    }
    assert value[..|value|] == value;
    escaped := escaped + "\"";
  }

  // ---------- Reading a string ----------

  function HexValue(c: char): Option<nat> {
    if '0' <= c <= '9' then Some(c as int - '0' as int)
    else if 'a' <= c <= 'f' then Some(c as int - 'a' as int + 10)
    else if 'A' <= c <= 'F' then Some(c as int - 'A' as int + 10)
    else None
  }

  /** The character of a \u escape outside the surrogate range. */
  function Unicode(digits: string): Option<char>
    requires |digits| == 4
  {
    var a, b, c, d := HexValue(digits[0]), HexValue(digits[1]), HexValue(digits[2]), HexValue(digits[3]);
    if a.None? || b.None? || c.None? || d.None? then None
    else
      var code := ((a.value * 16 + b.value) * 16 + c.value) * 16 + d.value;
      if code < 0xD800 || 0xE000 <= code < 0x1_0000 then Some(code as char) else None
  }

  function Simple(c: char): Option<char> {
    match c
    case '"' => Some('"')
    case '\\' => Some('\\')
    case '/' => Some('/')
    case 'b' => Some(8 as char)
    case 'f' => Some(12 as char)
    case 'n' => Some('\n')
    case 'r' => Some('\r')
    case 't' => Some('\t')
    case _ => None
  }

  /** Section 7 of RFC 8259, behind the opening quote: the value and the text behind the closing quote. */
  function ReadChars(text: string): Option<(string, string)>
    decreases |text|
  {
    if text == [] then None
    else if text[0] == '"' then Some(([], text[1..]))
    else if text[0] == '\\' then
      if |text| >= 6 && text[1] == 'u' then
        match Unicode(text[2..6])
        case None => None
        case Some(c) => Prepend(c, ReadChars(text[6..]))
      else if |text| >= 2 && Simple(text[1]).Some? then Prepend(Simple(text[1]).value, ReadChars(text[2..]))
      else None
    else if text[0] < ' ' then None
    else Prepend(text[0], ReadChars(text[1..]))
  }

  function Prepend(c: char, r: Option<(string, string)>): Option<(string, string)> {
    if r.Some? then Some(([c] + r.value.0, r.value.1)) else None
  }

  function ReadString(text: string): Option<(string, string)> {
    if text != [] && text[0] == '"' then ReadChars(text[1..]) else None
  }

  /** A key that JSON carries without escapes: no quote, no backslash, no control character. */
  predicate PlainKey(key: string) { forall i | 0 <= i < |key| :: key[i] != '"' && key[i] != '\\' && key[i] >= ' ' }

  lemma ReadEscape(c: char, rest: string)
    ensures ReadChars(Escape(c) + rest) == Prepend(c, ReadChars(rest))
  {
    var text := Escape(c) + rest;
    if |Escape(c)| == 6 {
      ReadControl(c, rest);
    } else {
      hide Unicode;
      assert text[|Escape(c)|..] == rest;
    }
  }

  lemma ReadControl(c: char, rest: string)
    requires |Escape(c)| == 6
    ensures ReadChars(Escape(c) + rest) == Prepend(c, ReadChars(rest))
  {
    hide HexValue;
    var text, n := Escape(c) + rest, c as int;
    assert text[6..] == rest && n / 16 < 2;
    assert text[2..6] == ['0', '0', DIGITS[n / 16], DIGITS[n % 16]];
    DigitValue(0);
    DigitValue(n / 16);
    DigitValue(n % 16);
  }

  lemma DigitValue(n: nat)
    requires n < 16
    ensures HexValue(DIGITS[n]) == Some(n)
  {}

  function PrependAll(value: string, r: Option<(string, string)>): Option<(string, string)> {
    if r.Some? then Some((value + r.value.0, r.value.1)) else None
  }

  lemma {:induction false} ReadEscapes(value: string, rest: string)
    ensures ReadChars(Escapes(value) + rest) == PrependAll(value, ReadChars(rest))
    decreases |value|
  {
    hide ReadChars, Escape;
    if value == [] {
      assert Escapes(value) + rest == rest;
      var r := ReadChars(rest);
      if r.Some? { assert value + r.value.0 == r.value.0; }
    } else {
      var m := |value| - 1;
      var c := value[m];
      assert Escapes(value) + rest == Escapes(value[..m]) + (Escape(c) + rest);
      ReadEscapes(value[..m], Escape(c) + rest);
      ReadEscape(c, rest);
      var r := ReadChars(rest);
      if r.Some? { assert value[..m] + ([c] + r.value.0) == value + r.value.0; }
    }
  }

  /** Seven characters have an escape of two, the other control characters one of six, and all others none. */
  lemma EscapeLengths(c: char)
    ensures |Escape(c)| == if c as int in {8, 9, 10, 12, 13, 34, 92} then 2 else if c as int < 32 then 6 else 1
  {}

  /** What json_string writes is read back, whatever follows it. */
  lemma RoundTrip(value: string, rest: string)
    ensures ReadString(JsonString(value) + rest) == Some((value, rest))
  {
    hide Escapes;
    assert (JsonString(value) + rest)[1..] == Escapes(value) + ("\"" + rest);
    ReadEscapes(value, "\"" + rest);
    assert ("\"" + rest)[1..] == rest && value + [] == value;
  }

  // ---------- The scanner on a printed string ----------

  lemma PlainRaw(c: char, rest: string)
    requires c != '"' && c != '\\' && Raw(rest, false)
    ensures Raw([c] + rest, false)
  {
    assert ([c] + rest)[1..] == rest;
  }

  lemma EscapedRaw(c: char, rest: string)
    requires Raw(rest, false)
    ensures Raw(['\\', c] + rest, false)
  {
    var text := ['\\', c] + rest;
    assert text[1..] == [c] + rest && text[1..][1..] == rest;
  }

  /** A character stands for itself, or is written with one letter or with its code. */
  lemma EscapeForms(c: char)
    ensures
      var text := Escape(c);
      || (text == [c] && c != '"' && c != '\\')
      || (|text| == 2 && text == ['\\', text[1]])
      || (c < ' ' && text == ['\\', 'u', '0', '0', DIGITS[c as int / 16], DIGITS[c as int % 16]])
  {}

  lemma EscapeRaw(c: char, rest: string)
    requires Raw(rest, false)
    ensures Raw(Escape(c) + rest, false)
  {
    hide Raw, Escape;
    EscapeForms(c);
    var text := Escape(c);
    if text == [c] && c != '"' && c != '\\' {
      PlainRaw(c, rest);
    } else if |text| == 2 {
      EscapedRaw(text[1], rest);
    } else {
      HexRaw(DIGITS[c as int / 16], DIGITS[c as int % 16], rest) by {
        HexIsPlain(c as int / 16);
        HexIsPlain(c as int % 16);
      }
    }
  }

  lemma HexRaw(high: char, low: char, rest: string)
    requires high != '"' && high != '\\' && low != '"' && low != '\\' && Raw(rest, false)
    ensures Raw(['\\', 'u', '0', '0', high, low] + rest, false)
  {
    hide Raw;
    var one, two := [low] + rest, [high] + ([low] + rest);
    PlainRaw(low, rest);
    PlainRaw(high, one);
    PlainRaw('0', two);
    PlainRaw('0', ['0'] + two);
    EscapedRaw('u', ['0'] + (['0'] + two));
    assert ['\\', 'u', '0', '0', high, low] + rest == ['\\', 'u'] + (['0'] + (['0'] + two));
  }

  lemma HexIsPlain(n: nat)
    requires n < 16
    ensures DIGITS[n] != '"' && DIGITS[n] != '\\'
  {}

  lemma {:induction false} EscapesRaw(value: string, rest: string)
    requires Raw(rest, false)
    ensures Raw(Escapes(value) + rest, false)
    decreases |value|
  {
    hide Raw, Escape;
    if value == [] {
      assert Escapes(value) + rest == rest;
    } else {
      var m := |value| - 1;
      EscapeRaw(value[m], rest);
      EscapesRaw(value[..m], Escape(value[m]) + rest);
      assert Escapes(value) + rest == Escapes(value[..m]) + (Escape(value[m]) + rest);
    }
  }

  /**
   * Printer and scanner agree on strings: the scanner is inside quotes from the first quote
   * json_string writes until exactly its last, at whatever depth, and then as it was before.
   */
  lemma ScannerLeavesString(s: Scan, value: string)
    requires !s.quoted && !s.escaped
    ensures ScanText(s, JsonString(value)) == s
    ensures forall k | 0 < k < |JsonString(value)| :: ScanText(s, JsonString(value)[..k]).quoted
  {
    hide Raw, Escapes;
    EscapesAreRaw(value);
    QuotedScans(s, Escapes(value));
  }

  lemma EscapesAreRaw(value: string)
    ensures Raw(Escapes(value), false)
  {
    hide Escapes;
    EscapesRaw(value, []);
    assert Escapes(value) + [] == Escapes(value);
  }
}
