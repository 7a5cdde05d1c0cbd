/** JSON text as nested pieces, and how the scanners pass over it. */
module JsonText {
  import opened Wrappers
  import opened JsonScanner

  // ---------- Strings ----------

  /** The inside of a string literal: every quote is escaped and no escape is left open. */
  predicate Raw(raw: string, escaped: bool)
    decreases |raw|
  {
    if raw == [] then !escaped
    else if escaped then Raw(raw[1..], false)
    else if raw[0] == '\\' then Raw(raw[1..], true)
    else raw[0] != '"' && Raw(raw[1..], false)
  }

  lemma {:induction false} RawScans(s: Scan, raw: string)
    requires s.quoted && Raw(raw, s.escaped)
    ensures ScanText(s, raw) == s.(escaped := false)
    ensures forall k | 0 <= k <= |raw| :: ScanText(s, raw[..k]).quoted
    ensures FirstClose(s, raw).None?
    decreases |raw|
  {
    if raw == [] {
      assert forall k | 0 <= k <= |raw| :: raw[..k] == [];
    } else {
      var t := Feed(s, raw[0]);
      RawScans(t, raw[1..]);
      forall k | 0 <= k <= |raw| ensures ScanText(s, raw[..k]).quoted {
        if k > 0 { assert raw[..k][1..] == raw[1..][..k - 1]; }
      }
    }
  }

  /** A string literal leaves the scanner as it found it, and it is inside quotes exactly until its end. */
  lemma QuotedScans(s: Scan, raw: string)
    requires !s.quoted && !s.escaped && Raw(raw, false)
    ensures ScanText(s, Quoted(raw)) == s && FirstClose(s, Quoted(raw)).None?
    ensures forall k | 0 < k < |Quoted(raw)| :: ScanText(s, Quoted(raw)[..k]).quoted
  {
    hide Raw, FirstClose;
    var q, text := s.(quoted := true), raw + "\"";
    assert Quoted(raw) == "\"" + text;
    RawScans(q, raw);
    ScanSum(q, raw, "\"");
    FirstCloseSum(q, raw, "\"");
    OneStep(s, '"', text);
    OneStep(q, '"', []);
    forall k | 0 < k < |Quoted(raw)| ensures ScanText(s, Quoted(raw)[..k]).quoted {
      assert Quoted(raw)[..k] == ['"'] + raw[..k - 1];
      OneStep(s, '"', raw[..k - 1]);
    }
  }

  lemma OneStep(s: Scan, c: char, rest: string)
    ensures ScanText(s, [c] + rest) == ScanText(Feed(s, c), rest)
    ensures FirstClose(s, [c] + rest) ==
      if !s.quoted && c == '}' && s.depth - 1 == 0 then Some(0) else Shift(FirstClose(Feed(s, c), rest), 1)
  {
    assert ([c] + rest)[1..] == rest;
  }

  /** No quote and no brace. */
  predicate Plain(text: string) { forall i | 0 <= i < |text| :: text[i] != '"' && text[i] != '{' && text[i] != '}' }

  lemma {:induction false} PlainScans(s: Scan, text: string)
    requires Plain(text) && !s.quoted
    ensures ScanText(s, text) == s && FirstClose(s, text).None?
    decreases |text|
  {
    if text != [] { PlainScans(s, text[1..]); }
  }

  // ---------- Values ----------

  /** A value's text: characters, strings, and groups in braces or brackets. */
  datatype Text = End
                | Char(c: char, rest: Text)
                | Str(raw: string, rest: Text)
                | Group(brace: bool, inner: Text, rest: Text)

  function Opening(brace: bool): char { if brace then '{' else '[' }

  function Closing(brace: bool): char { if brace then '}' else ']' }

  function Print(t: Text): string {
    match t
    case End => []
    case Char(c, rest) => [c] + Print(rest)
    case Str(raw, rest) => Quoted(raw) + Print(rest)
    case Group(brace, inner, rest) => [Opening(brace)] + Print(inner) + [Closing(brace)] + Print(rest)
  }

  /** A group in its text, piece by piece. */
  lemma GroupText(t: Text, rest: string)
    requires t.Group?
    ensures |Print(t)| == |Print(t.inner)| + 2 + |Print(t.rest)|
    ensures Print(t) + rest == [Opening(t.brace)] + (Print(t.inner) + ([Closing(t.brace)] + (Print(t.rest) + rest)))
  {
    Nested([Opening(t.brace)], Print(t.inner), [Closing(t.brace)], Print(t.rest), rest);
  }

  lemma Nested(a: string, b: string, c: string, d: string, x: string)
    ensures (a + b + c + d) + x == a + (b + (c + (d + x)))
  {}

  predicate Loose(c: char) { c != '"' && c != '{' && c != '}' && c != '[' && c != ']' }

  predicate WellFormed(t: Text) {
    match t
    case End => true
    case Char(c, rest) => Loose(c) && WellFormed(rest)
    case Str(raw, rest) => Raw(raw, false) && WellFormed(rest)
    case Group(_, inner, rest) => WellFormed(inner) && WellFormed(rest)
  }

  /** The brace scanners pass over a value at depth one or more. */
  lemma {:induction false} ValueScans(s: Scan, t: Text)
    requires WellFormed(t) && !s.quoted && !s.escaped && s.depth >= 1
    ensures ScanText(s, Print(t)) == s && FirstClose(s, Print(t)).None?
    decreases t
  {
    hide FirstClose, ScanText, Raw;
    match t {
      case End => EmptyScans(s);
      case Char(c, rest) =>
        OneStep(s, c, Print(rest));
        ValueScans(s, rest);
      case Str(raw, rest) =>
        QuotedScans(s, raw);
        ValueScans(s, rest);
        ScanSum(s, Quoted(raw), Print(rest));
        FirstCloseSum(s, Quoted(raw), Print(rest));
      case Group(brace, inner, rest) =>
        var u := Feed(s, Opening(brace));
        ValueScans(u, inner);
        ValueScans(s, rest);
        var behind := [Closing(brace)] + Print(rest);
        GroupText(t, []);
        assert Print(rest) + [] == Print(rest) && Print(t) + [] == Print(t);
        OneStep(s, Opening(brace), Print(inner) + behind);
        ScanSum(u, Print(inner), behind);
        FirstCloseSum(u, Print(inner), behind);
        OneStep(u, Closing(brace), Print(rest));
    }
  }

  lemma EmptyScans(s: Scan)
    ensures ScanText(s, []) == s && FirstClose(s, []).None?
  {}
}
