/** The scanners of utility/config.cpp: matching_brace and find_object. */
module JsonScanner {
  import opened Wrappers

  /** isspace in the C locale. */
  predicate IsSpace(c: char) { c == ' ' || '\t' <= c <= '\r' }

  // ---------- Brace depth and quotes ----------

  datatype Scan = Scan(depth: int, quoted: bool, escaped: bool)

  const OUTSIDE: Scan := Scan(0, false, false)

  function Feed(s: Scan, c: char): Scan {
    if s.quoted then
      if s.escaped then s.(escaped := false)
      else if c == '\\' then s.(escaped := true)
      else if c == '"' then s.(quoted := false)
      else s
    else if c == '"' then s.(quoted := true)
    else if c == '{' then s.(depth := s.depth + 1)
    else if c == '}' then s.(depth := s.depth - 1)
    else s
  }

  function ScanText(s: Scan, text: string): Scan
    decreases |text|
  {
    if text == [] then s else ScanText(Feed(s, text[0]), text[1..])
  }

  function Shift(k: Option<nat>, n: nat): Option<nat> { if k.Some? then Some(k.value + n) else None }

  /** The brace outside quotes that brings the depth to zero. */
  function FirstClose(s: Scan, text: string): (k: Option<nat>)
    ensures k.Some? ==> k.value < |text| && text[k.value] == '}'
    decreases |text|
  {
    if text == [] then None
    else if !s.quoted && text[0] == '}' && s.depth - 1 == 0 then Some(0)
    else Shift(FirstClose(Feed(s, text[0]), text[1..]), 1)
  }

  lemma CloseStep(s: Scan, text: string, i: nat)
    requires i <= |text|
    ensures FirstClose(s, text[i..]) ==
      if i == |text| then None
      else if !s.quoted && text[i] == '}' && s.depth - 1 == 0 then Some(0)
      else Shift(FirstClose(Feed(s, text[i]), text[i + 1..]), 1)
  {
    if i < |text| { assert text[i..][1..] == text[i + 1..]; }
  }

  /** matching_brace */
  method MatchingBrace(json: string, open: nat) returns (close: Option<nat>)
    requires open <= |json|
    ensures close == Shift(FirstClose(OUTSIDE, json[open..]), open)
  {
    hide FirstClose;
    var depth, quoted, escaped := 0, false, false;
    for i := open to |json|
      invariant Shift(FirstClose(OUTSIDE, json[open..]), open)
             == Shift(FirstClose(Scan(depth, quoted, escaped), json[i..]), i)
    {
      hide FirstClose;
      var ch := json[i];
      CloseStep(Scan(depth, quoted, escaped), json, i);
      if quoted {
        if escaped { escaped := false; }
        else if ch == '\\' { escaped := true; }
        else if ch == '"' { quoted := false; }
        continue;
      }
      if ch == '"' { quoted := true; continue; }
      if ch == '{' {
        depth := depth + 1;
      } else if ch == '}' {
        depth := depth - 1;
        if depth == 0 { return Some(i); }
      }
    }
    CloseStep(Scan(depth, quoted, escaped), json, |json|);
    close := None;
  }

  lemma {:induction false} ScanSum(s: Scan, a: string, b: string)
    ensures ScanText(s, a + b) == ScanText(ScanText(s, a), b)
    decreases |a|
  {
    if a == [] {
      assert a + b == b;
    } else {
      assert (a + b)[1..] == a[1..] + b;
      ScanSum(Feed(s, a[0]), a[1..], b);
    }
  }

  /** A brace that a prefix already holds is found there, whatever follows; else the search goes on behind it. */
  lemma {:induction false} FirstCloseSum(s: Scan, a: string, b: string)
    ensures FirstClose(s, a + b) ==
      if FirstClose(s, a).Some? then FirstClose(s, a) else Shift(FirstClose(ScanText(s, a), b), |a|)
    decreases |a|
  {
    if a == [] {
      assert a + b == b;
    } else {
      assert (a + b)[1..] == a[1..] + b;
      FirstCloseSum(Feed(s, a[0]), a[1..], b);
    }
  }

  /** The matching brace is the first closing brace that is outside quotes and at depth one. */
  lemma {:induction false} FirstCloseIs(s: Scan, text: string, k: nat)
    ensures FirstClose(s, text) == Some(k) <==> ClosesAt(s, text, k) && forall j: nat | j < k :: !ClosesAt(s, text, j)
    decreases |text|
  {
    if text != [] && !ClosesAt(s, text, 0) {
      var t, rest := Feed(s, text[0]), text[1..];
      forall j: nat ensures ClosesAt(s, text, j + 1) == ClosesAt(t, rest, j) {
        if j + 1 < |text| { assert text[..j + 1][1..] == rest[..j]; }
      }
      if k > 0 {
        FirstCloseIs(t, rest, k - 1);
        assert forall j: nat | j < k - 1 :: ClosesAt(s, text, j + 1) == ClosesAt(t, rest, j);
        assert forall j: nat | 0 < j < k :: ClosesAt(s, text, j) == ClosesAt(t, rest, j - 1);
      }
    }
  }

  ghost predicate ClosesAt(s: Scan, text: string, k: nat) {
    k < |text| && text[k] == '}' && !ScanText(s, text[..k]).quoted && ScanText(s, text[..k]).depth == 1
  }

  /** Scanning does not depend on where the count of braces starts. */
  lemma {:induction false} ScanDeeper(s: Scan, text: string, n: int)
    ensures ScanText(s.(depth := s.depth + n), text) == ScanText(s, text).(depth := ScanText(s, text).depth + n)
    decreases |text|
  {
    if text != [] { ScanDeeper(Feed(s, text[0]), text[1..], n); }
  }

  /** Where the depth comes back to zero, a matching brace has been passed. */
  lemma {:induction false} DepthReturns(s: Scan, text: string)
    requires s.depth >= 1 && ScanText(s, text).depth <= 0
    ensures FirstClose(s, text).Some?
    decreases |text|
  {
    if FirstClose(s, text) != Some(0) { DepthReturns(Feed(s, text[0]), text[1..]); }
  }

  // ---------- find_object ----------

  function Quoted(raw: string): string { "\"" + raw + "\"" }

  function SkipSpaces(text: string, i: nat, limit: nat): (k: nat)
    requires limit <= |text|
    ensures i <= k && (i <= limit ==> k <= limit) && (k < limit ==> !IsSpace(text[k]))
    ensures forall j | i <= j < k :: j < limit && IsSpace(text[j])
    decreases limit - i
  {
    if i < limit && IsSpace(text[i]) then SkipSpaces(text, i + 1, limit) else i
  }

  method PassSpaces(text: string, i: nat, limit: nat) returns (k: nat)
    requires limit <= |text|
    ensures k == SkipSpaces(text, i, limit)
  {
    k := i;
    while k < limit && IsSpace(text[k])
      invariant SkipSpaces(text, i, limit) == SkipSpaces(text, k, limit)
    {
      k := k + 1;
    }
  }

  /** Where the brace of a section with this key would be, if the text starts with its key and colon. */
  function BraceOf(text: string, key: string): (k: Option<nat>)
    ensures k.Some? ==> k.value <= |text|
  {
    if !(Quoted(key) <= text) then None
    else
      var colon := SkipSpaces(text, |Quoted(key)|, |text|);
      if colon < |text| && text[colon] == ':' then Some(SkipSpaces(text, colon + 1, |text|)) else None
  }

  /** The closing brace of the section that the text starts with, if it starts with one. */
  function SectionAt(text: string, key: string): (k: Option<nat>)
    ensures k.Some? ==> |Quoted(key)| < k.value < |text| && text[0] == '"'
  {
    var brace := BraceOf(text, key);
    if brace.None? || brace.value == |text| || text[brace.value] != '{' then None
    else Shift(FirstClose(OUTSIDE, text[brace.value..]), brace.value)
  }

  datatype Span = Span(begin: nat, end: nat)

  function ShiftSpan(s: Option<Span>, n: nat): Option<Span> {
    if s.Some? then Some(Span(s.value.begin + n, s.value.end + n)) else None
  }

  predicate SectionHere(s: Scan, text: string, key: string) {
    text != [] && !s.quoted && text[0] == '"' && s.depth == 1 && SectionAt(text, key).Some?
  }

  function Find(s: Scan, text: string, key: string): (r: Option<Span>)
    ensures r.Some? ==> r.value.begin < r.value.end < |text|
    decreases |text|
  {
    if text == [] then None
    else if SectionHere(s, text, key) then Some(Span(0, SectionAt(text, key).value))
    else ShiftSpan(Find(Feed(s, text[0]), text[1..], key), 1)
  }

  /** A section with the key, closed by its brace, stands at k, and there the scan is outside quotes at depth one. */
  ghost predicate SectionStands(s: Scan, text: string, key: string, k: nat) {
    k < |text| && SectionHere(ScanText(s, text[..k]), text[k..], key)
  }

  lemma StandsFurther(s: Scan, text: string, key: string, j: nat)
    requires text != []
    ensures SectionStands(s, text, key, j + 1) == SectionStands(Feed(s, text[0]), text[1..], key, j)
  {
    hide SectionHere;
    if j + 1 < |text| { assert text[..j + 1][1..] == text[1..][..j] && text[j + 1..] == text[1..][j..]; }
  }

  /** The span found is that of the first such section, up to its matching brace. */
  lemma {:induction false} FindIs(s: Scan, text: string, key: string, k: nat, end: nat)
    ensures Find(s, text, key) == Some(Span(k, end)) <==>
      && SectionStands(s, text, key, k) && end == k + SectionAt(text[k..], key).value
      && forall j: nat | j < k :: !SectionStands(s, text, key, j)
    decreases |text|
  {
    hide SectionAt, SectionStands, SectionHere;
    if text == [] {
      NoneStands(s, text, key, k);
    } else if k >= |text| {
      NoneStands(s, text, key, k);
    } else {
      HereStands(s, text, key);
      var t, rest := Feed(s, text[0]), text[1..];
      forall j: nat ensures SectionStands(s, text, key, j + 1) == SectionStands(t, rest, key, j) {
        StandsFurther(s, text, key, j);
      }
      if k > 0 {
        assert text[k..] == rest[k - 1..];
        assert forall j: nat | 0 < j :: SectionStands(s, text, key, j) == SectionStands(t, rest, key, j - 1);
        assert (forall j: nat | j < k :: !SectionStands(s, text, key, j)) <==>
               !SectionHere(s, text, key) && (forall j: nat | j < k - 1 :: !SectionStands(t, rest, key, j)) by {
          assert forall j: nat | j < k - 1 :: SectionStands(t, rest, key, j) == SectionStands(s, text, key, j + 1);
        }
        if end > 0 { FindIs(t, rest, key, k - 1, end - 1); }
        if SectionStands(s, text, key, k) { StandsClosed(s, text, key, k); }
      }
    }
  }

  lemma HereStands(s: Scan, text: string, key: string)
    requires text != []
    ensures SectionStands(s, text, key, 0) == SectionHere(s, text, key) && text[0..] == text
  {
    hide SectionHere;
    assert text[..0] == [] && text[0..] == text;
  }

  lemma StandsClosed(s: Scan, text: string, key: string, k: nat)
    requires SectionStands(s, text, key, k)
    ensures SectionAt(text[k..], key).Some?
  {}

  lemma NoneStands(s: Scan, text: string, key: string, k: nat)
    requires k >= |text|
    ensures !SectionStands(s, text, key, k)
  {}

  lemma FindStep(s: Scan, text: string, key: string, i: nat)
    requires i <= |text|
    ensures Find(s, text[i..], key) ==
      if i == |text| then None
      else if SectionHere(s, text[i..], key) then Some(Span(0, SectionAt(text[i..], key).value))
      else ShiftSpan(Find(Feed(s, text[i]), text[i + 1..], key), 1)
  {
    hide SectionAt;
    if i < |text| { assert text[i..][1..] == text[i + 1..]; }
  }

  /** find_object */
  method FindObject(json: string, key: string) returns (r: Option<Span>)
    ensures r == Find(OUTSIDE, json, key)
  {
    hide Find, SectionAt;
    var depth, quoted, escaped := 0, false, false;
    for i := 0 to |json|
      invariant Find(OUTSIDE, json, key) == ShiftSpan(Find(Scan(depth, quoted, escaped), json[i..], key), i)
    {
      hide Find, SectionAt;
      var ch := json[i];
      FindStep(Scan(depth, quoted, escaped), json, key, i);
      if quoted {
        if escaped { escaped := false; }
        else if ch == '\\' { escaped := true; }
        else if ch == '"' { quoted := false; }
        continue;
      }
      if ch == '"' {
        if depth == 1 {
          var close := SectionClose(json, key, i);
          if close.Some? { return Some(Span(i, close.value)); }
        }
        quoted := true;
      } else if ch == '{' {
        depth := depth + 1;
      } else if ch == '}' {
        depth := depth - 1;
      }
    }
    FindStep(Scan(depth, quoted, escaped), json, key, |json|);
    r := None;
  }

  /** The quoted key stands at position i. */
  predicate TokenAt(text: string, key: string, i: nat) {
    i + |Quoted(key)| <= |text| && text[i..i + |Quoted(key)|] == Quoted(key)
  }

  lemma TokenIsPrefix(text: string, key: string, i: nat)
    requires i <= |text|
    ensures Quoted(key) <= text[i..] <==> TokenAt(text, key, i)
  {
    var token := Quoted(key);
    if token <= text[i..] { assert text[i..][..|token|] == text[i..i + |token|]; }
    if TokenAt(text, key, i) { assert text[i..][..|token|] == token; }
  }

  /** BraceOf, by positions in the whole text. */
  lemma BraceByPosition(text: string, key: string, i: nat)
    requires i < |text|
    ensures Shift(BraceOf(text[i..], key), i) ==
      if !TokenAt(text, key, i) then None
      else
        var colon := SkipSpaces(text, i + |Quoted(key)|, |text|);
        if colon < |text| && text[colon] == ':' then Some(SkipSpaces(text, colon + 1, |text|)) else None
  {
    hide Quoted, TokenAt, SkipSpaces;
    TokenIsPrefix(text, key, i);
  }

  /** The test inside find_object's loop: the closing brace of the section that starts at i. */
  method SectionClose(json: string, key: string, i: nat) returns (close: Option<nat>)
    requires i < |json|
    ensures close == Shift(SectionAt(json[i..], key), i)
  {
    hide FirstClose, SkipSpaces, BraceOf, Quoted, TokenAt;
    BraceByPosition(json, key, i);
    if !TokenAt(json, key, i) { return None; }
    var colon := PassSpaces(json, i + |Quoted(key)|, |json|);
    if colon >= |json| || json[colon] != ':' { return None; }
    var brace := PassSpaces(json, colon + 1, |json|);
    if brace == |json| || json[brace] != '{' { return None; }
    assert json[i..][brace - i..] == json[brace..];
    close := MatchingBrace(json, brace);
  }

}
