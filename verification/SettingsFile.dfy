/** write_steamvr_settings on the driver's section: insert it or replace it, and find it again. */
module SettingsFile {
  import opened Wrappers
  import opened JsonScanner
  import opened JsonText
  import opened DriverSettings

  // ---------- The edit ----------

  /** The first brace, or the end. */
  function FirstBrace(json: string): (k: nat)
    ensures k <= |json| && (k < |json| ==> json[k] == '{')
    ensures forall i | 0 <= i < k :: json[i] != '{'
  {
    if json == [] || json[0] == '{' then 0 else 1 + FirstBrace(json[1..])
  }

  predicate IsBlank(c: char) { c == ' ' || c == '\t' || c == '\r' || c == '\n' }

  predicate AllBlank(text: string) { forall i | 0 <= i < |text| :: IsBlank(text[i]) }

  /** The position behind the last character that is not blank. */
  function ContentEnd(text: string): (k: nat)
    ensures k <= |text| && AllBlank(text[k..]) && (k > 0 ==> !IsBlank(text[k - 1]))
  {
    if text == [] || !IsBlank(text[|text| - 1]) then |text|
    else
      var k := ContentEnd(text[..|text| - 1]);
      assert text[k..] == text[..|text| - 1][k..] + [text[|text| - 1]];
      k
  }

  function Separator(json: string, root: nat, closing: nat): string
    requires root < closing <= |json|
  {
    if AllBlank(json[root + 1..closing]) then "\n  " else ",\n  "
  }

  /** The closing brace of the first object. */
  function RootClose(json: string): (closing: Option<nat>)
    ensures closing.Some? ==> FirstBrace(json) < closing.value < |json| && json[closing.value] == '}'
  {
    var root := FirstBrace(json);
    if root == |json| then None
    else
      assert FirstClose(OUTSIDE, json[root..]) != Some(0);
      Shift(FirstClose(OUTSIDE, json[root..]), root)
  }

  function Inserted(json: string, section: string, closing: nat): string
    requires FirstBrace(json) < closing <= |json|
  {
    json[..closing] + (Separator(json, FirstBrace(json), closing) + section + "\n") + json[closing..]
  }

  function Replaced(json: string, section: string, span: Span): string
    requires span.begin < span.end < |json|
  {
    json[..span.begin] + section + json[span.end + 1..]
  }

  function WriteSection(json: string, section: string): Option<string> {
    var span := Find(OUTSIDE, json, KEY);
    if span.Some? then Some(Replaced(json, section, span.value))
    else if RootClose(json).None? then None
    else Some(Inserted(json, section, RootClose(json).value))
  }

  /** The part of write_steamvr_settings that concerns the driver's section. */
  method WriteDriver(json: string, settings: Settings, enabled: bool) returns (text: Option<string>)
    ensures text == WriteSection(json, DriverSection(settings, enabled))
  {
    hide Find, FirstClose, DriverSection, AllBlank, IsBlank;
    var section := DriverSection(settings, enabled);
    var span := FindObject(json, KEY);
    if span.None? {
      var root := FirstBrace(json);
      if root == |json| { return None; }
      var closing := MatchingBrace(json, root);
      if closing.None? { return None; }
      assert RootClose(json) == closing;
      var previous := ContentEnd(json[..closing.value]);
      BlankToTheRoot(json, root, closing.value);
      var separator := if previous == root + 1 || previous == 0 then "\n  " else ",\n  ";
      text := Some(json[..closing.value] + (separator + section + "\n") + json[closing.value..]);
    } else {
      text := Some(json[..span.value.begin] + section + json[span.value.end + 1..]);
    }
  }

  /** The first brace stands here. */
  ghost predicate FirstOpen(text: string, open: nat) {
    open < |text| && text[open] == '{' && forall i | 0 <= i < open :: text[i] != '{'
  }

  /** There is no first brace, or it is not matched. */
  ghost predicate Unmatched(text: string) {
    forall open: nat | FirstOpen(text, open) :: FirstClose(OUTSIDE, text[open..]).None?
  }

  lemma UnmatchedIs(text: string)
    ensures Unmatched(text) <==> RootClose(text).None?
  {
    hide FirstClose;
    var root := FirstBrace(text);
    if root < |text| { assert FirstOpen(text, root); }
  }

  /** The write is refused exactly if no section is found and the first brace is not matched, or there is none. */
  lemma RefusedExactly(json: string, section: string)
    ensures WriteSection(json, section).None? <==> Find(OUTSIDE, json, KEY).None? && Unmatched(json)
  {
    hide Find, Inserted, Replaced, RootClose, Unmatched, FirstBrace;
    UnmatchedIs(json);
  }

  lemma BlankToTheRoot(json: string, root: nat, closing: nat)
    requires root < closing <= |json| && json[root] == '{'
    ensures var k := ContentEnd(json[..closing]);
      k > root && (k == root + 1 <==> AllBlank(json[root + 1..closing]))
  {
    var text := json[..closing];
    var k := ContentEnd(text);
    forall i | k <= i < |text| ensures IsBlank(text[i]) { assert text[k..][i - k] == text[i]; }
    if k == root + 1 { assert text[k..] == json[root + 1..closing]; }
    if k > root + 1 { assert json[root + 1..closing][k - 1 - (root + 1)] == text[k - 1]; }
  }

  // ---------- Lookahead ----------

  /** No section's colon or brace can be found by looking on into this text. */
  predicate Stops(text: string) {
    var k := SkipSpaces(text, 0, |text|);
    k == |text| || (text[k] != ':' && text[k] != '{')
  }

  lemma {:induction false} SpacesThrough(a: string, b: string, i: nat)
    requires i <= |a|
    ensures
      var k := SkipSpaces(a, i, |a|);
      SkipSpaces(a + b, i, |a + b|) == if k < |a| then k else |a| + SkipSpaces(b, 0, |b|)
    decreases |a| - i
  {
    if i < |a| {
      assert (a + b)[i] == a[i];
      if IsSpace(a[i]) { SpacesThrough(a, b, i + 1); }
    } else {
      SpacesBehind(a, b, 0);
    }
  }

  lemma {:induction false} SpacesBehind(a: string, b: string, i: nat)
    requires i <= |b|
    ensures SkipSpaces(a + b, |a| + i, |a + b|) == |a| + SkipSpaces(b, i, |b|)
    decreases |b| - i
  {
    if i < |b| {
      assert (a + b)[|a| + i] == b[i];
      if IsSpace(b[i]) { SpacesBehind(a, b, i + 1); }
    }
  }

  lemma PartOfToken(a: string, c: string, key: string)
    requires NoEscapes(key) && 0 < |a| < |Quoted(key)| && Quoted(key) <= a + c
    ensures ScanText(INSIDE, a).quoted
  {
    hide ScanText;
    NoEscapesRaw(key);
    QuotedScans(INSIDE, key);
    assert a == (a + c)[..|a|] == Quoted(key)[..|a|];
  }

  /** A key that the scanner has left fits into the text it has scanned. */
  lemma TokenFits(a: string, c: string, key: string)
    requires NoEscapes(key) && a != [] && ScanText(INSIDE, a) == INSIDE && Quoted(key) <= a + c
    ensures Quoted(key) <= a
  {
    hide ScanText;
    if |a| < |Quoted(key)| {
      PartOfToken(a, c, key);
    } else {
      assert a[..|Quoted(key)|] == (a + c)[..|Quoted(key)|];
    }
  }

  /** Where the brace is within the text, what follows the text is of no account. */
  lemma BraceWithin(a: string, b: string, key: string)
    requires Quoted(key) <= a && Stops(b)
    ensures
      var brace, all := BraceOf(a, key), BraceOf(a + b, key);
      && (brace.Some? && brace.value < |a| ==> all == brace)
      && (brace.None? || brace.value == |a| ==> all.None? || all.value == |a + b| || (a + b)[all.value] != '{')
  {
    hide SkipSpaces, IsSpace;
    assert Quoted(key) <= a + b;
    SpacesThrough(a, b, |Quoted(key)|);
    var colon := SkipSpaces(a, |Quoted(key)|, |a|);
    if colon < |a| && a[colon] == ':' { SpacesThrough(a, b, colon + 1); }
  }

  lemma BraceFollowsPlain(a: string, key: string)
    requires NoEscapes(key) && Quoted(key) <= a && BraceOf(a, key).Some?
    ensures ScanText(INSIDE, a[..BraceOf(a, key).value]) == INSIDE
  {
    hide ScanText;
    var brace := BraceOf(a, key).value;
    NoEscapesRaw(key);
    QuotedScans(INSIDE, key);
    var gap := a[|Quoted(key)|..brace];
    assert a[..brace] == Quoted(key) + gap;
    assert Plain(gap);
    PlainScans(INSIDE, gap);
    ScanSum(INSIDE, Quoted(key), gap);
  }

  /** A section that opens in text which ends back at depth one also closes in it. */
  lemma SectionInside(a: string, b: string, c: string, key: string)
    requires NoEscapes(key) && a != [] && ScanText(INSIDE, a) == INSIDE && Stops(b) && Stops(c)
    requires SectionAt(a + c, key).Some?
    ensures SectionAt(a + b, key).Some?
  {
    hide ScanText, FirstClose, BraceOf, Stops;
    TokenInFront(a + c, key);
    TokenFits(a, c, key);
    BraceWithin(a, c, key);
    var brace := BraceOf(a, key).value;
    BraceFollowsPlain(a, key);
    assert a == a[..brace] + a[brace..];
    ScanSum(INSIDE, a[..brace], a[brace..]);
    assert (a + c)[brace] == a[brace];
    ClosesWithin(a[brace..]);
    BraceWithin(a, b, key);
    assert (a + b)[brace..] == a[brace..] + b;
    FirstCloseSum(OUTSIDE, a[brace..], b);
  }

  lemma TokenInFront(text: string, key: string)
    requires SectionAt(text, key).Some?
    ensures Quoted(key) <= text
  {}

  lemma ClosesWithin(text: string)
    requires text != [] && text[0] == '{' && ScanText(INSIDE, text) == INSIDE
    ensures FirstClose(OUTSIDE, text).Some?
  {
    hide ScanText, FirstClose;
    var rest := text[1..];
    assert text == ['{'] + rest;
    OneStep(INSIDE, '{', rest);
    OneStep(OUTSIDE, '{', rest);
    var two := Scan(2, false, false);
    ScanDeeper(two, rest, -1);
    DepthReturns(INSIDE, rest);
  }

  /** Text in which no section starts has none either when something else follows it. */
  lemma {:induction false} NoneBefore(s: Scan, a: string, b: string, c: string, key: string)
    requires NoEscapes(key) && ScanText(s, a) == INSIDE && Stops(b) && Stops(c) && Tidy(s)
    requires Find(s, a + b, key).Some? ==> Find(s, a + b, key).value.begin >= |a|
    ensures Find(s, a + c, key) == ShiftSpan(Find(INSIDE, c, key), |a|)
    decreases |a|
  {
    hide SectionAt, Stops, NoEscapes, Find, ScanText;
    if a == [] {
      EmptyScans(s);
      assert a + c == c;
    } else {
      var t, rest := Feed(s, a[0]), a[1..];
      assert (a + b)[1..] == rest + b && (a + c)[1..] == rest + c;
      if SectionHere(s, a + c, key) { SectionInside(a, b, c, key); }
      FindPasses(s, a + b, key);
      FindPasses(s, a + c, key);
      ScanPasses(s, a);
      NoneBefore(t, rest, b, c, key);
    }
  }

  lemma FindPasses(s: Scan, text: string, key: string)
    requires text != []
    ensures Find(s, text, key) ==
      if SectionHere(s, text, key) then Some(Span(0, SectionAt(text, key).value))
      else ShiftSpan(Find(Feed(s, text[0]), text[1..], key), 1)
  {
    hide SectionAt;
  }

  lemma ScanPasses(s: Scan, text: string)
    requires text != []
    ensures ScanText(s, text) == ScanText(Feed(s, text[0]), text[1..]) && (Tidy(s) ==> Tidy(Feed(s, text[0])))
  {}

  /** Outside quotes nothing is escaped. */
  predicate Tidy(s: Scan) { s.escaped ==> s.quoted }

  lemma {:induction false} ScanTidy(s: Scan, text: string)
    requires Tidy(s)
    ensures Tidy(ScanText(s, text))
    decreases |text|
  {
    if text != [] { ScanTidy(Feed(s, text[0]), text[1..]); }
  }

  /** A found section starts outside quotes, at depth one, with a quote. */
  lemma {:induction false} FoundAtDepthOne(s: Scan, text: string, key: string)
    requires Tidy(s) && Find(s, text, key).Some?
    ensures
      var span := Find(s, text, key).value;
      && ScanText(s, text[..span.begin]) == INSIDE && text[span.begin] == '"'
    decreases |text|
  {
    hide SectionAt;
    if !SectionHere(s, text, key) {
      FoundAtDepthOne(Feed(s, text[0]), text[1..], key);
      var begin := Find(s, text, key).value.begin;
      assert text[..begin][1..] == text[1..][..begin - 1];
    }
  }

  // ---------- The written section is found again ----------

  /** find_object's test finds this text as the key's section, whatever follows it. */
  ghost predicate IsSection(section: string, key: string) {
    |section| > 1 && section[0] == '"' && forall rest :: SectionAt(section + rest, key) == Some(|section| - 1)
  }

  lemma DriverIsSection(settings: Settings, enabled: bool)
    ensures IsSection(DriverSection(settings, enabled), KEY)
  {
    hide DriverSection, SectionAt;
    forall rest: string ensures SectionAt(DriverSection(settings, enabled) + rest, KEY)
                                == Some(|DriverSection(settings, enabled)| - 1) {
      SectionFound(settings, enabled, rest);
    }
    SectionFound(settings, enabled, []);
  }

  lemma SectionStops(section: string, key: string, before: string, rest: string)
    requires IsSection(section, key) && (AllBlank(before) || (|before| > 0 && before[0] == ','))
    ensures Stops(before + (section + rest))
  {
    hide IsSection;
    assert |section| > 0 && section[0] == '"' by { SectionHead(section, key); }
    var text := before + (section + rest);
    assert |before| < |text| && text[|before|] == '"';
    var k := SkipSpaces(text, 0, |text|);
    assert k <= |before|;
    if k < |before| { assert text[k] == before[k]; }
  }

  lemma SectionHead(section: string, key: string)
    requires IsSection(section, key)
    ensures |section| > 1 && section[0] == '"'
  {}

  /** Behind plain text the section starts. */
  lemma SectionBehind(section: string, key: string, before: string, rest: string)
    requires IsSection(section, key) && Plain(before)
    ensures Find(INSIDE, before + (section + rest), key) == Some(Span(|before|, |before| + |section| - 1))
  {
    hide SectionAt, Plain;
    PlainPassed(INSIDE, before, section + rest, key);
    assert SectionAt(section + rest, key) == Some(|section| - 1);
  }

  lemma {:induction false} PlainPassed(s: Scan, before: string, text: string, key: string)
    requires Plain(before) && !s.quoted
    ensures Find(s, before + text, key) == ShiftSpan(Find(s, text, key), |before|)
    decreases |before|
  {
    hide SectionAt;
    if before == [] {
      assert before + text == text;
    } else {
      assert (before + text)[1..] == before[1..] + text;
      PlainPassed(s, before[1..], text, key);
    }
  }

  /** What comes before is kept, the section stands at its place, and a second write changes nothing. */
  ghost predicate Settled(text: string, section: string, begin: nat) {
    && begin + |section| <= |text| && text[begin..begin + |section|] == section
    && |section| > 0 && Find(OUTSIDE, text, KEY) == Some(Span(begin, begin + |section| - 1))
    && WriteSection(text, section) == Some(text)
  }

  lemma FoundIsSettled(text: string, section: string, begin: nat)
    requires |section| > 1 && begin + |section| <= |text| && text[begin..begin + |section|] == section
    requires Find(OUTSIDE, text, KEY) == Some(Span(begin, begin + |section| - 1))
    ensures Settled(text, section, begin)
  {
    hide Find, RootClose, FirstBrace, Inserted, Replaced;
    ReplacedBySame(text, section, begin);
  }

  lemma ReplacedBySame(text: string, section: string, begin: nat)
    requires |section| > 1 && begin + |section| <= |text| && text[begin..begin + |section|] == section
    ensures Replaced(text, section, Span(begin, begin + |section| - 1)) == text
  {
    var end := begin + |section|;
    assert text[..end] == text[..begin] + section;
    assert text == text[..end] + text[end..];
  }

  /** After a replacement the section found is exactly the one printed. */
  lemma ReplacedIsSettled(json: string, section: string)
    requires IsSection(section, KEY) && Find(OUTSIDE, json, KEY).Some?
    ensures
      var span := Find(OUTSIDE, json, KEY).value;
      Settled(Replaced(json, section, span), section, span.begin)
  {
    hide Find, ScanText, Stops, IsSection, Settled;
    var span := Find(OUTSIDE, json, KEY).value;
    var a, b, rest := json[..span.begin], json[span.begin..], json[span.end + 1..];
    FoundAtDepthOne(OUTSIDE, json, KEY);
    SectionHead(section, KEY);
    HeadStops(b);
    HeadStops(section + rest);
    assert json == a + b;
    NoneBefore(OUTSIDE, a, b, section + rest, KEY);
    SectionBehind(section, KEY, [], rest);
    assert [] + (section + rest) == section + rest;
    assert Replaced(json, section, span) == a + (section + rest);
    FoundIsSettled(a + (section + rest), section, |a|);
  }

  lemma HeadStops(text: string)
    requires text != [] && (text[0] == '"' || text[0] == '}')
    ensures Stops(text)
  {}

  /** The scanner, run over the text before the insertion, is outside quotes and inside one object. */
  ghost predicate InRoot(json: string, closing: nat)
    requires closing <= |json|
  {
    ScanText(OUTSIDE, json[..closing]) == INSIDE
  }

  /** Text without quotes, braces and backslashes does not move the scanner. */
  lemma {:induction false} NeutralScans(s: Scan, text: string)
    requires Plain(text) && forall i | 0 <= i < |text| :: text[i] != '\\'
    ensures ScanText(s, text).quoted == s.quoted && ScanText(s, text).depth == s.depth
    decreases |text|
  {
    if text != [] { NeutralScans(Feed(s, text[0]), text[1..]); }
  }

  /**
   * After an insertion the section found is exactly the one printed if and only if the scanner was
   * in the root object where the section went.
   */
  lemma InsertedIsFound(json: string, section: string)
    requires IsSection(section, KEY) && Find(OUTSIDE, json, KEY).None? && RootClose(json).Some?
    ensures
      var closing := RootClose(json).value;
      var begin := closing + |Separator(json, FirstBrace(json), closing)|;
      InRoot(json, closing) <==>
        Find(OUTSIDE, Inserted(json, section, closing), KEY) == Some(Span(begin, begin + |section| - 1))
  {
    hide *;
    var closing := RootClose(json).value;
    var separator := Separator(json, FirstBrace(json), closing);
    var begin := closing + |separator|;
    var text := Inserted(json, section, closing);
    if InRoot(json, closing) { FoundInRoot(json, section, closing); }
    if Find(OUTSIDE, text, KEY) == Some(Span(begin, begin + |section| - 1)) { InRootIfFound(json, section, closing); }
  }

  lemma FoundInRoot(json: string, section: string, closing: nat)
    requires IsSection(section, KEY) && Find(OUTSIDE, json, KEY).None? && RootClose(json) == Some(closing)
    requires InRoot(json, closing)
    ensures
      var begin := closing + |Separator(json, FirstBrace(json), closing)|;
      Find(OUTSIDE, Inserted(json, section, closing), KEY) == Some(Span(begin, begin + |section| - 1))
  {
    hide Find, ScanText, Stops, Separator, IsSection, FirstClose, AllBlank, Plain;
    var separator := Separator(json, FirstBrace(json), closing);
    var a, b, rest := json[..closing], json[closing..], "\n" + json[closing..];
    SeparatorIs(json, FirstBrace(json), closing);
    HeadStops(b);
    SectionStops(section, KEY, separator, rest);
    assert json == a + b;
    NoneBefore(OUTSIDE, a, b, separator + (section + rest), KEY);
    SectionBehind(section, KEY, separator, rest);
    assert Inserted(json, section, closing) == a + (separator + (section + rest));
  }

  lemma InRootIfFound(json: string, section: string, closing: nat)
    requires RootClose(json) == Some(closing) && |section| > 1
    requires
      var begin := closing + |Separator(json, FirstBrace(json), closing)|;
      Find(OUTSIDE, Inserted(json, section, closing), KEY) == Some(Span(begin, begin + |section| - 1))
    ensures InRoot(json, closing)
  {
    hide Find, ScanText, Separator, FirstClose, AllBlank, Plain;
    var separator := Separator(json, FirstBrace(json), closing);
    var a, text := json[..closing], Inserted(json, section, closing);
    SeparatorIs(json, FirstBrace(json), closing);
    FoundAtDepthOne(OUTSIDE, text, KEY);
    assert text[..|a| + |separator|] == a + separator;
    ScanSum(OUTSIDE, a, separator);
    NeutralScans(ScanText(OUTSIDE, a), separator);
    ScanTidy(OUTSIDE, a);
  }

  lemma SeparatorIs(json: string, root: nat, closing: nat)
    requires root < closing <= |json|
    ensures
      var separator := Separator(json, root, closing);
      && (AllBlank(separator) || separator[0] == ',') && |separator| > 0
      && Plain(separator) && forall i | 0 <= i < |separator| :: separator[i] != '\\'
  {}

  /** With nothing but quote-free and brace-free text before the first brace, the scanner is in the root object. */
  lemma CleanHeadIsInRoot(json: string)
    requires RootClose(json).Some?
    requires forall i | 0 <= i < FirstBrace(json) :: json[i] != '"' && json[i] != '}'
    ensures InRoot(json, RootClose(json).value)
  {
    hide ScanText, FirstClose;
    var root := FirstBrace(json);
    var closing := RootClose(json).value;
    var k := closing - root;
    FirstCloseIs(OUTSIDE, json[root..], k);
    PlainScans(OUTSIDE, json[..root]);
    ScanSum(OUTSIDE, json[..root], json[root..][..k]);
    assert json[..closing] == json[..root] + json[root..][..k];
    ScanTidy(OUTSIDE, json[root..][..k]);
  }

  /**
   * The printer and the scanner agree: for every host and every text with a matched first brace
   * and no quote or closing brace before it, what is written is found again exactly, the rest of
   * the text is kept, and a second write changes nothing.
   */
  lemma PrinterAndScannerAgree(json: string, settings: Settings, enabled: bool) returns (begin: nat)
    requires RootClose(json).Some?
    requires forall i | 0 <= i < FirstBrace(json) :: json[i] != '"' && json[i] != '}'
    ensures
      var section := DriverSection(settings, enabled);
      var written := WriteSection(json, section);
      && written.Some? && Settled(written.value, section, begin)
      && (Find(OUTSIDE, json, KEY).Some? ==> begin == Find(OUTSIDE, json, KEY).value.begin)
  {
    hide Find, DriverSection, ScanText, RootClose, Separator, Settled, InRoot, IsSection;
    var section := DriverSection(settings, enabled);
    DriverIsSection(settings, enabled);
    if Find(OUTSIDE, json, KEY).Some? {
      begin := Find(OUTSIDE, json, KEY).value.begin;
      ReplacedIsSettled(json, section);
    } else {
      var closing := RootClose(json).value;
      var separator := Separator(json, FirstBrace(json), closing);
      begin := closing + |separator|;
      CleanHeadIsInRoot(json);
      InsertedIsFound(json, section);
      SectionHead(section, KEY);
      var text := Inserted(json, section, closing);
      assert text[begin..begin + |section|] == section;
      FoundIsSettled(text, section, begin);
    }
  }

  /** The condition is needed: a stray closing brace in front hides the section that is inserted. */
  lemma StrayBraceHidesSection(section: string)
    requires IsSection(section, KEY)
    ensures
      var json := "}{}";
      && RootClose(json) == Some(2) && Find(OUTSIDE, json, KEY).None?
      && Find(OUTSIDE, Inserted(json, section, 2), KEY) != Some(Span(5, 5 + |section| - 1))
  {
    hide IsSection, ScanText, Find, RootClose;
    StrayBraceScans("}{}");
    InsertedIsFound("}{}", section);
  }

  lemma StrayBraceScans(json: string)
    requires |json| == 3 && json[0] == '}' && json[1] == '{' && json[2] == '}'
    ensures FirstBrace(json) == 1 && RootClose(json) == Some(2) && Find(OUTSIDE, json, KEY).None?
    ensures ScanText(OUTSIDE, json[..2]) == OUTSIDE && Separator(json, 1, 2) == "\n  "
  {
    hide *;
    QuoteFreeHasNone(OUTSIDE, json, KEY);
    assert json[..2] == ['}', '{'];
    assert json[1..] == ['{', '}'];
    TwoScan('}', '{');
    TwoScan('{', '}');
    RootCloseIs(json, 1, 1);
    SeparatorOfEmpty(json, 1);
  }

  lemma RootCloseIs(json: string, root: nat, k: nat)
    requires FirstBrace(json) == root < |json| && FirstClose(OUTSIDE, json[root..]) == Some(k)
    ensures RootClose(json) == Some(root + k)
  {
    hide FirstBrace, FirstClose;
  }

  lemma SeparatorOfEmpty(json: string, root: nat)
    requires root + 1 <= |json|
    ensures Separator(json, root, root + 1) == "\n  " && Feed(Feed(OUTSIDE, '}'), '{') == OUTSIDE
  {}

  lemma TwoScan(a: char, b: char)
    ensures ScanText(OUTSIDE, [a, b]) == Feed(Feed(OUTSIDE, a), b)
    ensures a == '{' && b == '}' ==> FirstClose(OUTSIDE, [a, b]) == Some(1)
  {
    hide ScanText, FirstClose;
    var s := Feed(OUTSIDE, a);
    assert [a, b] == [a] + [b] && [b] == [b] + [];
    OneStep(OUTSIDE, a, [b]);
    OneStep(s, b, []);
    EmptyScans(Feed(s, b));
  }

  lemma {:induction false} QuoteFreeHasNone(s: Scan, text: string, key: string)
    requires forall i | 0 <= i < |text| :: text[i] != '"'
    ensures Find(s, text, key).None?
    decreases |text|
  {
    hide SectionAt;
    if text != [] { QuoteFreeHasNone(Feed(s, text[0]), text[1..], key); }
  }
}
