/** Sections of the settings file side by side: editing one leaves what is found of the others. */
module Sections {
  import opened Wrappers
  import opened JsonScanner
  import opened JsonText
  import opened DriverSettings
  import opened SettingsFile

  /** What find_object takes for the key's section. */
  function SectionText(json: string, key: string): Option<string> {
    TextOf(json, Find(OUTSIDE, json, key))
  }

  /** The found section exchanged for another text. */
  function PutSection(json: string, key: string, section: string): string {
    var span := Find(OUTSIDE, json, key);
    if span.None? then json else Replaced(json, section, span.value)
  }

  // ---------- A section lies where it is found ----------

  /** A section that starts in text which ends back at depth one ends in it, whatever follows. */
  lemma SectionWithin(a: string, b: string, key: string)
    requires NoEscapes(key) && a != [] && ScanText(INSIDE, a) == INSIDE && Stops(b)
    requires SectionAt(a + b, key).Some?
    ensures SectionAt(a, key).Some? && SectionAt(a + b, key) == SectionAt(a, key)
  {
    hide ScanText, FirstClose, BraceOf, Stops;
    TokenInFront(a + b, key);
    TokenFits(a, b, key);
    BraceWithin(a, b, key);
    var brace := BraceOf(a, key).value;
    BraceFollowsPlain(a, key);
    assert a == a[..brace] + a[brace..];
    ScanSum(INSIDE, a[..brace], a[brace..]);
    assert (a + b)[brace] == a[brace];
    ClosesWithin(a[brace..]);
    assert (a + b)[brace..] == a[brace..] + b;
    FirstCloseSum(OUTSIDE, a[brace..], b);
  }

  /** A section found in front is found there whatever follows. */
  lemma {:induction false} FoundInFront(s: Scan, a: string, b: string, c: string, key: string)
    requires NoEscapes(key) && ScanText(s, a) == INSIDE && Stops(b) && Stops(c) && Tidy(s)
    requires Find(s, a + b, key).Some? && Find(s, a + b, key).value.begin < |a|
    ensures Find(s, a + c, key) == Find(s, a + b, key) && Find(s, a + b, key).value.end < |a|
    decreases |a|
  {
    hide SectionAt, Stops, NoEscapes, Find, ScanText;
    var t, rest := Feed(s, a[0]), a[1..];
    assert (a + b)[1..] == rest + b && (a + c)[1..] == rest + c;
    FindPasses(s, a + b, key);
    FindPasses(s, a + c, key);
    ScanPasses(s, a);
    if SectionHere(s, a + b, key) {
      SectionInside(a, c, b, key);
      SectionWithin(a, b, key);
      SectionWithin(a, c, key);
      SectionFits(a, key);
    } else {
      if SectionHere(s, a + c, key) { SectionInside(a, b, c, key); }
      FoundInFront(t, rest, b, c, key);
    }
  }

  lemma SectionFits(a: string, key: string)
    ensures SectionAt(a, key).Some? ==> SectionAt(a, key).value < |a|
  {}

  /** What is found is a section wherever it stands. */
  lemma FoundIsSection(text: string, key: string, n: nat)
    requires SectionAt(text, key) == Some(n)
    ensures n < |text| && IsSection(text[..n + 1], key)
  {
    hide FirstClose, BraceOf, Quoted;
    var section := text[..n + 1];
    var brace := BraceOf(text, key).value;
    assert text == section + text[n + 1..];
    assert text[brace..] == section[brace..] + text[n + 1..];
    FirstCloseSum(OUTSIDE, section[brace..], text[n + 1..]);
    forall rest ensures SectionAt(section + rest, key) == Some(n) {
      BraceKept(section, text[n + 1..], rest, key, brace);
      assert (section + rest)[brace..] == section[brace..] + rest;
      FirstCloseSum(OUTSIDE, section[brace..], rest);
    }
    SectionQuote(text, key);
  }

  lemma SectionQuote(text: string, key: string)
    requires SectionAt(text, key).Some?
    ensures |Quoted(key)| >= 2 && text[0] == '"' && SectionAt(text, key).value > |Quoted(key)|
  {}

  /** Where the brace is within the text, it is found whatever follows. */
  lemma BraceKept(a: string, b: string, c: string, key: string, brace: nat)
    requires BraceOf(a + b, key) == Some(brace) && brace < |a| && (a + b)[brace] == '{'
    ensures BraceOf(a + c, key) == Some(brace) && (a + c)[brace] == '{'
  {
    hide SkipSpaces, IsSpace;
    var k := |Quoted(key)|;
    SpacesThrough(a, b, k);
    SpacesThrough(a, c, k);
    var colon := SkipSpaces(a, k, |a|);
    assert k <= |a| && Quoted(key) <= a by { KeyInFront(a, b, key, brace); }
    assert Quoted(key) <= a + c;
    if colon < |a| {
      SpacesThrough(a, b, colon + 1);
      SpacesThrough(a, c, colon + 1);
    }
  }

  lemma KeyInFront(a: string, b: string, key: string, brace: nat)
    requires BraceOf(a + b, key) == Some(brace) && brace < |a|
    ensures |Quoted(key)| <= |a| && Quoted(key) <= a
  {
    assert Quoted(key) == (a + b)[..|Quoted(key)|];
    assert |Quoted(key)| <= |a| ==> (a + b)[..|Quoted(key)|] == a[..|Quoted(key)|];
  }

  // ---------- A search for one key passes the section of another ----------

  /** Text up to a brace that closes it brings the scanner back to depth zero. */
  lemma ClosedScans(text: string)
    requires text != [] && FirstClose(OUTSIDE, text) == Some(|text| - 1)
    ensures ScanText(OUTSIDE, text) == OUTSIDE
  {
    hide FirstClose, ScanText;
    var k := |text| - 1;
    FirstCloseIs(OUTSIDE, text, k);
    assert text == text[..k] + [text[k]];
    ScanSum(OUTSIDE, text[..k], [text[k]]);
    var s := ScanText(OUTSIDE, text[..k]);
    ScanTidy(OUTSIDE, text[..k]);
    assert [text[k]] == ['}'] + [];
    OneStep(s, '}', []);
    EmptyScans(Feed(s, '}'));
  }

  /** A section is its quoted key, blanks and a colon between, and a closed pair of braces. */
  lemma SectionParts(section: string, key: string) returns (brace: nat)
    requires NoEscapes(key) && IsSection(section, key)
    ensures |Quoted(key)| <= brace < |section| && Quoted(key) <= section && section[brace] == '{'
    ensures Plain(section[|Quoted(key)|..brace])
    ensures FirstClose(OUTSIDE, section[brace..]) == Some(|section| - brace - 1)
  {
    hide FirstClose, BraceOf, Plain, Quoted;
    assert section + [] == section;
    assert SectionAt(section + [], key) == Some(|section| - 1);
    brace := BraceOf(section, key).value;
    GapIsPlain(section, key);
  }

  lemma GapIsPlain(text: string, key: string)
    requires BraceOf(text, key).Some?
    ensures |Quoted(key)| <= BraceOf(text, key).value <= |text| && Quoted(key) <= text
    ensures Plain(text[|Quoted(key)|..BraceOf(text, key).value])
  {
    hide SkipSpaces, Quoted;
    var first, brace := |Quoted(key)|, BraceOf(text, key).value;
    var colon := SkipSpaces(text, first, |text|);
    forall i | first <= i < brace ensures text[i] == ':' || IsSpace(text[i]) {
      if i < colon { assert IsSpace(text[i]); }
    }
  }

  lemma FindStepped(s: Scan, c: char, rest: string, key: string)
    requires s.quoted || s.depth != 1 || c != '"' || SectionAt([c] + rest, key).None?
    ensures Find(s, [c] + rest, key) == ShiftSpan(Find(Feed(s, c), rest, key), 1)
  {
    hide SectionAt;
    assert ([c] + rest)[1..] == rest;
  }

  lemma {:induction false} RawPassed(s: Scan, raw: string, rest: string, key: string)
    requires s.quoted && Raw(raw, s.escaped)
    ensures Find(s, raw + rest, key) == ShiftSpan(Find(s.(escaped := false), rest, key), |raw|)
    decreases |raw|
  {
    hide Find, SectionAt;
    if raw == [] {
      assert raw + rest == rest && s == s.(escaped := false);
    } else {
      assert raw + rest == [raw[0]] + (raw[1..] + rest);
      FindStepped(s, raw[0], raw[1..] + rest, key);
      RawPassed(Feed(s, raw[0]), raw[1..], rest, key);
    }
  }

  /** The search passes the quoted key of another section. */
  lemma KeyPassed(other: string, rest: string, key: string)
    requires NoEscapes(key) && NoEscapes(other) && key != other
    ensures Find(INSIDE, Quoted(other) + rest, key) == ShiftSpan(Find(INSIDE, rest, key), |Quoted(other)|)
  {
    hide Find, SectionAt, Raw, NoEscapes;
    var q := INSIDE.(quoted := true);
    NoEscapesRaw(other);
    assert Quoted(other) + rest == ['"'] + (other + (['"'] + rest));
    if SectionAt(Quoted(other) + rest, key).Some? { SectionOfOther(other, rest, key); }
    FindStepped(INSIDE, '"', other + (['"'] + rest), key);
    RawPassed(q, other, ['"'] + rest, key);
    FindStepped(q, '"', rest, key);
  }

  lemma SectionOfOther(other: string, rest: string, key: string)
    requires NoEscapes(key) && NoEscapes(other) && key != other
    ensures SectionAt(Quoted(other) + rest, key).None?
  {
    var text := Quoted(other) + rest;
    if Quoted(key) <= text {
      SameQuoted(key, other, text);
      SameQuoted(other, key, text);
      if |key| == |other| { SameLength(key, other, text); }
    }
  }

  lemma SameLength(key: string, other: string, text: string)
    requires Quoted(key) <= text && Quoted(other) <= text && |key| == |other|
    ensures key == other
  {
    forall i | 0 <= i < |key| ensures key[i] == other[i] {
      assert key[i] == Quoted(key)[1 + i] == text[1 + i] == Quoted(other)[1 + i] == other[i];
    }
  }

  lemma SameQuoted(key: string, other: string, text: string)
    requires NoEscapes(key) && Quoted(key) <= text && Quoted(other) <= text
    ensures |key| <= |other|
  {
    assert forall i | 0 <= i < |key| :: text[1 + i] == Quoted(key)[1 + i] == key[i];
    assert text[1 + |other|] == Quoted(other)[1 + |other|] == '"';
  }

  lemma NoClose(s: Scan)
    ensures FirstClose(s, []) == None
  {}

  /** Within braces, below depth one, the search passes everything up to the closing one. */
  lemma {:induction false} DeepPassed(s: Scan, text: string, rest: string, key: string)
    requires s.depth >= 1 && text != [] && FirstClose(s, text) == Some(|text| - 1)
    ensures
      var t := s.(depth := s.depth + 1);
      Find(t, text + rest, key) == ShiftSpan(Find(ScanText(t, text), rest, key), |text|)
    decreases |text|
  {
    hide Find, SectionAt, ScanText, FirstClose;
    var t := s.(depth := s.depth + 1);
    assert text + rest == [text[0]] + (text[1..] + rest) && text == [text[0]] + text[1..];
    FindStepped(t, text[0], text[1..] + rest, key);
    OneStep(t, text[0], text[1..]);
    OneStep(s, text[0], text[1..]);
    if !s.quoted && text[0] == '}' && s.depth - 1 == 0 {
      assert text[1..] == [] && text[1..] + rest == rest;
      EmptyScans(Feed(t, text[0]));
    } else {
      NoClose(Feed(s, text[0]));
      DeepPassed(Feed(s, text[0]), text[1..], rest, key);
    }
  }

  /** A search for one key passes a whole section of another. */
  lemma OtherPassed(section: string, other: string, rest: string, key: string)
    requires NoEscapes(key) && NoEscapes(other) && key != other && IsSection(section, other)
    ensures Find(INSIDE, section + rest, key) == ShiftSpan(Find(INSIDE, rest, key), |section|)
  {
    hide Find, FirstClose, ScanText, IsSection, SectionAt, Quoted, Plain;
    var brace := SectionParts(section, other);
    var gap, group := section[|Quoted(other)|..brace], section[brace..];
    assert section + rest == Quoted(other) + (gap + (group + rest));
    KeyPassed(other, gap + (group + rest), key);
    PlainPassed(INSIDE, gap, group + rest, key);
    GroupPassed(group, rest, key);
  }

  lemma GroupPassed(group: string, rest: string, key: string)
    requires group != [] && group[0] == '{' && FirstClose(OUTSIDE, group) == Some(|group| - 1)
    ensures Find(INSIDE, group + rest, key) == ShiftSpan(Find(INSIDE, rest, key), |group|)
  {
    hide Find, FirstClose, ScanText, SectionAt;
    var inner := group[1..];
    assert group == ['{'] + inner;
    OneStep(OUTSIDE, '{', inner);
    ClosedScans(group);
    ScanDeeper(OUTSIDE, group, 1);
    OneStep(INSIDE, '{', inner);
    assert group + rest == ['{'] + (inner + rest);
    FindStepped(INSIDE, '{', inner + rest, key);
    DeepPassed(INSIDE, inner, rest, key);
  }

  // ---------- One section is exchanged ----------

  /** A search that goes by the middle comes to the same whichever of two texts stands there. */
  lemma MiddleExchanged(a: string, m: string, n: string, c: string, key: string)
    requires NoEscapes(key) && ScanText(OUTSIDE, a) == INSIDE && Stops(m + c) && Stops(n + c)
    requires Find(INSIDE, m + c, key) == ShiftSpan(Find(INSIDE, c, key), |m|)
    requires Find(INSIDE, n + c, key) == ShiftSpan(Find(INSIDE, c, key), |n|)
    ensures SectionText(a + (m + c), key) == SectionText(a + (n + c), key)
  {
    hide Find, ScanText, Stops, NoEscapes;
    var span := Find(OUTSIDE, a + (m + c), key);
    if span.Some? && span.value.begin < |a| {
      FoundInFront(OUTSIDE, a, m + c, n + c, key);
      SliceInFront(a, m + c, n + c, span.value.begin, span.value.end + 1);
    } else {
      hide SectionText;
      NoneBefore(OUTSIDE, a, m + c, n + c, key);
      NoneBefore(OUTSIDE, a, m + c, m + c, key);
      TextBehind(a, m, c, key);
      TextBehind(a, n, c, key);
    }
  }

  /** What is found behind a front and a middle is what is found in the rest. */
  lemma TextBehind(a: string, m: string, c: string, key: string)
    requires Find(OUTSIDE, a + (m + c), key) == ShiftSpan(ShiftSpan(Find(INSIDE, c, key), |m|), |a|)
    ensures SectionText(a + (m + c), key) == TextOf(c, Find(INSIDE, c, key))
  {
    hide Find;
    var span := Find(INSIDE, c, key);
    TextShifted(m, c, span);
    TextShifted(a, m + c, ShiftSpan(span, |m|));
  }

  function TextOf(text: string, span: Option<Span>): Option<string>
    requires span.Some? ==> span.value.begin < span.value.end < |text|
  {
    if span.None? then None else Some(text[span.value.begin..span.value.end + 1])
  }

  lemma TextShifted(a: string, b: string, span: Option<Span>)
    requires span.Some? ==> span.value.begin < span.value.end < |b|
    ensures TextOf(a + b, ShiftSpan(span, |a|)) == TextOf(b, span)
  {
    if span.Some? {
      var i, j := span.value.begin, span.value.end + 1;
      assert (a + b)[|a| + i..|a| + j] == b[i..j];
    }
  }

  lemma SliceInFront(a: string, b: string, c: string, i: nat, j: nat)
    requires i <= j <= |a|
    ensures (a + b)[i..j] == (a + c)[i..j]
  {}

  /** The text around a found section. */
  lemma AroundSection(json: string, key: string) returns (a: string, m: string, c: string)
    requires NoEscapes(key) && Find(OUTSIDE, json, key).Some?
    ensures json == a + (m + c)
    ensures ScanText(OUTSIDE, a) == INSIDE && IsSection(m, key) && SectionText(json, key) == Some(m)
    ensures Find(OUTSIDE, json, key) == Some(Span(|a|, |a| + |m| - 1))
  {
    hide Find, ScanText, IsSection, SectionAt, SectionStands, SectionHere, SectionText, NoEscapes;
    var span := Find(OUTSIDE, json, key).value;
    a, m, c := json[..span.begin], json[span.begin..span.end + 1], json[span.end + 1..];
    TextFound(json, key);
    FoundAtDepthOne(OUTSIDE, json, key);
    SectionOfSpan(json, key);
    CutInThree(json, span.begin, span.end + 1);
  }

  lemma PutAround(json: string, key: string, section: string, a: string, m: string, c: string)
    requires json == a + (m + c) && m != [] && Find(OUTSIDE, json, key) == Some(Span(|a|, |a| + |m| - 1))
    ensures PutSection(json, key, section) == a + (section + c)
  {
    hide Find;
    assert json[..|a|] == a && json[|a| + |m|..] == c;
    Joined(a, section, c);
  }

  lemma TextFound(json: string, key: string)
    requires Find(OUTSIDE, json, key).Some?
    ensures
      var span := Find(OUTSIDE, json, key).value;
      SectionText(json, key) == Some(json[span.begin..span.end + 1])
  {
    hide Find;
  }

  lemma CutInThree(text: string, i: nat, j: nat)
    requires i <= j <= |text|
    ensures text == text[..i] + (text[i..j] + text[j..])
  {}

  lemma Joined(a: string, b: string, c: string)
    ensures (a + b) + c == a + (b + c)
  {}

  lemma SectionOfSpan(json: string, key: string)
    requires Find(OUTSIDE, json, key).Some?
    ensures
      var span := Find(OUTSIDE, json, key).value;
      IsSection(json[span.begin..span.end + 1], key)
  {
    hide Find, IsSection, SectionAt, SectionStands, SectionHere;
    var span := Find(OUTSIDE, json, key).value;
    FindIs(OUTSIDE, json, key, span.begin, span.end);
    StandsClosed(OUTSIDE, json, key, span.begin);
    FoundIsSection(json[span.begin..], key, span.end - span.begin);
    assert json[span.begin..span.end + 1] == json[span.begin..][..span.end - span.begin + 1];
  }

  /** What was put is found, and nothing else has moved. */
  lemma PutReads(json: string, key: string, section: string)
    requires NoEscapes(key) && IsSection(section, key) && SectionText(json, key).Some?
    ensures SectionText(PutSection(json, key, section), key) == Some(section)
  {
    hide Find, ScanText, IsSection, Stops, NoEscapes, PutSection;
    var a, m, c := AroundSection(json, key);
    SectionHead(m, key);
    SectionHead(section, key);
    PutAround(json, key, section, a, m, c);
    HeadStops(m + c);
    HeadStops(section + c);
    NoneBefore(OUTSIDE, a, m + c, section + c, key);
    SectionBehind(section, key, [], c);
    assert [] + (section + c) == section + c;
    assert (a + (section + c))[|a|..|a| + |section|] == section;
  }

  /** The sections of all other keys are what they were. */
  lemma PutKeepsOther(json: string, key: string, section: string, other: string)
    requires NoEscapes(key) && NoEscapes(other) && key != other && IsSection(section, key)
    ensures SectionText(PutSection(json, key, section), other) == SectionText(json, other)
  {
    hide Find, ScanText, IsSection, Stops, NoEscapes, PutSection;
    if SectionText(json, key).None? {
      NothingPut(json, key, section);
    } else {
      var a, m, c := AroundSection(json, key);
      SectionHead(m, key);
      SectionHead(section, key);
      PutAround(json, key, section, a, m, c);
      HeadStops(m + c);
      HeadStops(section + c);
      OtherPassed(m, key, c, other);
      OtherPassed(section, key, c, other);
      MiddleExchanged(a, m, section, c, other);
    }
  }

  lemma NothingPut(json: string, key: string, section: string)
    requires SectionText(json, key).None?
    ensures PutSection(json, key, section) == json
  {}

  /** Putting what is there changes nothing. */
  lemma PutSame(json: string, key: string)
    requires NoEscapes(key) && SectionText(json, key).Some?
    ensures PutSection(json, key, SectionText(json, key).value) == json
  {
    hide Find, PutSection, NoEscapes, IsSection;
    var a, m, c := AroundSection(json, key);
    SectionHead(m, key);
    PutAround(json, key, m, a, m, c);
  }

  /** The sections of other keys are what they were when one is inserted in the root object. */
  lemma InsertKeepsOther(json: string, section: string, closing: nat, key: string, other: string)
    requires NoEscapes(key) && NoEscapes(other) && key != other && IsSection(section, key)
    requires RootClose(json) == Some(closing) && InRoot(json, closing)
    ensures SectionText(Inserted(json, section, closing), other) == SectionText(json, other)
  {
    hide Find, ScanText, Stops, Separator, IsSection, FirstClose, AllBlank, Plain, NoEscapes, RootClose, SectionText;
    var separator := Separator(json, FirstBrace(json), closing);
    var a, c := json[..closing], json[closing..];
    SeparatorIs(json, FirstBrace(json), closing);
    SectionStops(section, key, separator, "\n" + c);
    HeadStops(c);
    assert separator + (section + ("\n" + c)) == (separator + section + "\n") + c;
    PlainPassed(INSIDE, separator, section + ("\n" + c), other);
    OtherPassed(section, key, "\n" + c, other);
    assert Plain("\n") by { LineIsPlain(); }
    PlainPassed(INSIDE, "\n", c, other);
    assert [] + c == c;
    MiddleExchanged(a, [], separator + section + "\n", c, other);
    InsertedParts(json, section, closing);
    CutInTwo(json, closing);
  }

  lemma LineIsPlain()
    ensures Plain("\n")
  {}

  lemma InsertedParts(json: string, section: string, closing: nat)
    requires FirstBrace(json) < closing <= |json|
    ensures Inserted(json, section, closing) ==
            json[..closing] + ((Separator(json, FirstBrace(json), closing) + section + "\n") + json[closing..])
  {
    hide FirstBrace, AllBlank, Separator;
    Joined(json[..closing], Separator(json, FirstBrace(json), closing) + section + "\n", json[closing..]);
  }

  lemma CutInTwo(text: string, i: nat)
    requires i <= |text|
    ensures text == text[..i] + ([] + text[i..])
  {
    assert [] + text[i..] == text[i..];
  }
}
