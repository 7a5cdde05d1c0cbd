/** Where find_object comes upon a section in an object, told by the members of the object. */
module SectionSearch {
  import opened Wrappers
  import opened JsonScanner
  import opened JsonText
  import opened DriverSettings
  import opened SettingsFile
  import opened ObjectUpdate
  import opened SettingsWrite
  import opened Sections
  import opened DriverUpdate

  // ---------- A key, a colon and an object ----------

  function BehindSpaces(t: Text): Text {
    if t.Char? && IsSpace(t.c) then BehindSpaces(t.rest) else t
  }

  predicate IsColon(t: Text) { t.Char? && t.c == ':' }

  predicate IsBrace(t: Text) { t.Group? && t.brace }

  /** Next come a colon and an object, with spaces before them. */
  predicate Opens(t: Text) {
    var u := BehindSpaces(t);
    IsColon(u) && IsBrace(BehindSpaces(u.rest))
  }

  /** Where in a value, outside braces, a string equal to the key stands in front of a colon and an object. */
  function PlaceInValue(t: Text, key: string): Option<nat> {
    match t
    case End => None
    case Char(_, rest) => Shift(PlaceInValue(rest, key), 1)
    case Str(raw, rest) =>
      if raw == key && Opens(rest) then Some(0) else Shift(PlaceInValue(rest, key), |Quoted(raw)|)
    case Group(brace, inner, rest) =>
      var n := if brace then None else PlaceInValue(inner, key);
      if n.Some? then Some(1 + n.value) else Shift(PlaceInValue(rest, key), |Print(inner)| + 2)
  }

  lemma FrontCharacter(t: Text, rest: string)
    requires WellFormed(t) && !t.End?
    ensures
      var text := Print(t) + rest;
      && text != [] && (text[0] == ':' <==> IsColon(t)) && (text[0] == '{' <==> IsBrace(t))
      && (IsSpace(text[0]) <==> t.Char? && IsSpace(t.c))
  {
    match t {
      case Char(_, _) =>
      case Str(raw, more) => assert (Print(t) + rest)[0] == '"';
      case Group(_, _, _) => GroupText(t, rest);
    }
  }

  /** Passing the spaces in front of a value's text. */
  lemma {:induction false} SpacesPassed(a: string, t: Text, rest: string)
    requires WellFormed(t) && Stops(rest)
    ensures
      var text, u := a + (Print(t) + rest), BehindSpaces(t);
      var k := SkipSpaces(text, |a|, |text|);
      && WellFormed(u) && |a| <= k <= |text|
      && (u.End? ==> k == |text| || (text[k] != ':' && text[k] != '{'))
      && (!u.End? ==> k < |text| && text[k..] == Print(u) + rest)
    decreases t
  {
    hide SkipSpaces, Print, Raw, IsSpace;
    var text := a + (Print(t) + rest);
    if t.End? {
      NothingPrinted(rest);
      StopsBehind(a, rest);
    } else {
      FrontCharacter(t, rest);
      assert text[|a|] == (Print(t) + rest)[0];
      SkipsOne(text, |a|);
      if t.Char? && IsSpace(t.c) {
        OnePrinted(t, rest);
        assert text == (a + [t.c]) + (Print(t.rest) + rest);
        SpacesPassed(a + [t.c], t.rest, rest);
      } else {
        assert text[|a|..] == Print(t) + rest;
      }
    }
  }

  lemma NothingPrinted(rest: string)
    ensures Print(Text.End) == [] && Print(Text.End) + rest == rest
  {}

  lemma OnePrinted(t: Text, rest: string)
    requires t.Char?
    ensures Print(t) + rest == [t.c] + (Print(t.rest) + rest)
  {}

  lemma SkipsOne(text: string, i: nat)
    requires i < |text|
    ensures SkipSpaces(text, i, |text|) == if IsSpace(text[i]) then SkipSpaces(text, i + 1, |text|) else i
  {}

  lemma StopsBehind(a: string, rest: string)
    requires Stops(rest)
    ensures
      var text := a + rest;
      var k := SkipSpaces(text, |a|, |text|);
      |a| <= k <= |text| && (k == |text| || (text[k] != ':' && text[k] != '{'))
  {
    hide SkipSpaces;
    SpacesBehind(a, rest, 0);
  }

  /** Behind the quoted key the text is a section exactly if a colon and an object come next. */
  lemma OpensIs(key: string, t: Text, rest: string)
    requires WellFormed(t) && Stops(rest)
    ensures SectionAt(Quoted(key) + (Print(t) + rest), key).Some? <==> Opens(t)
  {
    hide SkipSpaces, Print, FirstClose, Quoted, WellFormed, Stops, BehindSpaces;
    var text := Quoted(key) + (Print(t) + rest);
    var u, colon := BehindSpaces(t), SkipSpaces(text, |Quoted(key)|, |text|);
    SpacesPassed(Quoted(key), t, rest);
    ColonIs(text, colon, u, rest);
    SectionAtColon(text, key, colon);
    if IsColon(u) { ColonOpens(text, colon, u, rest); }
  }

  lemma ColonIs(text: string, colon: nat, u: Text, rest: string)
    requires WellFormed(u) && colon <= |text|
    requires u.End? ==> colon == |text| || text[colon] != ':'
    requires !u.End? ==> colon < |text| && text[colon..] == Print(u) + rest
    ensures colon < |text| && text[colon] == ':' <==> IsColon(u)
  {
    hide Print, WellFormed;
    if !u.End? {
      FrontCharacter(u, rest);
      assert text[colon] == text[colon..][0];
    }
  }

  lemma SectionAtColon(text: string, key: string, colon: nat)
    requires Quoted(key) <= text && colon == SkipSpaces(text, |Quoted(key)|, |text|)
    ensures
      SectionAt(text, key).Some? <==>
        && colon < |text| && text[colon] == ':'
        && var brace := SkipSpaces(text, colon + 1, |text|);
           brace < |text| && text[brace] == '{' && FirstClose(OUTSIDE, text[brace..]).Some?
  {
    hide SkipSpaces, FirstClose, Quoted;
  }

  lemma ColonOpens(text: string, colon: nat, u: Text, rest: string)
    requires WellFormed(u) && IsColon(u) && Stops(rest) && colon < |text| && text[colon..] == Print(u) + rest
    ensures
      var brace := SkipSpaces(text, colon + 1, |text|);
      (brace < |text| && text[brace] == '{' && FirstClose(OUTSIDE, text[brace..]).Some?)
        <==> IsBrace(BehindSpaces(u.rest))
  {
    hide SkipSpaces, Print, FirstClose, Stops, BehindSpaces, Raw;
    var a, v := text[..colon + 1], BehindSpaces(u.rest);
    OnePrinted(u, rest);
    assert text == a + (Print(u.rest) + rest) by { assert text == text[..colon] + text[colon..]; }
    SpacesPassed(a, u.rest, rest);
    var brace := SkipSpaces(text, colon + 1, |text|);
    if !v.End? {
      FrontCharacter(v, rest);
      assert text[brace] == text[brace..][0];
      if IsBrace(v) {
        GroupText(v, rest);
        GroupLevel(v);
        BodyCloses(Print(v.inner), Print(v.rest) + rest);
        assert text[brace..] == "{" + (Print(v.inner) + ("}" + (Print(v.rest) + rest)));
      }
    }
  }

  lemma GroupLevel(t: Text)
    requires WellFormed(t) && t.Group?
    ensures Level(Print(t.inner))
  {
    hide FirstClose, ScanText, Print;
    ValueScans(INSIDE, t.inner);
  }

  // ---------- The search in a value ----------

  /** A string literal is passed, if it is not the key of a section at depth one. */
  lemma LiteralPassed(s: Scan, raw: string, rest: string, key: string)
    requires !s.quoted && !s.escaped && Raw(raw, false)
    requires s.depth == 1 ==> SectionAt(Quoted(raw) + rest, key).None?
    ensures Find(s, Quoted(raw) + rest, key) == ShiftSpan(Find(s, rest, key), |Quoted(raw)|)
  {
    hide Find, SectionAt, Raw;
    var q := s.(quoted := true);
    assert Quoted(raw) + rest == ['"'] + (raw + (['"'] + rest));
    FindStepped(s, '"', raw + (['"'] + rest), key);
    RawPassed(q, raw, ['"'] + rest, key);
    FindStepped(q, '"', rest, key);
  }

  lemma LiteralIsKey(raw: string, rest: string, key: string)
    requires NoEscapes(key) && Raw(raw, false) && SectionAt(Quoted(raw) + rest, key).Some?
    ensures raw == key
  {
    hide Raw, NoEscapes, Quoted;
    TokenInFront(Quoted(raw) + rest, key);
    TokenIsRaw(key, raw, rest);
  }

  lemma FoundHere(s: Scan, text: string, key: string)
    requires text != [] && !s.quoted && s.depth == 1 && text[0] == '"' && SectionAt(text, key).Some?
    ensures Find(s, text, key).Some? && Find(s, text, key).value.begin == 0
  {
    hide SectionAt;
  }

  /** What the search comes to in a value's text: the place told by the value's structure, or what is behind it. */
  ghost predicate FindsAt(s: Scan, text: string, length: nat, rest: string, key: string, place: Option<nat>) {
    SpanAt(s.depth == 1, Find(s, text, key), length, Find(s, rest, key), place)
  }

  /** The span found begins at the place, if sections count there, or is the one behind. */
  predicate SpanAt(counts: bool, found: Option<Span>, length: nat, behind: Option<Span>, place: Option<nat>) {
    if counts && place.Some? then found.Some? && found.value.begin == place.value
    else found == ShiftSpan(behind, length)
  }

  lemma {:induction false} ValueFound(s: Scan, t: Text, rest: string, key: string)
    requires WellFormed(t) && NoEscapes(key) && Stops(rest) && !s.quoted && !s.escaped && s.depth >= 1
    ensures FindsAt(s, Print(t) + rest, |Print(t)|, rest, key, PlaceInValue(t, key))
    decreases t
  {
    hide Find, SectionAt, Raw, NoEscapes, Stops, Opens, Quoted;
    match t {
      case End => assert Print(t) + rest == rest;
      case Char(c, more) =>
        assert Print(t) + rest == [c] + (Print(more) + rest);
        FindStepped(s, c, Print(more) + rest, key);
        ValueFound(s, more, rest, key);
      case Str(raw, more) => LiteralFound(s, t, rest, key);
      case Group(_, _, _) => GroupFound(s, t, rest, key);
    }
  }

  lemma {:induction false} LiteralFound(s: Scan, t: Text, rest: string, key: string)
    requires t.Str? && WellFormed(t) && NoEscapes(key) && Stops(rest) && !s.quoted && !s.escaped && s.depth >= 1
    ensures FindsAt(s, Print(t) + rest, |Print(t)|, rest, key, PlaceInValue(t, key))
    decreases t, 0
  {
    hide Find, SectionAt, Raw, NoEscapes, Stops, Opens, Quoted;
    var behind := Print(t.rest) + rest;
    assert Print(t) + rest == Quoted(t.raw) + behind;
    QuoteInFront(t.raw, behind);
    ValueFound(s, t.rest, rest, key);
    OpensIs(key, t.rest, rest);
    if SectionAt(Quoted(t.raw) + behind, key).Some? { LiteralIsKey(t.raw, behind, key); }
    if s.depth == 1 && t.raw == key && Opens(t.rest) {
      FoundHere(s, Quoted(t.raw) + behind, key);
    } else {
      LiteralPassed(s, t.raw, behind, key);
    }
  }

  lemma QuoteInFront(raw: string, rest: string)
    ensures (Quoted(raw) + rest)[0] == '"'
  {}

  lemma {:induction false} GroupFound(s: Scan, t: Text, rest: string, key: string)
    requires t.Group? && WellFormed(t) && NoEscapes(key) && Stops(rest) && !s.quoted && !s.escaped && s.depth >= 1
    ensures FindsAt(s, Print(t) + rest, |Print(t)|, rest, key, PlaceInValue(t, key))
    decreases t, 0
  {
    hide *;
    var u, after := Feed(s, Opening(t.brace)), Print(t.rest) + rest;
    InsideGroup(s, t);
    ClosingStops(t.brace, after);
    ValueFound(u, t.inner, [Closing(t.brace)] + after, key);
    ValueFound(s, t.rest, rest, key);
    GroupEntered(s, t, rest, key);
    GroupLeft(s, t, rest, key);
    GroupPlaced(s, t, rest, key);
  }

  lemma InsideGroup(s: Scan, t: Text)
    requires t.Group? && WellFormed(t) && !s.quoted && !s.escaped && s.depth >= 1
    ensures WellFormed(t.inner) && WellFormed(t.rest)
    ensures
      var u := Feed(s, Opening(t.brace));
      !u.quoted && !u.escaped && u.depth == if t.brace then s.depth + 1 else s.depth
  {}

  /** The opening bracket is passed. */
  lemma GroupEntered(s: Scan, t: Text, rest: string, key: string)
    requires t.Group? && !s.quoted && !s.escaped
    ensures
      var inside := Print(t.inner) + ([Closing(t.brace)] + (Print(t.rest) + rest));
      Find(s, Print(t) + rest, key) == ShiftSpan(Find(Feed(s, Opening(t.brace)), inside, key), 1)
  {
    hide Find, SectionAt, Print, ShiftSpan;
    GroupText(t, rest);
    FindStepped(s, Opening(t.brace), Print(t.inner) + ([Closing(t.brace)] + (Print(t.rest) + rest)), key);
  }

  /** The closing bracket is passed. */
  lemma GroupLeft(s: Scan, t: Text, rest: string, key: string)
    requires t.Group? && !s.quoted && !s.escaped
    ensures
      var after := Print(t.rest) + rest;
      Find(Feed(s, Opening(t.brace)), [Closing(t.brace)] + after, key) == ShiftSpan(Find(s, after, key), 1)
  {
    hide Find, SectionAt, Print, ShiftSpan;
    FindStepped(Feed(s, Opening(t.brace)), Closing(t.brace), Print(t.rest) + rest, key);
  }

  lemma GroupPlaced(s: Scan, t: Text, rest: string, key: string)
    requires t.Group? && s.depth >= 1
    requires
      var u, after := Feed(s, Opening(t.brace)), Print(t.rest) + rest;
      var inside := Print(t.inner) + ([Closing(t.brace)] + after);
      && u.depth == (if t.brace then s.depth + 1 else s.depth)
      && FindsAt(u, inside, |Print(t.inner)|, [Closing(t.brace)] + after, key, PlaceInValue(t.inner, key))
      && FindsAt(s, after, |Print(t.rest)|, rest, key, PlaceInValue(t.rest, key))
      && Find(s, Print(t) + rest, key) == ShiftSpan(Find(u, inside, key), 1)
      && Find(u, [Closing(t.brace)] + after, key) == ShiftSpan(Find(s, after, key), 1)
    ensures FindsAt(s, Print(t) + rest, |Print(t)|, rest, key, PlaceInValue(t, key))
  {
    hide *;
    var u, after := Feed(s, Opening(t.brace)), Print(t.rest) + rest;
    var closing := [Closing(t.brace)] + after;
    FindsIs(u, Print(t.inner) + closing, |Print(t.inner)|, closing, key, PlaceInValue(t.inner, key));
    FindsIs(s, after, |Print(t.rest)|, rest, key, PlaceInValue(t.rest, key));
    FindsIs(s, Print(t) + rest, |Print(t)|, rest, key, PlaceInValue(t, key));
    GroupLength(t);
    SpansJoin(s.depth == 1, t.brace, Find(u, Print(t.inner) + closing, key), |Print(t.inner)|, Find(s, after, key),
              |Print(t.rest)|, Find(s, rest, key), PlaceInValue(t.inner, key), PlaceInValue(t.rest, key));
    PlaceOfGroup(t, key);
  }

  lemma FindsIs(s: Scan, text: string, length: nat, rest: string, key: string, place: Option<nat>)
    ensures FindsAt(s, text, length, rest, key, place)
            <==> SpanAt(s.depth == 1, Find(s, text, key), length, Find(s, rest, key), place)
  {
    hide Find, SpanAt;
  }

  lemma GroupLength(t: Text)
    requires t.Group?
    ensures |Print(t)| == |Print(t.inner)| + |Print(t.rest)| + 2
  {
    hide Print;
    GroupText(t, []);
    assert Print(t) + [] == Print(t) && Print(t.rest) + [] == Print(t.rest);
  }

  lemma PlaceOfGroup(t: Text, key: string)
    requires t.Group?
    ensures PlaceInValue(t, key)
         == JoinedPlace(t.brace, PlaceInValue(t.inner, key), |Print(t.inner)|, PlaceInValue(t.rest, key))
  {
    hide Print;
  }

  function JoinedPlace(brace: bool, inner: Option<nat>, length: nat, rest: Option<nat>): Option<nat> {
    if !brace && inner.Some? then Some(1 + inner.value) else Shift(rest, length + 2)
  }

  lemma SpansJoin(counts: bool, brace: bool, inside: Option<Span>, n: nat, after: Option<Span>, m: nat,
                  behind: Option<Span>, inner: Option<nat>, rest: Option<nat>)
    requires SpanAt(counts && !brace, inside, n, ShiftSpan(after, 1), inner) && SpanAt(counts, after, m, behind, rest)
    ensures SpanAt(counts, ShiftSpan(inside, 1), n + m + 2, behind, JoinedPlace(brace, inner, n, rest))
  {}

  lemma ClosingStops(brace: bool, rest: string)
    ensures Stops([Closing(brace)] + rest)
  {}

  // ---------- The search in an object ----------

  /** Where in a member's text the key of a section stands: the member's own key, or a string in its value. */
  function PlaceInMember(m: Member, key: string): Option<nat> {
    if m.key == key && IsBrace(m.value) then Some(|m.lead|) else Shift(PlaceInValue(m.value, key), |HeadOf(m)|)
  }

  function PlaceInMembers(ms: seq<Member>, key: string): Option<nat> {
    if ms == [] then None
    else if PlaceInMember(ms[0], key).Some? then PlaceInMember(ms[0], key)
    else Shift(PlaceInMembers(ms[1..], key), |PrintMember(ms[0])| + |Comma(ms)|)
  }

  predicate TextStops(t: Text) {
    var u := BehindSpaces(t);
    !IsColon(u) && !IsBrace(u)
  }

  lemma {:induction false} SpacesThen(t: Text, u: Text)
    ensures BehindSpaces(Then(t, u)) == if BehindSpaces(t).End? then BehindSpaces(u) else Then(BehindSpaces(t), u)
    decreases t
  {
    hide IsSpace;
    if t.Char? { SpacesThen(t.rest, u); }
  }

  lemma OpensThen(t: Text, u: Text)
    requires TextStops(u)
    ensures Opens(Then(t, u)) == Opens(t)
  {
    hide IsSpace, BehindSpaces;
    SpacesThen(t, u);
    var v := BehindSpaces(t);
    if IsColon(v) { SpacesThen(v.rest, u); }
  }

  lemma {:induction false} PlaceThen(t: Text, u: Text, key: string)
    requires TextStops(u)
    ensures PlaceInValue(Then(t, u), key) ==
      if PlaceInValue(t, key).Some? then PlaceInValue(t, key) else Shift(PlaceInValue(u, key), |Print(t)|)
    decreases t
  {
    hide TextStops, Opens, Quoted;
    match t {
      case End =>
      case Char(_, rest) => PlaceThen(rest, u, key);
      case Str(raw, rest) =>
        PlaceThen(rest, u, key);
        OpensThen(rest, u);
      case Group(_, _, rest) => PlaceThen(rest, u, key);
    }
  }

  lemma {:induction false} PlaceBehindChars(s: string, u: Text, key: string)
    ensures PlaceInValue(Then(Chars(s), u), key) == Shift(PlaceInValue(u, key), |s|)
  {
    if s != [] { PlaceBehindChars(s[1..], u, key); }
  }

  lemma {:induction false} SpacesBehindBlank(s: string, u: Text)
    requires AllBlank(s)
    ensures BehindSpaces(Then(Chars(s), u)) == BehindSpaces(u)
  {
    if s != [] { SpacesBehindBlank(s[1..], u); }
  }

  lemma {:induction false} BlankStops(s: string, key: string)
    requires AllBlank(s)
    ensures TextStops(Chars(s)) && PlaceInValue(Chars(s), key).None?
  {
    if s != [] { BlankStops(s[1..], key); }
  }

  lemma ValueStarts(t: Text, u: Text)
    requires Value(t)
    ensures BehindSpaces(Then(t, u)) == Then(t, u)
  {
    hide Print, Lone;
    assert Print(t) + [] == Print(t);
    if t.End? { NothingPrinted([]); } else { FrontCharacter(t, []); }
  }

  lemma PlaceOfMember(m: Member, key: string)
    requires MemberOk(m)
    ensures PlaceInValue(MemberText(m), key) == PlaceInMember(m, key)
  {
    hide Print, Raw, Value, AllBlank, PlaceInValue, Quoted, BehindSpaces, TextStops;
    var more := Then(m.value, Chars(m.trail));
    var colon := Char(':', Then(Chars(m.pad), more));
    var behind := Then(Chars(m.mid), colon);
    PlaceBehindChars(m.lead, Str(m.key, behind), key);
    BlankStops(m.trail, key);
    PlaceThen(m.value, Chars(m.trail), key);
    PlaceBehindChars(m.pad, more, key);
    PlaceBehindChars(m.mid, colon, key);
    MemberOpens(m, more);
    PlaceSteps(m.key, behind, ':', Then(Chars(m.pad), more), key);
  }

  lemma PlaceSteps(raw: string, t: Text, c: char, u: Text, key: string)
    ensures PlaceInValue(Str(raw, t), key) ==
      if raw == key && Opens(t) then Some(0) else Shift(PlaceInValue(t, key), |Quoted(raw)|)
    ensures PlaceInValue(Char(c, u), key) == Shift(PlaceInValue(u, key), 1)
  {}

  lemma MemberOpens(m: Member, more: Text)
    requires MemberOk(m) && more == Then(m.value, Chars(m.trail))
    ensures Opens(Then(Chars(m.mid), Char(':', Then(Chars(m.pad), more)))) <==> IsBrace(m.value)
  {
    hide Print, Raw, Value, AllBlank, BehindSpaces;
    var colon := Char(':', Then(Chars(m.pad), more));
    SpacesBehindBlank(m.mid, colon);
    SpacesBehindBlank(m.pad, more);
    ValueStarts(m.value, Chars(m.trail));
    ColonIsNoSpace(Then(Chars(m.pad), more));
    ThenBrace(m.value, Chars(m.trail));
  }

  lemma ColonIsNoSpace(t: Text)
    ensures BehindSpaces(Char(':', t)) == Char(':', t) && TextStops(Char(',', t))
  {}

  lemma ThenBrace(t: Text, u: Text)
    requires Value(t)
    ensures IsBrace(Then(t, u)) == IsBrace(t)
  {}

  lemma {:induction false} PlaceOfMembers(ms: seq<Member>, key: string)
    requires MembersOk(ms)
    ensures PlaceInValue(MembersText(ms), key) == PlaceInMembers(ms, key)
    decreases |ms|
  {
    hide MemberOk, MemberText, PrintMember, PlaceInMember, TextStops;
    if ms != [] {
      PlaceOfMember(ms[0], key);
      MemberTextPrints(ms[0]);
      PlaceOfMembers(ms[1..], key);
      if |ms| > 1 {
        ColonIsNoSpace(MembersText(ms[1..]));
        PlaceThen(MemberText(ms[0]), Char(',', MembersText(ms[1..])), key);
      } else {
        assert ms[1..] == [];
      }
    }
  }

  function BodyText(d: Doc): Text { if d.members == [] then Chars(d.blank) else MembersText(d.members) }

  lemma BodyTextIs(d: Doc, key: string)
    requires DocOk(d)
    ensures Print(BodyText(d)) == Body(d) && WellFormed(BodyText(d))
    ensures PlaceInValue(BodyText(d), key) == PlaceInMembers(d.members, key)
  {
    hide MembersText, PrintMembers, MemberOk, AllBlank, PlaceInValue, WellFormed, PlaceInMember;
    if d.members == [] {
      BlankIsLoose(d.blank);
      BlankStops(d.blank, key);
    } else {
      MembersTextPrints(d.members);
      PlaceOfMembers(d.members, key);
    }
  }

  /** No quote and no closing brace in front of the object, and no quote behind it. */
  predicate PlainAround(d: Doc) {
    && (forall i | 0 <= i < |d.head| :: d.head[i] != '"' && d.head[i] != '}')
    && (forall i | 0 <= i < |d.tail| :: d.tail[i] != '"')
  }

  /**
   * Find_object on an object with only plain text around it: it comes upon the key told by the
   * members, the first that has an object as its value, or upon nothing if there is none.
   */
  lemma ObjectFound(d: Doc, key: string)
    requires DocOk(d) && PlainAround(d) && NoEscapes(key)
    ensures
      var found, place := Find(OUTSIDE, PrintDoc(d), key), PlaceInMembers(d.members, key);
      if place.Some? then found.Some? && found.value.begin == |d.head| + 1 + place.value else found.None?
  {
    hide Find, SectionAt, Body, MembersOk, PlaceInMembers, NoEscapes, Stops, AllBlank;
    var behind := "}" + d.tail;
    BodyTextIs(d, key);
    HeadIsPlain(d);
    PlainPassed(OUTSIDE, d.head, "{" + (Body(d) + behind), key);
    FindStepped(OUTSIDE, '{', Body(d) + behind, key);
    ClosingStops(true, d.tail);
    ValueFound(INSIDE, BodyText(d), behind, key);
    FindStepped(INSIDE, '}', d.tail, key);
    QuoteFreeHasNone(OUTSIDE, d.tail, key);
  }

  lemma HeadIsPlain(d: Doc)
    requires DocOk(d) && PlainAround(d)
    ensures Plain(d.head) && (forall i | 0 <= i < |d.tail| :: d.tail[i] != '"')
  {
    hide MembersOk, AllBlank;
  }
}
