/** Exactly when every reader of the settings file finds the driver's section that was written. */
module DriverReaders {
  import opened Wrappers
  import opened JsonScanner
  import opened JsonText
  import opened JsonStrings
  import opened DriverSettings
  import opened SettingsFile
  import opened ObjectUpdate
  import opened Readers
  import opened ObjectParsing
  import opened SettingsWrite
  import opened DriverUpdate
  import opened SectionSearch
  import opened DriverCondition

  // ---------- Objects with the same text up to a key ----------

  lemma HeadUnique(a: string, b: string, x: string, y: string)
    requires (forall i | 0 <= i < |a| :: a[i] != '{') && (forall i | 0 <= i < |b| :: b[i] != '{')
    requires a + ("{" + x) == b + ("{" + y)
    ensures a == b && x == y
  {
    var text, other := a + ("{" + x), b + ("{" + y);
    assert text[|a|] == '{' && other[|b|] == '{';
    assert forall i | 0 <= i < |a| :: text[i] == a[i];
    assert forall i | 0 <= i < |b| :: other[i] == b[i];
    assert |a| == |b|;
    assert a == text[..|a|] && b == other[..|b|];
    assert x == text[|a| + 1..] && y == other[|b| + 1..];
  }

  /** Members are determined by the text up to a key behind them. */
  lemma {:induction false} MembersUpTo(ms: seq<Member>, es: seq<Member>, j: nat, y: string)
    requires MembersOk(ms) && MembersOk(es) && j < |es|
    requires PrintMembers(ms) == Before(es, j) + (es[j].lead + (Quoted(es[j].key) + y))
    ensures j < |ms| && ms[..j] == es[..j] && ms[j].lead == es[j].lead && ms[j].key == es[j].key
    decreases j
  {
    hide PrintMember, MemberOk, Quoted;
    var rest := es[j].lead + (Quoted(es[j].key) + y);
    QuoteInside(Before(es, j), es[j].lead, es[j].key, y);
    if j == 0 {
      FrontUnique(ms[0], es[0], Comma(ms) + PrintMembers(ms[1..]), y);
    } else {
      var more := Before(es[1..], j - 1) + rest;
      RegroupBefore(PrintMember(es[0]), Before(es[1..], j - 1), rest);
      MemberUnique(ms[0], es[0], Comma(ms) + PrintMembers(ms[1..]), "," + more);
      CommaThere(ms, more);
      MembersUpTo(ms[1..], es[1..], j - 1, y);
      assert ms[..j] == [ms[0]] + ms[1..][..j - 1] && es[..j] == [es[0]] + es[1..][..j - 1];
    }
  }

  lemma QuoteInside(a: string, b: string, key: string, y: string)
    ensures a + (b + (Quoted(key) + y)) != []
  {}

  lemma RegroupBefore(a: string, b: string, c: string)
    ensures (a + ("," + b)) + c == a + ("," + (b + c))
  {}

  lemma CommaThere(ms: seq<Member>, more: string)
    requires ms != [] && Comma(ms) + PrintMembers(ms[1..]) == "," + more
    ensures PrintMembers(ms[1..]) == more
  {
    hide PrintMember;
    if |ms| > 1 { TailsEqual(',', PrintMembers(ms[1..]), more); }
  }

  lemma FrontUnique(m: Member, n: Member, x: string, y: string)
    requires MemberOk(m) && MemberOk(n) && PrintMember(m) + x == [] + (n.lead + (Quoted(n.key) + y))
    ensures m.lead == n.lead && m.key == n.key
  {
    hide Raw, Print, AllBlank, Value, PrintMember;
    MemberNested(m, x);
    var a := m.mid + (":" + (m.pad + (Print(m.value) + (m.trail + x))));
    QuotedFront(m.key, a);
    QuotedFront(n.key, y);
    BlankUnique(m.lead, n.lead, Quoted(m.key) + a, Quoted(n.key) + y);
    TailsEqual('"', m.key + (['"'] + a), n.key + (['"'] + y));
    RawUnique(m.key, n.key, false, a, y);
  }

  /** An object's closing brace is not inside what another object has in front of its own. */
  lemma BodyGoesOn(body: string, tail: string, front: string, behind: string, y: string)
    requires Level(body) && Level(front + behind) && body + ("}" + tail) == front + y
    ensures front <= body
  {
    hide ScanText, FirstClose;
    FirstCloseSum(INSIDE, front, behind);
    FirstCloseSum(INSIDE, body, "}" + tail);
    OneStep(INSIDE, '}', tail);
    FirstCloseSum(INSIDE, front, y);
    assert |front| <= |body|;
    assert front == (front + y)[..|front|] == (body + ("}" + tail))[..|front|] == body[..|front|];
  }

  /** What an object has up to a member's key is in the body of another with the same text up to there. */
  lemma FrontIsThere(d: Doc, e: Doc, j: nat, y: string) returns (z: string)
    requires DocOk(d) && DocOk(e) && j < |e.members|
    requires
      var m := e.members[j];
      PrintDoc(d) == e.head + ("{" + (Before(e.members, j) + (m.lead + (Quoted(m.key) + y))))
    ensures d.head == e.head
    ensures
      var m := e.members[j];
      Body(d) == Before(e.members, j) + (m.lead + (Quoted(m.key) + z))
  {
    hide Level, MembersOk, Quoted, AllBlank, Before, PrintMembers, Body;
    var m := e.members[j];
    var front := Before(e.members, j) + (m.lead + Quoted(m.key));
    HeadUnique(d.head, e.head, Body(d) + ("}" + d.tail), Before(e.members, j) + (m.lead + (Quoted(m.key) + y)));
    BodyLevel(d);
    BodyLevel(e);
    var behind := BodyCut(e.members, j);
    BodyIsMembers(e);
    FrontGrouped(Before(e.members, j), m.lead, Quoted(m.key), y);
    BodyGoesOn(Body(d), d.tail, front, behind, y);
    z := Body(d)[|front|..];
    assert Body(d) == front + z;
    FrontGrouped(Before(e.members, j), m.lead, Quoted(m.key), z);
  }

  lemma BodyIsMembers(d: Doc)
    requires d.members != []
    ensures Body(d) == PrintMembers(d.members)
  {
    hide PrintMembers;
  }

  /** Two objects with the same text up to a member's key have the same members up to it. */
  lemma SameUpTo(d: Doc, e: Doc, j: nat, y: string)
    requires DocOk(d) && DocOk(e) && j < |e.members|
    requires
      var m := e.members[j];
      PrintDoc(d) == e.head + ("{" + (Before(e.members, j) + (m.lead + (Quoted(m.key) + y))))
    ensures j < |d.members| && d.head == e.head && d.members[..j] == e.members[..j]
    ensures d.members[j].lead == e.members[j].lead && d.members[j].key == e.members[j].key
  {
    hide PrintDoc, MembersOk, Quoted, AllBlank, Before, PrintMembers;
    var m := e.members[j];
    var z := FrontIsThere(d, e, j, y);
    if d.members == [] {
      FrontGrouped(Before(e.members, j), m.lead, Quoted(m.key), z);
      QuoteIsThere(Before(e.members, j), m.lead, m.key, z);
    } else {
      MembersUpTo(d.members, e.members, j, z);
    }
  }

  lemma FrontGrouped(a: string, b: string, c: string, y: string)
    ensures (a + (b + c)) + y == a + (b + (c + y))
  {}

  lemma QuoteIsThere(a: string, b: string, key: string, z: string)
    ensures !AllBlank((a + (b + Quoted(key))) + z)
  {
    var text := (a + (b + Quoted(key))) + z;
    assert text[|a| + |b|] == Quoted(key)[0] == '"';
  }

  lemma BodyCut(ms: seq<Member>, j: nat) returns (behind: string)
    requires j < |ms|
    ensures PrintMembers(ms) == (Before(ms, j) + (ms[j].lead + Quoted(ms[j].key))) + behind
  {
    hide PrintMember, Quoted;
    var m := ms[j];
    var more := AroundIndex(ms, j, m);
    MemberNested(m, more);
    behind := m.mid + (":" + (m.pad + (Print(m.value) + (m.trail + more))));
    FrontGrouped(Before(ms, j), m.lead, Quoted(m.key), behind);
  }

  // ---------- A value too long to stand anywhere else ----------

  /** Settings with a host longer than the file. */
  function Long(d: Doc): Settings { Settings(Letters(|PrintDoc(d)| + 20), 60, 0, 0) }

  function LongValue(d: Doc): Text { DriverValue(Long(d), true) }

  function LongSection(d: Doc): string { DriverSection(Long(d), true) }

  /** A quote with n letters behind it. */
  predicate LettersAt(text: string, h: nat, n: nat) {
    h + n < |text| && text[h] == '"' && forall i | h < i <= h + n :: text[i] == 'a'
  }

  lemma LongLetters(d: Doc) returns (h: nat)
    ensures Value(LongValue(d)) && LongSection(d) == SectionOf(KEY, LongValue(d))
    ensures LettersAt(Print(LongValue(d)), h, |PrintDoc(d)| + 20)
  {
    hide DriverValue, DriverSection, Print, Value, Quoted, PrintDoc, Escapes;
    var n, value := |PrintDoc(d)| + 20, Print(LongValue(d));
    DriverValueIs(Long(d), true);
    var front, behind := HostIn(Long(d), true);
    LettersPrint(n);
    KeyWidth();
    h := |front| - 16;
    LettersShifted("\"driver_svrt\" : ", value, front, Letters(n), behind);
  }

  lemma KeyWidth()
    ensures Quoted(KEY) + " : " == "\"driver_svrt\" : " && |"\"driver_svrt\" : "| == 16
  {}

  lemma LettersShifted(q: string, value: string, front: string, letters: string, behind: string)
    requires q + value == front + (Quoted(letters) + behind) && |front| >= |q|
    requires forall t | 0 <= t < |letters| :: letters[t] == 'a'
    ensures LettersAt(value, |front| - |q|, |letters|)
  {
    var text, h := front + (Quoted(letters) + behind), |front| - |q|;
    assert value == text[|q|..];
    assert value[h] == text[|front|] == Quoted(letters)[0];
    forall i | h < i <= h + |letters| ensures value[i] == 'a' {
      assert value[i] == text[|q| + i] == Quoted(letters)[i - h] == letters[i - h - 1];
    }
  }

  lemma SameOffset(p: string, v: string, z: string, q: string, y: string, h: nat, n: nat)
    requires LettersAt(v, h, n) && p + (v + z) == q + (v + y) && |p| <= n && |z| <= n
    ensures p == q && z == y
  {
    var text, other := p + (v + z), q + (v + y);
    assert text[|p| + h] == '"' && other[|q| + h] == '"';
    assert forall i | |p| + h < i <= |p| + h + n :: text[i] == v[i - |p|] == 'a';
    assert forall i | |q| + h < i <= |q| + h + n :: other[i] == v[i - |q|] == 'a';
    assert |p| == |q|;
    assert p == text[..|p|] && q == other[..|q|];
    assert z == text[|p| + |v|..] && y == other[|q| + |v|..];
  }

  // ---------- A key, from behind ----------

  lemma BlankBetween(pad: string, x: string, y: string, c: char)
    requires AllBlank(pad) && !IsBlank(c) && x + ([c] + pad) == y + [c, ' ']
    ensures pad == " " && x == y
  {
    var text, other := x + ([c] + pad), y + [c, ' '];
    var n := |text|;
    assert other[n - 1] == ' ' && other[n - 2] == c;
    assert text[|x|] == c && forall i | 0 <= i < |pad| :: text[|x| + 1 + i] == pad[i];
    assert |pad| == 1;
    assert pad[0] == text[n - 1];
    assert x == text[..n - 2] && y == other[..n - 2];
  }

  /** In front of the colon that the section has behind its key a member can only have that key. */
  lemma KeyFromBehind(a: string, b: string, m: Member)
    requires MemberOk(m) && Bears(m, KEY) && b + ColonOf(m) == a + (Quoted(KEY) + " : ")
    ensures m.key == KEY && a == b
  {
    hide Raw, Value, KeyRead, AllBlank;
    var k := b + Quoted(m.key);
    ColonCut(b, m, a);
    BlankBetween(m.pad, k + m.mid, a + (Quoted(KEY) + " "), ':');
    QuotedCut(b, m, a);
    BlankBetween(m.mid, b + (['"'] + m.key), a + (['"'] + KEY), '"');
    SameKey(a, b, m.key);
  }

  lemma ColonCut(b: string, m: Member, a: string)
    ensures b + ColonOf(m) == ((b + Quoted(m.key)) + m.mid) + ([':'] + m.pad)
    ensures a + (Quoted(KEY) + " : ") == (a + (Quoted(KEY) + " ")) + [':', ' ']
  {
    hide Quoted;
    assert " : " == " " + [':', ' '];
  }

  lemma QuotedCut(b: string, m: Member, a: string)
    ensures (b + Quoted(m.key)) + m.mid == (b + (['"'] + m.key)) + (['"'] + m.mid)
    ensures a + (Quoted(KEY) + " ") == (a + (['"'] + KEY)) + ['"', ' ']
  {
    assert Quoted(m.key) == (['"'] + m.key) + ['"'] && Quoted(KEY) == (['"'] + KEY) + ['"'];
  }

  lemma SameKey(a: string, b: string, raw: string)
    requires KeyRead(raw) == Some(KEY) && b + (['"'] + raw) == a + (['"'] + KEY)
    ensures raw == KEY && a == b
  {
    hide KeyRead, HasQuote;
    KeyHasNoQuote();
    if |raw| > |KEY| {
      QuoteInLonger(b, raw, a, KEY);
      QuoteInKey(raw, |raw| - |KEY| - 1);
    } else if |raw| < |KEY| {
      QuoteInLonger(a, KEY, b, raw);
    } else {
      SameBehind(a, KEY, b, raw);
    }
  }

  lemma QuoteInLonger(a: string, key: string, b: string, raw: string)
    requires a + (['"'] + key) == b + (['"'] + raw) && |key| > |raw|
    ensures key[|key| - |raw| - 1] == '"'
  {
    var i := |key| - |raw| - 1;
    assert (a + (['"'] + key))[|b|] == key[i] && (b + (['"'] + raw))[|b|] == '"';
  }

  lemma SameBehind(a: string, key: string, b: string, raw: string)
    requires a + (['"'] + key) == b + (['"'] + raw) && |key| == |raw|
    ensures a == b && key == raw
  {
    var text, other := a + (['"'] + key), b + (['"'] + raw);
    assert a == text[..|a|] && b == other[..|a|];
    assert key == text[|a| + 1..] && raw == other[|a| + 1..];
  }

  lemma QuoteInKey(raw: string, i: nat)
    requires KeyRead(raw) == Some(KEY) && i < |raw| && raw[i] == '"'
    ensures HasQuote(KEY)
  {
    hide ReadChars, HasQuote;
    var text := Quoted(raw)[1..];
    assert text == raw + ['"'] && text[i] == '"';
    QuoteIsRead(text, i);
  }

  lemma KeyHasNoQuote()
    ensures !HasQuote(KEY) && forall i | 0 <= i < |KEY| :: KEY[i] != '"'
  {}

  // ---------- What is found ----------

  lemma {:induction false} ValueThere(ms: seq<Member>, key: string, n: nat) returns (i: nat)
    requires n < |Values(ms, key)|
    ensures i < |ms| && Bears(ms[i], key) && ms[i].value == Values(ms, key)[n]
  {
    hide KeyRead;
    if Bears(ms[0], key) && n == 0 {
      i := 0;
    } else {
      i := ValueThere(ms[1..], key, if Bears(ms[0], key) then n - 1 else n);
      i := i + 1;
    }
  }

  lemma LongIsNew(d: Doc)
    requires DocOk(d)
    ensures LongValue(d) !in Values(d.members, KEY)
  {
    hide Values, LongValue, PrintDoc, Print, Quoted, Value, ColonOf, KeyPlace;
    var h := LongLetters(d);
    forall n | 0 <= n < |Values(d.members, KEY)| ensures Values(d.members, KEY)[n] != LongValue(d) {
      var i := ValueThere(d.members, KEY, n);
      var a, z := CutAtIndex(d, i, End);
    }
  }

  lemma OnlyNew(ms: seq<Member>, ns: seq<Member>, value: Text)
    requires OneWritten(ms, ns, KEY, value) && value !in Values(ms, KEY)
    requires FirstOf(ns, KEY) == LastOf(ns, KEY) == Some(value)
    ensures Sole(ms, KEY)
  {
    hide Values, Sole, Rank, PlainKey;
    KeyIsPlain();
    WrittenReaches(ms, ns, KEY, value);
    var was, now := Values(ms, KEY), Values(ns, KEY);
    assert forall i | 0 <= i < |was| :: was[i] in was;
    if |now| == 1 { assert now == [value]; }
  }

  /** Every reader of what is written finds the section. */
  ghost predicate AllFind(d: Doc, settings: Settings, enabled: bool) {
    exists e: Doc ::
      && DocOk(e) && WriteSection(PrintDoc(d), DriverSection(settings, enabled)) == Some(PrintDoc(e))
      && Values(e.members, KEY) == [DriverValue(settings, enabled)]
  }

  /** Readers find it that keep the first of several values, and readers that keep the last. */
  ghost predicate FirstAndLastFind(d: Doc, settings: Settings, enabled: bool) {
    exists e: Doc ::
      && DocOk(e) && WriteSection(PrintDoc(d), DriverSection(settings, enabled)) == Some(PrintDoc(e))
      && FirstOf(e.members, KEY) == LastOf(e.members, KEY) == Some(DriverValue(settings, enabled))
  }

  /** The object e is what is written with the long value, and the value is found in it, first and last. */
  ghost predicate LongFound(d: Doc, e: Doc) {
    && DocOk(e) && WriteSection(PrintDoc(d), LongSection(d)) == Some(PrintDoc(e))
    && FirstOf(e.members, KEY) == LastOf(e.members, KEY) == Some(LongValue(d))
  }

  lemma MeetsThenSole(d: Doc, e: Doc)
    requires DocOk(d) && LongFound(d, e) && MeetsSection(d, KEY)
    ensures Sole(d.members, KEY)
  {
    hide DocOk, PrintDoc, WriteSection, MeetsSection, DriverValue, DriverSection, Values, Put, OneWritten, PlainKey;
    KeyIsPlain();
    DriverWriteIsUpdate(d, Long(d), true);
    DocUnique(e, Put(d, KEY, LongValue(d)));
    PutIsWrittenOnce(d, KEY, LongValue(d));
    LongIsNew(d);
    OnlyNew(d.members, e.members, LongValue(d));
  }

  lemma AddedValues(d: Doc, key: string, value: Text)
    requires PlainKey(key)
    ensures Values(Added(d, key, value).members, key) == Values(d.members, key) + [value]
  {
    hide Values, PlainKey, KeyRead;
    PlainKeyRead(key);
    ValuesAdded(d.members, Added(d, key, value).members[|d.members|], key);
  }

  /** Where nothing is found, and there is a member with the key, that one stays the first. */
  lemma NowhereMeets(d: Doc, e: Doc)
    requires DocOk(d) && LongFound(d, e) && Find(OUTSIDE, PrintDoc(d), KEY).None?
    ensures MeetsSection(d, KEY)
  {
    hide DocOk, PrintDoc, WriteSection, DriverValue, DriverSection, Values, PlainKey, Find, Has, Added, SectionStands,
         SectionOf, KeyPlace, InBraces, NoneStandsBefore, Value, NoEscapes;
    KeyIsPlain();
    FoundNowhere(PrintDoc(d), KEY);
    assert forall i | 0 <= i < |Values(d.members, KEY)| :: Values(d.members, KEY)[i] in Values(d.members, KEY);
    if Has(d.members, KEY) {
      DriverValueIs(Long(d), true);
      InsertIsAdded(d, LongValue(d));
      AddedOk(d, KEY, LongValue(d));
      DocUnique(e, Added(d, KEY, LongValue(d)));
      AddedValues(d, KEY, LongValue(d));
      SpelledHas(d.members, KEY);
      LongIsNew(d);
    }
  }

  // ---------- A section found somewhere ----------

  /** The value found stands where the section was written, so a member with the key stands there. */
  lemma WrittenAtMember(d: Doc, e: Doc, span: Span) returns (j: nat)
    requires DocOk(d) && LongFound(d, e) && Find(OUTSIDE, PrintDoc(d), KEY) == Some(span)
    ensures j < |e.members| && e.members[j].key == KEY && e.members[j].value == LongValue(d)
    ensures PrintDoc(d)[..span.begin] == e.head + ("{" + (Before(e.members, j) + e.members[j].lead))
  {
    hide DocOk, PrintDoc, LongValue, LongSection, Values, Find, Print, ColonOf, KeyPlace, Value, Before, KeyRead,
         LettersAt, Quoted;
    var text, value := PrintDoc(d), Print(LongValue(d));
    j := ValueThere(e.members, KEY, 0);
    var m := e.members[j];
    var h := LongLetters(d);
    var a, z := text[..span.begin], text[span.end + 1..];
    var b, y := CutAtMember(e, j);
    SectionGrouped(a, LongValue(d), z);
    KeyWidth();
    ColonGrouped(b, ColonOf(m), value, y);
    SameOffset(a + (Quoted(KEY) + " : "), value, z, b + ColonOf(m), y, h, |text| + 20);
    MemberIsOk(e, j);
    KeyFromBehind(a, b, m);
  }

  lemma SectionGrouped(a: string, value: Text, z: string)
    ensures a + SectionOf(KEY, value) + z == (a + (Quoted(KEY) + " : ")) + (Print(value) + z)
  {
    hide Quoted, Print;
  }

  lemma ColonGrouped(b: string, colon: string, value: string, y: string)
    ensures b + (colon + (value + y)) == (b + colon) + (value + y)
  {}

  lemma CutAtMember(e: Doc, j: nat) returns (b: string, y: string)
    requires j < |e.members|
    ensures b == e.head + ("{" + (Before(e.members, j) + e.members[j].lead))
    ensures PrintDoc(e) == b + (ColonOf(e.members[j]) + (Print(e.members[j].value) + y))
  {
    hide Print, PrintMembers, PrintMember, ColonOf;
    var m := e.members[j];
    var behind := AroundIndex(e.members, j, m);
    b := e.head + ("{" + (Before(e.members, j) + m.lead));
    y := m.trail + (behind + ("}" + e.tail));
    AtMember(e.head, Before(e.members, j), m, behind, e.tail);
  }

  /** So the file had a member with the key there. */
  lemma MemberWasThere(d: Doc, e: Doc, span: Span, j: nat)
    requires DocOk(d) && DocOk(e) && j < |e.members| && e.members[j].key == KEY
    requires Find(OUTSIDE, PrintDoc(d), KEY) == Some(span)
    requires PrintDoc(d)[..span.begin] == e.head + ("{" + (Before(e.members, j) + e.members[j].lead))
    ensures j < |d.members| && d.members[j].key == KEY && KeyPlace(d, j) == span.begin
  {
    hide DocOk, PrintDoc, Find, Quoted, SectionAt, FirstClose, ScanText;
    var text, m := PrintDoc(d), e.members[j];
    FoundFirst(text, KEY, span.begin);
    TokenInFront(text[span.begin..], KEY);
    var y := text[span.begin..][|Quoted(KEY)|..];
    assert text == text[..span.begin] + (Quoted(KEY) + y);
    PrefixGrouped(e.head, Before(e.members, j), m.lead, Quoted(KEY) + y);
    SameUpTo(d, e, j, y);
    SameBefore(d.members, e.members, j);
  }

  lemma PrefixGrouped(a: string, b: string, c: string, y: string)
    ensures (a + ("{" + (b + c))) + y == a + ("{" + (b + (c + y)))
  {}

  lemma {:induction false} SameBefore(ms: seq<Member>, es: seq<Member>, j: nat)
    requires j <= |ms| && j <= |es| && ms[..j] == es[..j]
    ensures Before(ms, j) == Before(es, j)
    decreases j
  {
    hide PrintMember;
    if j > 0 {
      assert ms[0] == ms[..j][0] == es[..j][0] == es[0];
      assert ms[1..][..j - 1] == ms[..j][1..] && es[1..][..j - 1] == es[..j][1..];
      SameBefore(ms[1..], es[1..], j - 1);
    }
  }

  /** The value with what stood behind the object that was exchanged. */
  lemma ThenIsValue(value: Text, t: Text)
    requires Value(value) && Value(t) && IsBrace(t)
    ensures Value(Then(value, t.rest)) && (Then(value, t.rest) == value ==> t.rest == End)
  {
    hide Print;
    ThenLone(value, t.rest);
    ThenPrints(value, t.rest);
    RestBehind(t);
    BothCompact(Print(value), Print(t)[..|Print(t)| - |Print(t.rest)|], Print(t.rest));
    if t.rest != End { PrintsSome(t.rest); }
  }

  lemma {:induction false} ThenLone(t: Text, u: Text)
    requires Lone(t) && Lone(u)
    ensures Lone(Then(t, u))
    decreases t
  {
    match t {
      case End =>
      case Char(_, rest) => ThenLone(rest, u);
      case Str(_, rest) => ThenLone(rest, u);
      case Group(_, _, rest) => ThenLone(rest, u);
    }
  }

  lemma PrintsSome(t: Text)
    requires t != End
    ensures Print(t) != []
  {}

  lemma RestBehind(t: Text)
    requires t.Group?
    ensures |Print(t.rest)| <= |Print(t)| && Print(t) == Print(t)[..|Print(t)| - |Print(t.rest)|] + Print(t.rest)
  {
    hide Print;
    GroupText(t, []);
    var front := [Opening(t.brace)] + (Print(t.inner) + [Closing(t.brace)]);
    assert Print(t) + [] == Print(t) && Print(t.rest) + [] == Print(t.rest);
    assert Print(t) == front + Print(t.rest);
  }

  lemma BothCompact(a: string, b: string, c: string)
    requires Compact(a) && Compact(b + c)
    ensures Compact(a + c)
  {
    if c != [] {
      assert (a + c)[|a + c| - 1] == c[|c| - 1] == (b + c)[|b + c| - 1];
    } else {
      assert a + c == a;
    }
  }

  /** What is written is the text of the object with that member's value exchanged up to its closing brace. */
  lemma WrittenIsPutAt(d: Doc, j: nat, value: Text)
    requires DocOk(d) && j < |d.members| && d.members[j].key == KEY && Value(value)
    requires Find(OUTSIDE, PrintDoc(d), KEY).Some? && Find(OUTSIDE, PrintDoc(d), KEY).value.begin == KeyPlace(d, j)
    ensures IsBrace(d.members[j].value)
    ensures
      var f := PutAt(d, j, Then(value, d.members[j].value.rest));
      DocOk(f) && WriteSection(PrintDoc(d), SectionOf(KEY, value)) == Some(PrintDoc(f))
    ensures Then(value, d.members[j].value.rest) == value ==> d.members[j].value.rest == End
  {
    hide DocOk, PrintDoc, Find, PutAt, KeyPlace, SectionOf, ColonOf, Replaced, Level, SectionStands, Print, Value;
    var m := d.members[j];
    var a, z := CutAtIndex(d, j, End);
    FoundFirst(PrintDoc(d), KEY, |a|);
    MemberIsOk(d, j);
    StandsOnBrace(PrintDoc(d), a, m, z);
    BraceCut(m, z);
    assert Heads(ColonOf(m), KEY, m.mid, m.pad) by { MemberHeads(m); }
    ExchangedAt(PrintDoc(d), a, ColonOf(m), Print(m.value.inner), Print(m.value.rest) + z, KEY, SectionOf(KEY, value));
    ThenIsValue(value, m.value);
    PutAtOk(d, j, Then(value, m.value.rest));
    PutThen(d, j, a, z, value);
  }

  lemma PutThen(d: Doc, j: nat, a: string, z: string, value: Text)
    requires DocOk(d) && j < |d.members| && d.members[j].key == KEY && IsBrace(d.members[j].value) && Value(value)
    requires |a| == KeyPlace(d, j)
    requires PrintDoc(d) == a + (ColonOf(d.members[j]) + (Print(d.members[j].value) + z))
    ensures
      var rest := d.members[j].value.rest;
      PrintDoc(PutAt(d, j, Then(value, rest))) == a + SectionOf(KEY, value) + (Print(rest) + z)
  {
    hide DocOk, PrintDoc, PutAt, KeyPlace, SectionOf, ColonOf, Print, Value;
    var m := d.members[j];
    var b, y := CutAtIndex(d, j, Then(value, m.value.rest));
    SameCut(PrintDoc(d), a, b, ColonOf(m) + Print(m.value), z, y);
    SectionThen(value, m.value.rest);
    var section, rest := SectionOf(KEY, value), Print(m.value.rest);
    assert a + (section + rest) + z == a + section + (rest + z);
  }

  lemma SectionThen(value: Text, rest: Text)
    ensures SectionOf(KEY, Then(value, rest)) == SectionOf(KEY, value) + Print(rest)
  {
    hide Quoted, Print;
    ThenPrints(value, rest);
  }

  lemma PutAtOk(d: Doc, j: nat, value: Text)
    requires DocOk(d) && j < |d.members| && Value(value)
    ensures DocOk(PutAt(d, j, value))
  {
    hide Value, Raw;
  }

  /** Where the long value is found first and last, the section was found at the first member with the key. */
  lemma SomewhereMeets(d: Doc, e: Doc)
    requires DocOk(d) && LongFound(d, e) && Find(OUTSIDE, PrintDoc(d), KEY).Some?
    ensures MeetsSection(d, KEY)
  {
    hide DocOk, PrintDoc, WriteSection, LongValue, LongSection, Values, PlainKey, Find, Has, PutAt, SectionStands,
         SectionOf, KeyPlace, NoneStandsBefore, Value, NoEscapes, Then, KeyRead, Before;
    var span, value := Find(OUTSIDE, PrintDoc(d), KEY).value, LongValue(d);
    var j := WrittenAtMember(d, e, span);
    MemberWasThere(d, e, span, j);
    var h := LongLetters(d);
    WrittenIsPutAt(d, j, value);
    var m := d.members[j];
    var f := PutAt(d, j, Then(value, m.value.rest));
    DocUnique(e, f);
    PutValue(d, j, Then(value, m.value.rest));
    LongIsNew(d);
    OnlyOneThere(d, j, value);
    FoundFirst(PrintDoc(d), KEY, KeyPlace(d, j));
  }

  lemma PutValue(d: Doc, j: nat, value: Text)
    requires j < |d.members|
    ensures PutAt(d, j, value).members == d.members[j := Renewed(d.members[j], value)]
    ensures PutAt(d, j, value).members[j].value == value
  {}

  lemma OnlyOneThere(d: Doc, j: nat, value: Text)
    requires DocOk(d) && j < |d.members| && d.members[j].key == KEY && value !in Values(d.members, KEY)
    requires
      var ns := PutAt(d, j, value).members;
      FirstOf(ns, KEY) == LastOf(ns, KEY) == Some(value)
    ensures Has(d.members, KEY) && IndexOf(d.members, KEY) == j
  {
    hide DocOk, Values, KeyRead, PlainKey, PutAt;
    KeyIsPlain();
    PlainKeyRead(KEY);
    PutValue(d, j, value);
    ValuesPut(d.members, j, Renewed(d.members[j], value), KEY);
    var was := Values(d.members, KEY);
    assert forall i | 0 <= i < |was| :: was[i] in was;
    OneBears(d.members, KEY, j);
    assert Has(d.members, KEY);
  }

  // ---------- Every reader ----------

  lemma FoundThenMeets(d: Doc)
    requires DocOk(d) && FirstAndLastFind(d, Long(d), true)
    ensures MeetsSection(d, KEY) && Sole(d.members, KEY)
  {
    hide DocOk, PrintDoc, WriteSection, MeetsSection, DriverValue, DriverSection, Values, Find, Sole;
    var e: Doc :|
      && DocOk(e) && WriteSection(PrintDoc(d), LongSection(d)) == Some(PrintDoc(e))
      && FirstOf(e.members, KEY) == LastOf(e.members, KEY) == Some(LongValue(d));
    if Find(OUTSIDE, PrintDoc(d), KEY).Some? { SomewhereMeets(d, e); } else { NowhereMeets(d, e); }
    MeetsThenSole(d, e);
  }

  lemma MeetsThenFound(d: Doc, settings: Settings, enabled: bool)
    requires DocOk(d) && MeetsSection(d, KEY) && Sole(d.members, KEY)
    ensures AllFind(d, settings, enabled)
  {
    hide DocOk, PrintDoc, WriteSection, MeetsSection, DriverValue, DriverSection, Values, Put, Sole, OneWritten,
         PlainKey;
    var e := Put(d, KEY, DriverValue(settings, enabled));
    KeyIsPlain();
    DriverWriteIsUpdate(d, settings, enabled);
    PutIsWrittenOnce(d, KEY, DriverValue(settings, enabled));
    WrittenReaches(d.members, e.members, KEY, DriverValue(settings, enabled));
    assert DocOk(e);
  }

  lemma AllThenFirstAndLast(d: Doc, settings: Settings, enabled: bool)
    requires AllFind(d, settings, enabled)
    ensures FirstAndLastFind(d, settings, enabled)
  {
    hide DocOk, PrintDoc, WriteSection, DriverValue, DriverSection, Values;
    var e: Doc :|
      && DocOk(e) && WriteSection(PrintDoc(d), DriverSection(settings, enabled)) == Some(PrintDoc(e))
      && Values(e.members, KEY) == [DriverValue(settings, enabled)];
    assert DocOk(e);
  }

  /**
   * Whatever the settings, every reader of what is written finds the section under driver_svrt, if and
   * only if the write is an update of the file's object and at most one of its members was read as
   * having that key, spelled plainly. In no other case do both the readers that keep the first of
   * several values and those that keep the last find it.
   */
  lemma EveryReaderFinds(d: Doc)
    requires DocOk(d)
    ensures MeetsSection(d, KEY) && Sole(d.members, KEY)
            <==> forall settings, enabled :: AllFind(d, settings, enabled)
    ensures MeetsSection(d, KEY) && Sole(d.members, KEY)
            <==> forall settings, enabled :: FirstAndLastFind(d, settings, enabled)
  {
    hide *;
    if MeetsSection(d, KEY) && Sole(d.members, KEY) {
      forall settings, enabled ensures AllFind(d, settings, enabled) { MeetsThenFound(d, settings, enabled); }
    }
    forall settings, enabled | AllFind(d, settings, enabled) ensures FirstAndLastFind(d, settings, enabled) {
      AllThenFirstAndLast(d, settings, enabled);
    }
    if FirstAndLastFind(d, Long(d), true) { FoundThenMeets(d); }
  }

  /**
   * With plain text around the object that is so if and only if at most one member was read as having
   * the key, and if there is one it spells the key plainly and is one object, and no value holds,
   * outside braces and before that member, what reads like a section.
   */
  lemma EveryReaderFindsWherePlain(d: Doc)
    requires DocOk(d) && PlainAround(d)
    ensures Sole(d.members, KEY) && (Has(d.members, KEY) ==> InBraces(Found(d.members, KEY).value))
              && NoSectionBefore(d.members, KEY)
            <==> forall settings, enabled :: AllFind(d, settings, enabled)
  {
    hide *;
    KeyIsPlain();
    MeetsWherePlain(d, KEY);
    EveryReaderFinds(d);
  }
}
