/** Exactly when writing the driver's section is an update of the settings file, and what happens else. */
module DriverCondition {
  import opened Wrappers
  import opened JsonScanner
  import opened JsonText
  import opened JsonStrings
  import opened DriverSettings
  import opened SettingsFile
  import opened ObjectUpdate
  import opened ObjectParsing
  import opened SettingsWrite
  import opened DriverContents
  import opened DriverUpdate
  import opened SectionSearch

  // ---------- A section that went to another place is seen ----------

  /** A host of n letters. */
  function Letters(n: nat): string { seq(n, _ => 'a') }

  lemma {:induction false} LettersPrint(n: nat)
    ensures Escapes(Letters(n)) == Letters(n)
  {
    hide Escapes, Escape;
    if n == 0 {
      NothingEscaped();
    } else {
      LettersPrint(n - 1);
      LetterEscaped(Letters(n - 1));
      assert Letters(n) == Letters(n - 1) + ['a'];
    }
  }

  lemma NothingEscaped()
    ensures Escapes("") == ""
  {}

  lemma LetterEscaped(s: string)
    ensures Escapes(s + ['a']) == Escapes(s) + ['a']
  {
    hide Escape;
    var t := s + ['a'];
    assert t[..|t| - 1] == s;
    LetterIsKept();
  }

  lemma LetterIsKept()
    ensures Escape('a') == ['a']
  {}

  /** The host stands in the section as json_string prints it. */
  lemma HostIn(settings: Settings, enabled: bool) returns (front: string, behind: string)
    ensures DriverSection(settings, enabled) == front + (JsonString(settings.host) + behind) && |front| >= 18
  {
    hide JsonString, PrintField, Decimal;
    var fields := Fields(settings, enabled);
    FieldsAreThere(settings, enabled);
    FieldPrinted(fields);
    FieldPrinted(fields[1..]);
    assert fields[1..][0] == fields[1] == ("receiver_host", JsonString(settings.host));
    var key := "  " + (Quoted("receiver_host") + " : ");
    HostField(settings.host);
    var more := ",\n" + PrintFields(fields[2..]);
    assert fields[1..][1..] == fields[2..];
    front := "\"driver_svrt\" : {\n" + (PrintField(fields[0]) + (",\n" + key));
    behind := more + "}";
    HostGrouped("\"driver_svrt\" : {\n", PrintField(fields[0]), key, JsonString(settings.host), more);
  }

  lemma FieldPrinted(fields: seq<(string, string)>)
    requires |fields| > 1
    ensures PrintFields(fields) == PrintField(fields[0]) + (",\n" + PrintFields(fields[1..]))
  {
    hide PrintField;
  }

  lemma HostField(host: string)
    ensures PrintField(("receiver_host", JsonString(host)))
         == ("  " + (Quoted("receiver_host") + " : ")) + JsonString(host)
  {
    hide JsonString;
  }

  lemma HostGrouped(a: string, b: string, key: string, host: string, more: string)
    ensures a + (b + (",\n" + ((key + host) + more))) + "}" == (a + (b + (",\n" + key))) + (host + (more + "}"))
  {}

  /** Two texts that hold the section at different places differ for a host that is long enough. */
  lemma ShiftedDiffers(a: string, b: string, c: string, d: string, settings: Settings, enabled: bool)
    requires |a| < |c| && settings.host == Letters(|c| - |a|)
    ensures a + DriverSection(settings, enabled) + b != c + DriverSection(settings, enabled) + d
  {
    hide DriverSection;
    var n := |c| - |a|;
    var front, behind := HostIn(settings, enabled);
    var section := DriverSection(settings, enabled);
    LettersPrint(n);
    assert JsonString(settings.host) == "\"" + Letters(n) + "\"";
    assert section[|front|] == '"' && section[|front| + n] == 'a';
    var i := |c| + |front|;
    assert (a + section + b)[i] == section[|front| + n];
    assert (c + section + d)[i] == section[|front|];
  }

  lemma PlacesDiffer(a: string, b: string, c: string, d: string) returns (settings: Settings)
    requires |a| != |c|
    ensures forall enabled :: a + DriverSection(settings, enabled) + b != c + DriverSection(settings, enabled) + d
  {
    hide DriverSection;
    settings := Settings(Letters(if |a| < |c| then |c| - |a| else |a| - |c|), 60, 0, 0);
    forall enabled
      ensures a + DriverSection(settings, enabled) + b != c + DriverSection(settings, enabled) + d
    {
      if |a| < |c| {
        ShiftedDiffers(a, b, c, d, settings, enabled);
      } else {
        ShiftedDiffers(c, d, a, b, settings, enabled);
      }
    }
  }

  // ---------- The exact condition ----------

  /** The write is the update, for these settings. */
  predicate Updates(d: Doc, settings: Settings, enabled: bool) {
    WriteSection(PrintDoc(d), DriverSection(settings, enabled))
      == Some(PrintDoc(Put(d, KEY, DriverValue(settings, enabled))))
  }

  /** Where nothing is found a member is added, which is no update if there is one. */
  lemma AddedIsNotPut(d: Doc, settings: Settings, enabled: bool)
    requires DocOk(d) && Has(d.members, KEY) && Find(OUTSIDE, PrintDoc(d), KEY).None?
    ensures !Updates(d, settings, enabled)
  {
    hide DocOk, PrintDoc, Find, WriteSection, Anew, DriverValue, DriverSection, Value;
    var value := DriverValue(settings, enabled);
    DriverValueIs(settings, enabled);
    KeyIsPlain();
    InsertIsAdded(d, value);
    AddedOk(d, KEY, value);
    PutOk(d, KEY, value);
    AnewLength(d.members, KEY, value);
    if PrintDoc(Added(d, KEY, value)) == PrintDoc(Put(d, KEY, value)) {
      DocUnique(Added(d, KEY, value), Put(d, KEY, value));
    }
  }

  lemma AddedOk(d: Doc, key: string, value: Text)
    requires DocOk(d) && NoEscapes(key) && Value(value)
    ensures DocOk(Added(d, key, value)) && |Added(d, key, value).members| == |d.members| + 1
  {
    hide Value, NoEscapes, Raw;
    NoEscapesRaw(key);
    assert MemberOk(Added(d, key, value).members[|d.members|]);
  }

  /** Where something is found and no member has the key, a part of the text is gone. */
  lemma ReplacedIsNotAdded(d: Doc, settings: Settings, enabled: bool)
    requires DocOk(d) && !Has(d.members, KEY) && Find(OUTSIDE, PrintDoc(d), KEY).Some?
    ensures !Updates(d, settings, enabled)
  {
    hide DocOk, PrintDoc, Find, Has, DriverValue, DriverSection, Put, Added, SectionOf;
    var value := DriverValue(settings, enabled);
    DriverValueIs(settings, enabled);
    PutIsAdded(d, KEY, value);
    AddedIsLonger(d, KEY, value);
    ReplacedLength(PrintDoc(d), SectionOf(KEY, value), Find(OUTSIDE, PrintDoc(d), KEY).value);
  }

  lemma AddedIsLonger(d: Doc, key: string, value: Text)
    requires DocOk(d)
    ensures |PrintDoc(Added(d, key, value))| > |PrintDoc(d)| + |SectionOf(key, value)|
  {
    hide SectionOf, Body, MembersOk, AllBlank;
    AddedToBody(d, key, value);
  }

  lemma ReplacedLength(text: string, section: string, span: Span)
    requires span.begin < span.end < |text|
    ensures |Replaced(text, section, span)| == |text| + |section| - (span.end + 1 - span.begin)
  {}

  /** Where something else than the first member is found, there are settings that show it. */
  lemma OtherPlaceShows(d: Doc) returns (settings: Settings)
    requires DocOk(d) && Has(d.members, KEY) && Find(OUTSIDE, PrintDoc(d), KEY).Some?
    requires Find(OUTSIDE, PrintDoc(d), KEY).value.begin != KeyPlace(d, IndexOf(d.members, KEY))
    ensures forall enabled :: !Updates(d, settings, enabled)
  {
    hide DocOk, PrintDoc, Find, Has, DriverValue, DriverSection, Put, PutAt, KeyPlace, SectionOf;
    var i := IndexOf(d.members, KEY);
    var span := Find(OUTSIDE, PrintDoc(d), KEY).value;
    var a, z := SamePlace(d, i);
    settings := PlacesDiffer(PrintDoc(d)[..span.begin], PrintDoc(d)[span.end + 1..], a, z);
    forall enabled ensures !Updates(d, settings, enabled) {
      PutIsAt(d, KEY, DriverValue(settings, enabled));
      DriverValueIs(settings, enabled);
    }
  }

  /** Where a member is written anew the text around it is the same for all values. */
  lemma SamePlace(d: Doc, i: nat) returns (a: string, z: string)
    requires i < |d.members|
    ensures |a| == KeyPlace(d, i)
    ensures PrintDoc(d) == a + (ColonOf(d.members[i]) + (Print(d.members[i].value) + z))
    ensures forall value :: PrintDoc(PutAt(d, i, value)) == a + SectionOf(d.members[i].key, value) + z
  {
    hide PrintDoc, PutAt, KeyPlace, SectionOf, ColonOf, Print;
    a, z := CutAtIndex(d, i, End);
    var text := PrintDoc(d);
    forall value ensures PrintDoc(PutAt(d, i, value)) == a + SectionOf(d.members[i].key, value) + z {
      var b, y := CutAtIndex(d, i, value);
      SameCut(text, a, b, ColonOf(d.members[i]) + Print(d.members[i].value), z, y);
    }
  }

  lemma SameCut(text: string, a: string, b: string, middle: string, z: string, y: string)
    requires |a| == |b| && exists h, v :: middle == h + v && text == a + (h + (v + z)) && text == b + (h + (v + y))
    ensures a == b && z == y
  {
    var h, v :| middle == h + v && text == a + (h + (v + z)) && text == b + (h + (v + y));
    assert a == text[..|a|] && b == text[..|b|];
    assert z == text[|a| + |middle|..] && y == text[|b| + |middle|..];
  }

  /** Where the member's value is not one object, only a part of it is exchanged. */
  lemma PartIsExchanged(d: Doc, settings: Settings, enabled: bool)
    requires DocOk(d) && Has(d.members, KEY) && !InBraces(Found(d.members, KEY).value)
    requires Find(OUTSIDE, PrintDoc(d), KEY).Some?
    requires Find(OUTSIDE, PrintDoc(d), KEY).value.begin == KeyPlace(d, IndexOf(d.members, KEY))
    ensures !Updates(d, settings, enabled)
  {
    hide DocOk, PrintDoc, Find, Has, DriverValue, DriverSection, Put, PutAt, KeyPlace, SectionOf, ColonOf, Replaced,
         Level, SectionStands;
    var i, value := IndexOf(d.members, KEY), DriverValue(settings, enabled);
    var m := d.members[i];
    PutIsAt(d, KEY, value);
    DriverValueIs(settings, enabled);
    var a, z := CutAtIndex(d, i, value);
    FoundFirst(PrintDoc(d), KEY, |a|);
    MemberIsOk(d, i);
    StandsOnBrace(PrintDoc(d), a, m, z);
    BraceCut(m, z);
    assert Heads(ColonOf(m), KEY, m.mid, m.pad) by { MemberHeads(m); }
    ExchangedAt(PrintDoc(d), a, ColonOf(m), Print(m.value.inner), Print(m.value.rest) + z, KEY, SectionOf(KEY, value));
    RestIsThere(m.value);
    assert |a + SectionOf(KEY, value) + (Print(m.value.rest) + z)| > |a + SectionOf(KEY, value) + z|;
  }

  lemma MemberIsOk(d: Doc, i: nat)
    requires DocOk(d) && i < |d.members|
    ensures MemberOk(d.members[i])
  {
    hide MemberOk;
  }

  lemma MemberHeads(m: Member)
    requires MemberOk(m)
    ensures Heads(ColonOf(m), m.key, m.mid, m.pad)
  {
    hide AllBlank, Raw, Value;
  }

  lemma RestIsThere(t: Text)
    requires IsBrace(t) && !InBraces(t)
    ensures Print(t.rest) != []
  {
    assert t.rest != End;
  }

  lemma BraceCut(m: Member, z: string)
    requires MemberOk(m) && IsBrace(m.value)
    ensures Level(Print(m.value.inner))
    ensures Print(m.value) + z == "{" + (Print(m.value.inner) + ("}" + (Print(m.value.rest) + z)))
  {
    hide Level, Print, AllBlank, Raw, Lone;
    GroupText(m.value, z);
    GroupLevel(m.value);
  }

  /** A section that stands at a member is one whose value begins with a brace. */
  lemma StandsOnBrace(text: string, a: string, m: Member, z: string)
    requires MemberOk(m) && text == a + (ColonOf(m) + (Print(m.value) + z))
    requires SectionStands(OUTSIDE, text, m.key, |a|)
    ensures IsBrace(m.value)
  {
    hide Print, AllBlank, Raw, FirstClose, BraceOf, ScanText, Lone;
    var behind := ColonOf(m) + (Print(m.value) + z);
    assert text[|a|..] == behind;
    ValueFront(m.value, z);
    BraceOfMember(m, Print(m.value) + z);
    assert behind[|ColonOf(m)|] == (Print(m.value) + z)[0];
  }

  lemma ValueFront(t: Text, z: string)
    requires Value(t)
    ensures
      var text := Print(t) + z;
      text != [] && !IsSpace(text[0]) && (text[0] == '{' <==> IsBrace(t))
  {
    hide Print, Lone;
    assert Print(t) + [] == Print(t);
    if t.End? {
      NothingPrinted([]);
    } else {
      FrontCharacter(t, z);
      FrontCharacter(t, []);
    }
  }

  lemma BraceOfMember(m: Member, z: string)
    requires AllBlank(m.mid) && AllBlank(m.pad) && z != [] && !IsSpace(z[0])
    ensures BraceOf(ColonOf(m) + z, m.key) == Some(|ColonOf(m)|)
  {
    hide AllBlank, SkipSpaces, IsSpace, Quoted;
    var t := Quoted(m.key) + (m.mid + (":" + (m.pad + z)));
    assert ColonOf(m) + z == t;
    HeadLayout(m, z, |t|, m.key);
  }

  /**
   * The write is an update of the file's object for all settings if and only if the first section
   * with the key that stands in the file at depth one is the first member with the key and its
   * value is one object, or none stands there where no member has the key.
   */
  lemma UpdatesExactlyWhen(d: Doc)
    requires DocOk(d)
    ensures MeetsSection(d, KEY) <==> forall settings, enabled :: Updates(d, settings, enabled)
  {
    hide *;
    if MeetsSection(d, KEY) {
      forall settings, enabled ensures Updates(d, settings, enabled) { UpdatesWhere(d, settings, enabled); }
    } else {
      var settings := OtherwiseNot(d);
    }
  }

  lemma UpdatesWhere(d: Doc, settings: Settings, enabled: bool)
    requires DocOk(d) && MeetsSection(d, KEY)
    ensures Updates(d, settings, enabled)
  {
    hide DocOk, MeetsSection, PrintDoc, DriverSection, DriverValue, Put, WriteSection;
    DriverWriteIsUpdate(d, settings, enabled);
  }

  lemma OtherwiseNot(d: Doc) returns (settings: Settings)
    requires DocOk(d) && !MeetsSection(d, KEY)
    ensures !Updates(d, settings, true)
  {
    hide DocOk, PrintDoc, Find, Has, KeyPlace, Updates, SectionStands, InBraces, NoneStandsBefore;
    var text := PrintDoc(d);
    settings := Settings("", 60, 0, 0);
    FoundNowhere(text, KEY);
    if !Has(d.members, KEY) {
      ReplacedIsNotAdded(d, settings, true);
    } else if Find(OUTSIDE, text, KEY).None? {
      AddedIsNotPut(d, settings, true);
    } else if Find(OUTSIDE, text, KEY).value.begin != KeyPlace(d, IndexOf(d.members, KEY)) {
      settings := OtherPlaceShows(d);
    } else {
      FoundFirst(text, KEY, KeyPlace(d, IndexOf(d.members, KEY)));
      FoundIsFirst(d, KEY);
      PartIsExchanged(d, settings, true);
    }
  }

  lemma FoundIsFirst(d: Doc, key: string)
    requires Has(d.members, key)
    ensures Found(d.members, key) == d.members[IndexOf(d.members, key)]
  {
    hide PrintMember, Front, Anew;
    IndexIs(d.members, key, End);
  }

  // ---------- The condition, told by the members ----------

  /** No value in front of the first member with the key holds, outside braces, what reads like a section. */
  predicate NoSectionBefore(ms: seq<Member>, key: string) {
    ms == [] || ms[0].key == key || (PlaceInValue(ms[0].value, key).None? && NoSectionBefore(ms[1..], key))
  }

  lemma {:induction false} PlaceWithin(t: Text, key: string)
    ensures PlaceInValue(t, key).Some? ==> PlaceInValue(t, key).value < |Print(t)|
    decreases t
  {
    hide Quoted, Opens;
    match t {
      case End =>
      case Char(_, rest) => PlaceWithin(rest, key);
      case Str(raw, rest) =>
        PlaceWithin(rest, key);
        QuotesAreTwo(raw);
      case Group(_, inner, rest) =>
        PlaceWithin(inner, key);
        PlaceWithin(rest, key);
        GroupText(t, []);
        assert Print(t) + [] == Print(t);
    }
  }

  lemma QuotesAreTwo(raw: string)
    ensures |Quoted(raw)| == |raw| + 2
  {}

  /** In a member the place is its own key, or one in its value. */
  lemma MemberPlace(m: Member, key: string)
    ensures
      var place := PlaceInMember(m, key);
      && (place.Some? ==> place.value < |PrintMember(m)|)
      && (place == Some(|m.lead|) <==> m.key == key && IsBrace(m.value))
      && (m.key != key ==> (place.None? <==> PlaceInValue(m.value, key).None?))
  {
    hide Print, PlaceInValue, Quoted;
    PlaceWithin(m.value, key);
    HeadLength(m);
  }

  lemma {:induction false} PlaceIsFirst(ms: seq<Member>, key: string)
    requires Has(ms, key)
    ensures
      var i := IndexOf(ms, key);
      PlaceInMembers(ms, key) == Some(|Before(ms, i)| + |ms[i].lead|) <==>
      IsBrace(ms[i].value) && NoSectionBefore(ms, key)
  {
    hide PlaceInMember, PrintMember, IsBrace;
    MemberPlace(ms[0], key);
    if ms[0].key != key {
      PlaceIsFirst(ms[1..], key);
      assert Comma(ms) == ",";
    } else if PlaceInMember(ms[0], key).None? {
      LeadWithin(ms[0]);
    }
  }

  lemma LeadWithin(m: Member)
    ensures |m.lead| < |PrintMember(m)|
  {
    hide Print, Quoted;
    HeadLength(m);
  }

  lemma {:induction false} PlaceIsNowhere(ms: seq<Member>, key: string)
    requires !Has(ms, key)
    ensures PlaceInMembers(ms, key).None? <==> NoSectionBefore(ms, key)
    decreases |ms|
  {
    hide PlaceInMember, PrintMember;
    if ms != [] {
      MemberPlace(ms[0], key);
      HasBehind(ms, key);
      PlaceIsNowhere(ms[1..], key);
    }
  }

  lemma HasBehind(ms: seq<Member>, key: string)
    requires ms != [] && !Has(ms, key)
    ensures ms[0].key != key && !Has(ms[1..], key)
  {
    forall i | 0 <= i < |ms[1..]| ensures ms[1..][i].key != key { assert ms[1..][i] == ms[i + 1]; }
  }

  lemma MeetsWherePlain(d: Doc, key: string)
    requires DocOk(d) && PlainAround(d) && NoEscapes(key)
    ensures MeetsSection(d, key) <==>
            (Has(d.members, key) ==> InBraces(Found(d.members, key).value)) && NoSectionBefore(d.members, key)
  {
    hide DocOk, PlainAround, PrintDoc, Find, Has, SectionStands, NoneStandsBefore, NoEscapes, Before,
         PlaceInMembers, NoSectionBefore;
    ObjectFound(d, key);
    FoundNowhere(PrintDoc(d), key);
    if Has(d.members, key) {
      FoundIsFirst(d, key);
      FoundFirst(PrintDoc(d), key, KeyPlace(d, IndexOf(d.members, key)));
      PlaceIsFirst(d.members, key);
    } else {
      PlaceIsNowhere(d.members, key);
    }
  }

  /**
   * Where the text around the object is plain the write is an update for all settings if and only if
   * the first member with the key, if there is one, is an object, and no value in front of it holds,
   * outside braces, a string equal to the key with a colon and an object behind it.
   */
  lemma UpdatesWherePlain(d: Doc)
    requires DocOk(d) && PlainAround(d)
    ensures (Has(d.members, KEY) ==> InBraces(Found(d.members, KEY).value)) && NoSectionBefore(d.members, KEY)
            <==> forall settings, enabled :: Updates(d, settings, enabled)
  {
    hide *;
    KeyIsPlain();
    MeetsWherePlain(d, KEY);
    UpdatesExactlyWhen(d);
  }
}
