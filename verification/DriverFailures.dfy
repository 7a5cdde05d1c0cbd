/** Settings files in which some readers do not find the driver's section after it is written. */
module DriverFailures {
  import opened Wrappers
  import opened JsonScanner
  import opened JsonText
  import opened JsonStrings
  import opened DriverSettings
  import opened SettingsFile
  import opened ObjectUpdate
  import opened Readers
  import opened ObjectParsing
  import opened DriverUpdate
  import opened SectionSearch
  import opened DriverCondition
  import opened DriverReaders

  // ---------- What is written ----------

  /**
   * Where the first object under the key is not the first member with the key, that later member is
   * written anew: readers that keep the first find what they found before, readers that keep the last
   * find the section only if no member behind it is read as having the key.
   */
  lemma LaterMemberIsWritten(d: Doc, i: nat, settings: Settings, enabled: bool)
    requires DocOk(d) && PlainAround(d) && Has(d.members, KEY) && IndexOf(d.members, KEY) < i < |d.members|
    requires d.members[i].key == KEY && InBraces(d.members[i].value)
    requires forall j | 0 <= j < i :: PlaceInMember(d.members[j], KEY).None?
    ensures
      var value, n := DriverValue(settings, enabled), Rank(d.members, i, KEY);
      var e := PutAt(d, i, value);
      && DocOk(e) && WriteSection(PrintDoc(d), DriverSection(settings, enabled)) == Some(PrintDoc(e))
      && 0 < n < |Values(d.members, KEY)| && Values(e.members, KEY) == Values(d.members, KEY)[n := value]
      && FirstOf(e.members, KEY) == FirstOf(d.members, KEY)
      && (LastOf(e.members, KEY) == if n + 1 == |Values(d.members, KEY)| then Some(value) else LastOf(d.members, KEY))
  {
    hide DocOk, PlainAround, PrintDoc, Find, NoEscapes, Before, PlaceInMembers, DriverValue, DriverSection, SectionOf,
         WriteSection, PlaceInMember, Value, Has, Values, PlainKey, PutAt, KeyRead, Rank;
    var value := DriverValue(settings, enabled);
    KeyIsPlain();
    PlainKeyRead(KEY);
    DriverValueIs(settings, enabled);
    ObjectFound(d, KEY);
    PlaceAt(d.members, KEY, i);
    ReplaceIsPutAt(d, i, value);
    PutAtOk(d, i, value);
    PutAtValues(d, i, value);
    RankBehind(d.members, IndexOf(d.members, KEY), i, KEY);
  }

  lemma PutAtValues(d: Doc, i: nat, value: Text)
    requires i < |d.members| && d.members[i].key == KEY
    ensures
      var n := Rank(d.members, i, KEY);
      n < |Values(d.members, KEY)| && Values(PutAt(d, i, value).members, KEY) == Values(d.members, KEY)[n := value]
  {
    hide Values, PlainKey, KeyRead, Rank;
    KeyIsPlain();
    PlainKeyRead(KEY);
    ValuesPut(d.members, i, Renewed(d.members[i], value), KEY);
  }

  lemma RankBehind(ms: seq<Member>, j: nat, i: nat, key: string)
    requires j < i < |ms| && Bears(ms[j], key)
    ensures Rank(ms, i, key) > 0
  {
    hide Values, KeyRead;
    NoneBears(ms[..i], key);
    assert ms[..i][j] == ms[j];
  }

  lemma {:induction false} PlaceAt(ms: seq<Member>, key: string, i: nat)
    requires i < |ms| && ms[i].key == key && IsBrace(ms[i].value)
    requires forall j | 0 <= j < i :: PlaceInMember(ms[j], key).None?
    ensures PlaceInMembers(ms, key) == Some(|Before(ms, i)| + |ms[i].lead|)
    decreases i
  {
    hide PlaceInMembers, PlaceInMember, Before, PrintMember, IsBrace;
    PlaceUnfolds(ms, key, i);
    MemberPlace(ms[0], key);
    if i > 0 {
      assert forall j | 0 <= j < i - 1 :: ms[1..][j] == ms[j + 1];
      PlaceAt(ms[1..], key, i - 1);
    }
  }

  lemma PlaceUnfolds(ms: seq<Member>, key: string, i: nat)
    requires i < |ms|
    ensures |Before(ms, i)| == if i == 0 then 0 else |PrintMember(ms[0])| + 1 + |Before(ms[1..], i - 1)|
    ensures PlaceInMembers(ms, key) ==
      if PlaceInMember(ms[0], key).Some? then PlaceInMember(ms[0], key)
      else Shift(PlaceInMembers(ms[1..], key), |PrintMember(ms[0])| + if |ms| == 1 then 0 else 1)
  {
    hide PlaceInMember, PrintMember;
  }

  /**
   * Where the key has members but none of them is an object, a further member is added at the end:
   * readers that keep the last find the section there, readers that keep the first do not.
   */
  lemma OtherValueHides(d: Doc, settings: Settings, enabled: bool)
    requires DocOk(d) && PlainAround(d) && Has(d.members, KEY) && PlaceInMembers(d.members, KEY).None?
    ensures
      var value := DriverValue(settings, enabled);
      var e := Added(d, KEY, value);
      && DocOk(e) && WriteSection(PrintDoc(d), DriverSection(settings, enabled)) == Some(PrintDoc(e))
      && Values(d.members, KEY) != [] && Values(e.members, KEY) == Values(d.members, KEY) + [value]
      && FirstOf(e.members, KEY) == FirstOf(d.members, KEY) && LastOf(e.members, KEY) == Some(value)
  {
    hide DocOk, PlainAround, PrintDoc, Find, NoEscapes, PlaceInMembers, DriverValue, DriverSection, SectionOf,
         WriteSection, Value, Values, PlainKey;
    var value := DriverValue(settings, enabled);
    KeyIsPlain();
    DriverValueIs(settings, enabled);
    ObjectFound(d, KEY);
    InsertIsAdded(d, value);
    AddedOk(d, KEY, value);
    AddedValues(d, KEY, value);
    SpelledHas(d.members, KEY);
  }

  /**
   * Where the key is only spelled with escapes a further member is added as well, and the readers
   * that keep the first still find the old one.
   */
  lemma EscapedKeyHides(d: Doc, settings: Settings, enabled: bool)
    requires DocOk(d) && MeetsSection(d, KEY) && !Has(d.members, KEY) && Values(d.members, KEY) != []
    ensures
      var value := DriverValue(settings, enabled);
      var e := Added(d, KEY, value);
      && DocOk(e) && WriteSection(PrintDoc(d), DriverSection(settings, enabled)) == Some(PrintDoc(e))
      && Values(e.members, KEY) == Values(d.members, KEY) + [value]
      && FirstOf(e.members, KEY) == FirstOf(d.members, KEY) && LastOf(e.members, KEY) == Some(value)
  {
    hide DocOk, PrintDoc, MeetsSection, NoEscapes, DriverValue, DriverSection, WriteSection, Values, PlainKey, Has;
    var value := DriverValue(settings, enabled);
    KeyIsPlain();
    DriverWriteIsUpdate(d, settings, enabled);
    PutIsAdded(d, KEY, value);
    AddedValues(d, KEY, value);
  }

  /**
   * Where the first member with the key is written anew and a member behind it is read as having the
   * key too, the readers that keep the last still find that one.
   */
  lemma LaterMemberHides(d: Doc, settings: Settings, enabled: bool)
    requires DocOk(d) && MeetsSection(d, KEY) && Has(d.members, KEY)
    requires Rank(d.members, IndexOf(d.members, KEY), KEY) + 1 < |Values(d.members, KEY)|
    ensures
      var value := DriverValue(settings, enabled);
      var e := PutAt(d, IndexOf(d.members, KEY), value);
      && DocOk(e) && WriteSection(PrintDoc(d), DriverSection(settings, enabled)) == Some(PrintDoc(e))
      && LastOf(e.members, KEY) == LastOf(d.members, KEY)
      && (Rank(d.members, IndexOf(d.members, KEY), KEY) == 0 ==> FirstOf(e.members, KEY) == Some(value))
  {
    hide DocOk, PrintDoc, MeetsSection, NoEscapes, DriverValue, DriverSection, WriteSection, Values, PlainKey, Has,
         OneWritten, PutAt, Put, KeyRead, Rank, KeyPlace;
    var i, value := IndexOf(d.members, KEY), DriverValue(settings, enabled);
    KeyIsPlain();
    DriverWriteIsUpdate(d, settings, enabled);
    PutIsAt(d, KEY, value);
    PutAtValues(d, i, value);
  }

  // ---------- Four files ----------

  const ONE: Text := Char('1', End)

  /** The key with a number as its value. */
  const NUMBER: Doc := Doc("", [Member("", KEY, "", "", ONE, "")], "", "")

  /** The same, with an object under the key behind it. */
  const NUMBER_FIRST: Doc :=
    Doc("", [Member("", KEY, "", "", ONE, ""), Member("", KEY, "", "", Group(true, End, End), "")], "", "")

  /** And with the object in front. */
  const OBJECT_FIRST: Doc :=
    Doc("", [Member("", KEY, "", "", Group(true, End, End), ""), Member("", KEY, "", "", ONE, "")], "", "")

  /** The key spelled with an escape. */
  const ESCAPED: Doc := Doc("", [Member("", "driver\\u005fsvrt", "", "", ONE, "")], "", "")

  lemma NumberText()
    ensures PrintDoc(NUMBER) == "{\"driver_svrt\":1}"
    ensures PrintDoc(NUMBER_FIRST) == "{\"driver_svrt\":1,\"driver_svrt\":{}}"
  {
    hide PrintDoc, Body;
    NumberBody();
    PrintedAround(NUMBER);
    PrintedAround(NUMBER_FIRST);
    InBracesOnce();
    InBracesTwice();
  }

  lemma OtherText()
    ensures PrintDoc(OBJECT_FIRST) == "{\"driver_svrt\":{},\"driver_svrt\":1}"
    ensures PrintDoc(ESCAPED) == "{\"driver\\u005fsvrt\":1}"
  {
    hide PrintDoc, Body;
    OtherBody();
    PrintedAround(OBJECT_FIRST);
    PrintedAround(ESCAPED);
    InBracesEscaped();
    InBracesBack();
  }

  lemma InBracesOnce()
    ensures "{" + "\"driver_svrt\":1" + "}" == "{\"driver_svrt\":1}"
  {}

  lemma InBracesTwice()
    ensures "{" + ("\"driver_svrt\":1" + ("," + "\"driver_svrt\":{}")) + "}"
         == "{\"driver_svrt\":1,\"driver_svrt\":{}}"
  {}

  lemma InBracesBack()
    ensures "{" + ("\"driver_svrt\":{}" + ("," + "\"driver_svrt\":1")) + "}"
         == "{\"driver_svrt\":{},\"driver_svrt\":1}"
  {}

  lemma InBracesEscaped()
    ensures "{" + "\"driver\\u005fsvrt\":1" + "}" == "{\"driver\\u005fsvrt\":1}"
  {}

  lemma PrintedTwo(m: Member, n: Member)
    ensures PrintMembers([m, n]) == PrintMember(m) + ("," + PrintMember(n))
  {
    hide PrintMember, PrintMembers;
    PrintedOne(m);
    PrintedMore([m], n);
    assert [m] + [n] == [m, n];
  }

  lemma NumberBody()
    ensures Body(NUMBER) == "\"driver_svrt\":1"
    ensures Body(NUMBER_FIRST) == "\"driver_svrt\":1" + ("," + "\"driver_svrt\":{}")
  {
    hide PrintMember, PrintMembers;
    PrintedOne(NUMBER.members[0]);
    PrintedTwo(NUMBER_FIRST.members[0], NUMBER_FIRST.members[1]);
    MemberTexts();
  }

  lemma OtherBody()
    ensures Body(OBJECT_FIRST) == "\"driver_svrt\":{}" + ("," + "\"driver_svrt\":1")
    ensures Body(ESCAPED) == "\"driver\\u005fsvrt\":1"
  {
    hide PrintMember, PrintMembers;
    PrintedOne(ESCAPED.members[0]);
    PrintedTwo(OBJECT_FIRST.members[0], OBJECT_FIRST.members[1]);
    MemberTexts();
    EscapedMember();
  }

  lemma MemberTexts()
    ensures PrintMember(NUMBER_FIRST.members[0]) == "\"driver_svrt\":1"
    ensures PrintMember(NUMBER_FIRST.members[1]) == "\"driver_svrt\":{}"
  {
    hide Quoted;
    assert Quoted(KEY) == "\"driver_svrt\"" by { KeyQuoted(); }
  }

  lemma EscapedMember()
    ensures PrintMember(ESCAPED.members[0]) == "\"driver\\u005fsvrt\":1"
  {
    hide Quoted;
    assert Quoted("driver\\u005fsvrt") == "\"driver\\u005fsvrt\"" by { EscapedQuoted(); }
  }

  lemma KeyQuoted()
    ensures Quoted(KEY) == "\"driver_svrt\""
  {}

  lemma EscapedQuoted()
    ensures Quoted("driver\\u005fsvrt") == "\"driver\\u005fsvrt\""
  {}

  lemma NumberIsOk()
    ensures DocOk(NUMBER) && PlainAround(NUMBER) && Has(NUMBER.members, KEY)
    ensures DocOk(NUMBER_FIRST) && PlainAround(NUMBER_FIRST) && Has(NUMBER_FIRST.members, KEY)
    ensures DocOk(OBJECT_FIRST) && PlainAround(OBJECT_FIRST) && Has(OBJECT_FIRST.members, KEY)
  {
    hide Raw;
    KeyIsPlain();
    NoEscapesRaw(KEY);
    assert NUMBER.members[0].key == KEY && NUMBER_FIRST.members[0].key == KEY && OBJECT_FIRST.members[0].key == KEY;
  }

  lemma EscapedIsOk()
    ensures DocOk(ESCAPED) && PlainAround(ESCAPED) && !Has(ESCAPED.members, KEY)
  {
    hide Raw;
    EscapedIsRaw();
    assert ESCAPED.members[0].key[6] == '\\' && KEY[6] == '_';
  }

  lemma EscapedIsRaw()
    ensures Raw("driver\\u005fsvrt", false)
  {
    hide Raw;
    NoEscapesRaw("005fsvrt");
    EscapedRaw('u', "005fsvrt");
    PlainFront("driver", ['\\', 'u'] + "005fsvrt");
    assert "driver\\u005fsvrt" == "driver" + (['\\', 'u'] + "005fsvrt");
  }

  lemma {:induction false} PlainFront(front: string, raw: string)
    requires NoEscapes(front) && Raw(raw, false)
    ensures Raw(front + raw, false)
  {
    hide Raw;
    if front == [] {
      assert front + raw == raw;
    } else {
      PlainFront(front[1..], raw);
      PlainRaw(front[0], front[1..] + raw);
      assert front + raw == [front[0]] + (front[1..] + raw);
    }
  }

  /** As it is read, that is the key. */
  lemma EscapedIsRead()
    ensures KeyRead("driver\\u005fsvrt") == Some(KEY)
  {
    hide ReadChars;
    var behind := "svrt" + ("\"" + []);
    PlainIsRead("svrt", []);
    UnderscoreIsRead(behind);
    PlainInFront("driver", "\\u005f" + behind);
    assert Quoted("driver\\u005fsvrt")[1..] == "driver" + ("\\u005f" + behind);
    assert KEY == "driver" + (['_'] + "svrt");
  }

  lemma UnderscoreIsRead(rest: string)
    ensures ReadChars("\\u005f" + rest) == Prepend('_', ReadChars(rest))
  {
    var text := "\\u005f" + rest;
    assert text[6..] == rest && text[2..6] == ['0', '0', '5', 'f'];
  }

  lemma {:induction false} PlainInFront(front: string, rest: string)
    requires PlainKey(front)
    ensures ReadChars(front + rest) == PrependAll(front, ReadChars(rest))
  {
    var r := ReadChars(rest);
    if front == [] {
      assert front + rest == rest;
      if r.Some? { assert front + r.value.0 == r.value.0; }
    } else {
      PlainInFront(front[1..], rest);
      assert (front + rest)[1..] == front[1..] + rest;
      if r.Some? { assert [front[0]] + (front[1..] + r.value.0) == front + r.value.0; }
    }
  }

  /** A parse of the text written has the members of the object it is the text of. */
  lemma ReadsAs(e: Doc, d: Doc)
    requires DocOk(e) && DocOk(d) && PrintDoc(e) == PrintDoc(d)
    ensures e.members == d.members
  {
    hide DocOk, PrintDoc;
    DocUnique(e, d);
  }

  lemma NumbersMeet()
    ensures !MeetsSection(NUMBER, KEY) && !MeetsSection(NUMBER_FIRST, KEY)
    ensures MeetsSection(OBJECT_FIRST, KEY) && MeetsSection(ESCAPED, KEY)
  {
    hide MeetsSection, DocOk, PlainAround, NoEscapes, PlaceInValue;
    NumberIsOk();
    EscapedIsOk();
    KeyIsPlain();
    OneHasNoPlace();
    MeetsWherePlain(NUMBER, KEY);
    MeetsWherePlain(NUMBER_FIRST, KEY);
    MeetsWherePlain(OBJECT_FIRST, KEY);
    MeetsWherePlain(ESCAPED, KEY);
  }

  lemma OneHasNoPlace()
    ensures PlaceInValue(ONE, KEY).None?
  {}

  lemma NumberHasNoPlace()
    ensures PlaceInMembers(NUMBER.members, KEY).None?
    ensures PlaceInMember(NUMBER_FIRST.members[0], KEY).None?
  {
    hide Quoted;
    assert NUMBER.members[1..] == [];
  }

  lemma ValuesThere()
    ensures Values(NUMBER.members, KEY) == [ONE] && Values(ESCAPED.members, KEY) == [ONE]
    ensures Values(NUMBER_FIRST.members, KEY) == [ONE, Group(true, End, End)]
    ensures Values(OBJECT_FIRST.members, KEY) == [Group(true, End, End), ONE]
  {
    hide KeyRead, PlainKey;
    KeyIsPlain();
    PlainKeyRead(KEY);
    EscapedIsRead();
    ValuesOfOne(NUMBER.members[0], KEY);
    ValuesOfOne(ESCAPED.members[0], KEY);
    ValuesOfTwo(NUMBER_FIRST.members[0], NUMBER_FIRST.members[1], KEY);
    ValuesOfTwo(OBJECT_FIRST.members[0], OBJECT_FIRST.members[1], KEY);
  }

  /** {"driver_svrt":1} gets a second member with the key; readers that keep the first find the number. */
  lemma NumberHidesSection(settings: Settings, enabled: bool, e: Doc)
    requires DocOk(e) && Some(PrintDoc(e)) == WriteSection("{\"driver_svrt\":1}", DriverSection(settings, enabled))
    ensures PrintDoc(NUMBER) == "{\"driver_svrt\":1}" && DocOk(NUMBER) && !MeetsSection(NUMBER, KEY)
    ensures PrintDoc(e) == "{\"driver_svrt\":1,\n  " + (DriverSection(settings, enabled) + "\n}")
    ensures FirstOf(e.members, "driver_svrt") == Some(ONE)
    ensures LastOf(e.members, "driver_svrt") == Some(DriverValue(settings, enabled))
  {
    hide *;
    NumberText();
    NumberIsOk();
    NumbersMeet();
    KeyIsPlain();
    NumberHasNoPlace();
    OtherValueHides(NUMBER, settings, enabled);
    ReadsAs(e, Added(NUMBER, KEY, DriverValue(settings, enabled)));
    FirstThere();
    AddedToNumber(settings, enabled);
  }

  lemma FirstThere()
    ensures FirstOf(NUMBER.members, KEY) == Some(ONE) && FirstOf(ESCAPED.members, KEY) == Some(ONE)
    ensures FirstOf(NUMBER_FIRST.members, KEY) == Some(ONE) && LastOf(OBJECT_FIRST.members, KEY) == Some(ONE)
  {
    hide Values;
    ValuesThere();
  }

  lemma AddedToNumber(settings: Settings, enabled: bool)
    ensures PrintDoc(Added(NUMBER, KEY, DriverValue(settings, enabled)))
         == "{\"driver_svrt\":1,\n  " + (DriverSection(settings, enabled) + "\n}")
  {
    hide *;
    var section := DriverSection(settings, enabled);
    KeyIsPlain();
    DriverValueIs(settings, enabled);
    NumberIsOk();
    AddedToBody(NUMBER, KEY, DriverValue(settings, enabled));
    NumberBody();
    StartsWithQuote(Body(NUMBER));
    PlainAdded(NUMBER, KEY, DriverValue(settings, enabled));
    PrintedAround(Added(NUMBER, KEY, DriverValue(settings, enabled)));
    BehindNumber(section);
  }

  lemma AddedToEscaped(settings: Settings, enabled: bool)
    ensures PrintDoc(Added(ESCAPED, KEY, DriverValue(settings, enabled)))
         == "{\"driver\\u005fsvrt\":1,\n  " + (DriverSection(settings, enabled) + "\n}")
  {
    hide *;
    KeyIsPlain();
    DriverValueIs(settings, enabled);
    EscapedIsOk();
    AddedToBody(ESCAPED, KEY, DriverValue(settings, enabled));
    OtherBody();
    StartsWithQuote(Body(ESCAPED));
    PlainAdded(ESCAPED, KEY, DriverValue(settings, enabled));
    PrintedAround(Added(ESCAPED, KEY, DriverValue(settings, enabled)));
    BehindEscaped(DriverSection(settings, enabled));
  }

  lemma PlainAdded(d: Doc, key: string, value: Text)
    ensures Added(d, key, value).head == d.head && Added(d, key, value).tail == d.tail
    ensures NUMBER.head == "" && NUMBER.tail == "" && ESCAPED.head == "" && ESCAPED.tail == ""
  {}

  lemma StartsWithQuote(text: string)
    requires text == "\"driver_svrt\":1" || text == "\"driver\\u005fsvrt\":1"
    ensures !AllBlank(text)
  {
    assert text[0] == '"';
  }

  lemma BehindNumber(section: string)
    ensures "{" + ("\"driver_svrt\":1" + (",\n  " + section + "\n")) + "}"
         == "{\"driver_svrt\":1,\n  " + (section + "\n}")
  {
    assert "{\"driver_svrt\":1,\n  " == "{" + ("\"driver_svrt\":1" + ",\n  ");
  }

  lemma BehindEscaped(section: string)
    ensures "{" + ("\"driver\\u005fsvrt\":1" + (",\n  " + section + "\n")) + "}"
         == "{\"driver\\u005fsvrt\":1,\n  " + (section + "\n}")
  {
    assert "{\"driver\\u005fsvrt\":1,\n  " == "{" + ("\"driver\\u005fsvrt\":1" + ",\n  ");
  }

  lemma PrintedAround(d: Doc)
    requires d.head == "" && d.tail == ""
    ensures PrintDoc(d) == "{" + Body(d) + "}"
  {
    hide Body;
  }

  /** {"driver\u005fsvrt":1} gets a second member too; readers that keep the first find the number. */
  lemma EscapeHidesSection(settings: Settings, enabled: bool, e: Doc)
    requires DocOk(e)
    requires Some(PrintDoc(e)) == WriteSection("{\"driver\\u005fsvrt\":1}", DriverSection(settings, enabled))
    ensures PrintDoc(ESCAPED) == "{\"driver\\u005fsvrt\":1}" && DocOk(ESCAPED) && MeetsSection(ESCAPED, KEY)
    ensures PrintDoc(e) == "{\"driver\\u005fsvrt\":1,\n  " + (DriverSection(settings, enabled) + "\n}")
    ensures FirstOf(e.members, "driver_svrt") == Some(ONE)
    ensures LastOf(e.members, "driver_svrt") == Some(DriverValue(settings, enabled))
  {
    hide *;
    OtherText();
    EscapedIsOk();
    NumbersMeet();
    KeyIsPlain();
    ValuesThere();
    EscapedKeyHides(ESCAPED, settings, enabled);
    ReadsAs(e, Added(ESCAPED, KEY, DriverValue(settings, enabled)));
    FirstThere();
    AddedToEscaped(settings, enabled);
  }

  /** In {"driver_svrt":1,"driver_svrt":{}} the object is exchanged; readers that keep the first find the number. */
  lemma NumberHidesObject(settings: Settings, enabled: bool, e: Doc)
    requires DocOk(e)
    requires Some(PrintDoc(e))
          == WriteSection("{\"driver_svrt\":1,\"driver_svrt\":{}}", DriverSection(settings, enabled))
    ensures PrintDoc(NUMBER_FIRST) == "{\"driver_svrt\":1,\"driver_svrt\":{}}"
    ensures DocOk(NUMBER_FIRST) && !MeetsSection(NUMBER_FIRST, KEY)
    ensures PrintDoc(e) == "{\"driver_svrt\":1," + (DriverSection(settings, enabled) + "}")
    ensures FirstOf(e.members, "driver_svrt") == Some(ONE)
    ensures LastOf(e.members, "driver_svrt") == Some(DriverValue(settings, enabled))
  {
    hide *;
    NumberText();
    NumberIsOk();
    NumbersMeet();
    KeyIsPlain();
    NumberHasNoPlace();
    NumberIsFirst();
    LaterMemberIsWritten(NUMBER_FIRST, 1, settings, enabled);
    TwoValues();
    ReadsAs(e, PutAt(NUMBER_FIRST, 1, DriverValue(settings, enabled)));
    FirstThere();
    PutBehindNumber(settings, enabled);
  }

  lemma TwoValues()
    ensures |Values(NUMBER_FIRST.members, KEY)| == |Values(OBJECT_FIRST.members, KEY)| == 2
  {
    hide Values;
    ValuesThere();
  }

  lemma NumberIsFirst()
    requires Has(NUMBER_FIRST.members, KEY) && Has(OBJECT_FIRST.members, KEY)
    ensures IndexOf(NUMBER_FIRST.members, KEY) == 0 < 1 < |NUMBER_FIRST.members|
    ensures NUMBER_FIRST.members[1].key == KEY && InBraces(NUMBER_FIRST.members[1].value)
    ensures IndexOf(OBJECT_FIRST.members, KEY) == 0 < 1 < |OBJECT_FIRST.members|
    ensures Rank(OBJECT_FIRST.members, 0, KEY) == 0
  {}

  lemma PutBehindNumber(settings: Settings, enabled: bool)
    ensures PrintDoc(PutAt(NUMBER_FIRST, 1, DriverValue(settings, enabled)))
         == "{\"driver_svrt\":1," + (DriverSection(settings, enabled) + "}")
  {
    hide DriverValue, DriverSection, SectionOf, PrintMember, PrintMembers, ColonOf, Print;
    var value := DriverValue(settings, enabled);
    DriverValueIs(settings, enabled);
    MemberTexts();
    var m, n := NUMBER_FIRST.members[0], Renewed(NUMBER_FIRST.members[1], value);
    assert PutAt(NUMBER_FIRST, 1, value).members == [m, n];
    PrintedTwo(m, n);
    RenewedPrints(n, value);
    PrintedAround(PutAt(NUMBER_FIRST, 1, value));
  }

  lemma RenewedPrints(n: Member, value: Text)
    requires n == Renewed(NUMBER_FIRST.members[1], value)
    ensures PrintMember(n) == SectionOf(KEY, value)
  {
    hide Quoted, Print;
  }

  /** In {"driver_svrt":{},"driver_svrt":1} the object is exchanged; readers that keep the last find the number. */
  lemma NumberBehindHides(settings: Settings, enabled: bool, e: Doc)
    requires DocOk(e)
    requires Some(PrintDoc(e))
          == WriteSection("{\"driver_svrt\":{},\"driver_svrt\":1}", DriverSection(settings, enabled))
    ensures PrintDoc(OBJECT_FIRST) == "{\"driver_svrt\":{},\"driver_svrt\":1}"
    ensures DocOk(OBJECT_FIRST) && MeetsSection(OBJECT_FIRST, KEY)
    ensures PrintDoc(e) == "{" + (DriverSection(settings, enabled) + ",\"driver_svrt\":1}")
    ensures FirstOf(e.members, "driver_svrt") == Some(DriverValue(settings, enabled))
    ensures LastOf(e.members, "driver_svrt") == Some(ONE)
  {
    hide *;
    OtherText();
    NumberIsOk();
    NumbersMeet();
    KeyIsPlain();
    NumberIsFirst();
    TwoValues();
    LaterMemberHides(OBJECT_FIRST, settings, enabled);
    ReadsAs(e, PutAt(OBJECT_FIRST, 0, DriverValue(settings, enabled)));
    FirstThere();
    PutBeforeNumber(settings, enabled);
  }

  lemma PutBeforeNumber(settings: Settings, enabled: bool)
    ensures PrintDoc(PutAt(OBJECT_FIRST, 0, DriverValue(settings, enabled)))
         == "{" + (DriverSection(settings, enabled) + ",\"driver_svrt\":1}")
  {
    hide DriverValue, DriverSection, SectionOf, PrintMember, PrintMembers, ColonOf, Print;
    var value := DriverValue(settings, enabled);
    DriverValueIs(settings, enabled);
    MemberTexts();
    var m, n := Renewed(OBJECT_FIRST.members[0], value), OBJECT_FIRST.members[1];
    assert PutAt(OBJECT_FIRST, 0, value).members == [m, n];
    PrintedTwo(m, n);
    RenewedPrints(m, value);
    PrintedAround(PutAt(OBJECT_FIRST, 0, value));
    FrontOfNumber(SectionOf(KEY, value));
  }

  lemma FrontOfNumber(section: string)
    ensures "{" + (section + ("," + "\"driver_svrt\":1")) + "}" == "{" + (section + ",\"driver_svrt\":1}")
  {
    assert ",\"driver_svrt\":1}" == "," + "\"driver_svrt\":1" + "}";
  }
}
