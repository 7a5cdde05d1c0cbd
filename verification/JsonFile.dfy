/** What the write of the driver's section does to a settings file that is JSON. */
module JsonFile {
  import opened Wrappers
  import opened JsonScanner
  import opened JsonText
  import opened JsonStrings
  import opened DriverSettings
  import opened SettingsFile
  import opened ObjectUpdate
  import opened SettingsWrite
  import DriverContents
  import opened DriverUpdate
  import opened SectionSearch
  import opened DriverCondition
  import opened JsonGrammar

  // ---------- The driver's section is JSON ----------

  function Flag(b: bool): Json { if b then True else False }

  function Integer(n: int): Json { if n < 0 then Number("-", Digits(-n), "", "") else Number("", Digits(n), "", "") }

  function DriverValues(settings: Settings, enabled: bool): seq<Json> {
    [Flag(enabled), String(Escapes(settings.host)), Integer(9944), Integer(9945), Integer(9946), Integer(8),
     Integer(settings.refresh), Integer(Half(settings.width)), Integer(settings.height)]
  }

  /** One member a line, as driver_section prints them. */
  function Lines(fields: seq<(string, string)>, values: seq<Json>): Pairs
    requires |fields| == |values|
  {
    if fields == [] then NoPair
    else
      var trail := if |fields| == 1 then "\n" else "";
      Pair("\n  ", fields[0].0, " ", " ", values[0], trail, Lines(fields[1..], values[1..]))
  }

  function DriverJson(settings: Settings, enabled: bool): (j: Json)
    ensures j.Object?
  {
    Object("", Lines(Fields(settings, enabled), DriverValues(settings, enabled)))
  }

  lemma {:induction false} DigitsAreWhole(n: nat)
    ensures AllDigits(Digits(n)) && (Digits(n)[0] == '0' ==> |Digits(n)| == 1) && (n > 0 ==> Digits(n)[0] != '0')
  {
    if n >= 10 { DigitsAreWhole(n / 10); }
  }

  lemma IntegerIs(n: int)
    ensures Ok(Integer(n)) && AsText(Integer(n)) == Chars(Decimal(n))
  {
    hide Digits, Chars;
    DigitsAreWhole(if n < 0 then -n else n);
    assert TextOf(Integer(n)) == Decimal(n);
  }

  lemma CharsOkBehind(e: string, rest: string)
    requires CharsOk(rest) && |e| <= 1 && (e != [] ==> e[0] != '\\' && e[0] != '"' && e[0] as int >= 0x20)
    ensures CharsOk(e + rest)
  {
    if e == [] { assert e + rest == rest; } else { assert (e + rest)[1..] == rest; }
  }

  lemma EscapeIsOk(c: char, rest: string)
    requires CharsOk(rest)
    ensures CharsOk(Escape(c) + rest)
  {
    var text := Escape(c) + rest;
    if |Escape(c)| == 6 {
      assert text[6..] == rest;
      DigitsAreHex(c as int / 16);
      DigitsAreHex(c as int % 16);
    } else if |Escape(c)| == 2 {
      assert text[2..] == rest;
    } else {
      CharsOkBehind([c], rest);
    }
  }

  lemma DigitsAreHex(d: nat)
    requires d < 16
    ensures Hex(DIGITS[d])
  {}

  lemma {:induction false} EscapesAreOk(value: string, rest: string)
    requires CharsOk(rest)
    ensures CharsOk(Escapes(value) + rest)
    decreases |value|
  {
    hide Escape, CharsOk;
    if value == [] {
      assert Escapes(value) + rest == rest;
    } else {
      var n := |value| - 1;
      EscapeIsOk(value[n], rest);
      EscapesAreOk(value[..n], Escape(value[n]) + rest);
      assert Escapes(value) + rest == Escapes(value[..n]) + (Escape(value[n]) + rest);
    }
  }

  lemma HostIsOk(host: string)
    ensures Ok(String(Escapes(host)))
  {
    EscapesAreOk(host, []);
    assert Escapes(host) + [] == Escapes(host);
  }

  lemma {:induction false} LinesAre(fields: seq<(string, string)>, values: seq<Json>, texts: seq<Text>)
    requires |fields| == |values| == |texts| && forall i | 0 <= i < |values| :: AsText(values[i]) == texts[i]
    ensures MembersOf(Lines(fields, values)) == DriverContents.MembersOf(fields, texts)
    decreases |fields|
  {
    hide AsText;
    if fields != [] { LinesAre(fields[1..], values[1..], texts[1..]); }
  }

  lemma {:induction false} LinesOk(fields: seq<(string, string)>, values: seq<Json>)
    requires |fields| == |values|
    requires forall i | 0 <= i < |values| :: Ok(values[i]) && CharsOk(fields[i].0)
    ensures PairsOk(Lines(fields, values))
    decreases |fields|
  {
    hide Ok, CharsOk;
    if fields != [] {
      LineIsWhite();
      LinesOk(fields[1..], values[1..]);
    }
  }

  lemma LineIsWhite()
    ensures White("\n  ") && White("\n") && White(" ") && White("")
  {}

  /** The section printed is JSON: the key, a colon, and an object. */
  lemma DriverJsonIs(settings: Settings, enabled: bool)
    ensures Ok(DriverJson(settings, enabled)) && AsText(DriverJson(settings, enabled)) == DriverValue(settings, enabled)
    ensures DriverSection(settings, enabled) == Quoted(KEY) + (" : " + TextOf(DriverJson(settings, enabled)))
  {
    hide Fields, DriverValues, Lines, DriverContents.ValuesOf, Ok, AsText, DriverSection, DriverValue, TextOf, Print,
         Value, DriverContents.MembersOf, MembersOf;
    var values, fields := DriverValues(settings, enabled), Fields(settings, enabled);
    var texts := DriverContents.ValuesOf(settings, enabled);
    ValuesMatch(settings, enabled);
    LinesAre(fields, values, texts);
    LinesOk(fields, values);
    ObjectMatches(settings, enabled);
    DriverValueIs(settings, enabled);
    JsonIsValue(DriverJson(settings, enabled));
  }

  lemma ObjectMatches(settings: Settings, enabled: bool)
    requires |Fields(settings, enabled)| == |DriverValues(settings, enabled)|
    requires |DriverContents.ValuesOf(settings, enabled)| == |Fields(settings, enabled)|
    requires MembersOf(Lines(Fields(settings, enabled), DriverValues(settings, enabled)))
          == DriverContents.MembersOf(Fields(settings, enabled), DriverContents.ValuesOf(settings, enabled))
    requires PairsOk(Lines(Fields(settings, enabled), DriverValues(settings, enabled)))
    ensures Ok(DriverJson(settings, enabled)) && AsText(DriverJson(settings, enabled)) == DriverValue(settings, enabled)
  {
    hide Fields, DriverValues, DriverContents.ValuesOf, DriverContents.MembersOf, MembersOf, Lines, PairsOk;
    LineIsWhite();
  }

  lemma ValuesMatch(settings: Settings, enabled: bool)
    ensures |Fields(settings, enabled)| == |DriverValues(settings, enabled)| == 9
    ensures |DriverContents.ValuesOf(settings, enabled)| == 9
    ensures
      var values, texts := DriverValues(settings, enabled), DriverContents.ValuesOf(settings, enabled);
      forall i | 0 <= i < 9 ::
        AsText(values[i]) == texts[i] && Ok(values[i]) && CharsOk(Fields(settings, enabled)[i].0)
  {
    hide Integer, Decimal, Half, Chars, Escapes, JsonString, CharsOk, Ok, AsText;
    forall i | 0 <= i < 9 ensures CharsOk(Fields(settings, enabled)[i].0) {
      DriverContents.FieldKeysPlain(settings, enabled, i);
      PlainKeyIsJson(Fields(settings, enabled)[i].0);
    }
    FlagIs(enabled);
    HostMatches(settings.host);
    PortsMatch();
    IntegerIs(settings.refresh);
    IntegerIs(Half(settings.width));
    IntegerIs(settings.height);
  }

  lemma FlagIs(b: bool)
    ensures Ok(Flag(b)) && AsText(Flag(b)) == Chars(if b then "true" else "false")
  {
    hide Chars;
  }

  lemma HostMatches(host: string)
    ensures Ok(String(Escapes(host))) && AsText(String(Escapes(host))) == DriverContents.HostText(host)
  {
    hide Escapes;
    HostIsOk(host);
  }

  lemma PortsMatch()
    ensures Ok(Integer(9944)) && AsText(Integer(9944)) == Chars("9944")
    ensures Ok(Integer(9945)) && AsText(Integer(9945)) == Chars("9945")
    ensures Ok(Integer(9946)) && AsText(Integer(9946)) == Chars("9946")
    ensures Ok(Integer(8)) && AsText(Integer(8)) == Chars("8")
  {
    hide Integer, Ok, AsText, Chars, Decimal;
    IntegerIs(9944);
    IntegerIs(9945);
    IntegerIs(9946);
    IntegerIs(8);
    PortsPrinted();
  }

  lemma PortsPrinted()
    ensures Decimal(9944) == "9944" && Decimal(9945) == "9945" && Decimal(9946) == "9946" && Decimal(8) == "8"
  {
    assert Digits(9) == "9" && Digits(99) == "99" && Digits(994) == "994";
  }

  // ---------- No value of JSON reads like a section ----------

  lemma {:induction false} CharsHaveNoPlace(s: string, key: string)
    ensures PlaceInValue(Chars(s), key).None?
  {
    if s != [] { CharsHaveNoPlace(s[1..], key); }
  }

  /** In JSON no string in an array has a colon behind it. */
  lemma {:induction false} ValueHasNoPlace(j: Json, key: string)
    requires Ok(j)
    ensures PlaceInValue(AsText(j), key).None?
    decreases j
  {
    hide Chars, TextOf, White;
    match j {
      case String(_) =>
      case Array(blank, items) => CharsHaveNoPlace(blank, key); ItemsHaveNoPlace(items, key);
      case Object(_, _) =>
      case _ => CharsHaveNoPlace(TextOf(j), key);
    }
  }

  lemma {:induction false} ItemsHaveNoPlace(xs: Items, key: string)
    requires ItemsOk(xs)
    ensures PlaceInValue(ItemsText(xs), key).None?
    decreases xs
  {
    hide Chars, AsText, White, Ok, TextStops, BehindSpaces;
    if xs.Item? {
      var more := if xs.rest.NoItem? then Text.End else Char(',', ItemsText(xs.rest));
      var behind := Then(Chars(xs.trail), more);
      ValueHasNoPlace(xs.value, key);
      ItemsHaveNoPlace(xs.rest, key);
      WhiteIsBlank(xs.trail);
      PlaceBehindChars(xs.trail, more, key);
      assert PlaceInValue(more, key).None?;
      BehindStops(xs.trail, more);
      PlaceThen(AsText(xs.value), behind, key);
      PlaceBehindChars(xs.lead, Then(AsText(xs.value), behind), key);
    }
  }

  lemma BehindStops(trail: string, more: Text)
    requires AllBlank(trail) && (more.End? || (more.Char? && more.c == ','))
    ensures TextStops(Then(Chars(trail), more))
  {
    hide Chars;
    SpacesBehindBlank(trail, more);
  }

  lemma {:induction false} NoSectionInValues(ps: Pairs, key: string)
    requires PairsOk(ps)
    ensures NoSectionBefore(MembersOf(ps), key)
  {
    hide AsText, Ok, White, CharsOk, PlaceInValue;
    if ps.Pair? {
      ValueHasNoPlace(ps.value, key);
      NoSectionInValues(ps.rest, key);
      assert MembersOf(ps)[1..] == MembersOf(ps.rest);
    }
  }

  // ---------- The file with the section ----------

  /** The value of the first member with the key. */
  function FirstValue(ps: Pairs, key: string): Json
    requires HasKey(ps, key)
  {
    if ps.key == key then ps.value else FirstValue(ps.rest, key)
  }

  function Rewritten(ps: Pairs, key: string, value: Json): Pairs {
    match ps
    case NoPair => NoPair
    case Pair(_, k, _, _, _, _, rest) =>
      if k == key then ps.(mid := " ", pad := " ", value := value) else ps.(rest := Rewritten(rest, key, value))
  }

  /** The object with the driver's section: the first member written anew, or one added on a line of its own. */
  function WithSection(j: Json, settings: Settings, enabled: bool): (r: Json)
    requires j.Object?
    ensures r.Object?
  {
    var value := DriverJson(settings, enabled);
    if HasKey(j.pairs, KEY) then j.(pairs := Rewritten(j.pairs, KEY, value))
    else
      var lead := (if j.pairs.NoPair? then j.blank else "") + "\n  ";
      j.(pairs := Appending(j.pairs, Pair(lead, KEY, " ", " ", value, "\n", NoPair)))
  }

  lemma {:induction false} RewrittenIs(ps: Pairs, key: string, value: Json)
    ensures MembersOf(Rewritten(ps, key, value)) == Anew(MembersOf(ps), key, AsText(value))
    ensures PairsOk(ps) && Ok(value) ==> PairsOk(Rewritten(ps, key, value))
  {
    hide AsText, Ok, CharsOk;
    LineIsWhite();
    if ps.Pair? {
      RewrittenIs(ps.rest, key, value);
      assert MembersOf(ps)[1..] == MembersOf(ps.rest);
    }
  }

  lemma {:induction false} FoundIs(ps: Pairs, key: string)
    requires HasKey(ps, key)
    ensures Has(MembersOf(ps), key) && Found(MembersOf(ps), key).value == AsText(FirstValue(ps, key))
  {
    hide AsText;
    HasIsHasKey(ps, key);
    if ps.key != key { FoundIs(ps.rest, key); }
    assert MembersOf(ps)[1..] == MembersOf(ps.rest);
  }

  lemma WithSectionIs(head: string, j: Json, tail: string, settings: Settings, enabled: bool)
    requires j.Object? && Ok(j)
    ensures DocOf(head, WithSection(j, settings, enabled), tail)
         == Put(DocOf(head, j, tail), KEY, DriverValue(settings, enabled))
    ensures Ok(WithSection(j, settings, enabled))
  {
    hide AsText, CharsOk, Has, HasKey, DriverValue, DriverJson, Quoted;
    var value := DriverJson(settings, enabled);
    DriverJsonIs(settings, enabled);
    HasIsHasKey(j.pairs, KEY);
    if HasKey(j.pairs, KEY) {
      RewrittenIs(j.pairs, KEY, value);
    } else {
      var lead := (if j.pairs.NoPair? then j.blank else "") + "\n  ";
      var last := Pair(lead, KEY, " ", " ", value, "\n", NoPair);
      assert MembersOf(last) == [Member(lead, KEY, " ", " ", AsText(value), "\n")];
      assert PairsOk(last) by { NewMemberOk(j.blank); }
      AppendingIs(j.pairs, last);
    }
  }

  lemma NewMemberOk(blank: string)
    ensures CharsOk(KEY) && White(" ") && White("\n") && White("" + "\n  ") && (White(blank) ==> White(blank + "\n  "))
  {
    assert PlainKey(KEY);
    PlainKeyIsJson(KEY);
    LineIsWhite();
    assert "" + "\n  " == "\n  ";
  }

  /** A JSON text: a value with blanks around it; here it is an object. */
  predicate IsJsonText(head: string, j: Json, tail: string) { White(head) && j.Object? && Ok(j) && White(tail) }

  /**
   * For every JSON text that is an object: the write sets the member driver_svrt, for all settings,
   * and leaves every other character, if and only if the first member with that key, if there is
   * one, is an object. What is written is JSON again.
   */
  lemma WritesJsonExactlyWhen(head: string, j: Json, tail: string)
    requires IsJsonText(head, j, tail)
    ensures (HasKey(j.pairs, KEY) ==> FirstValue(j.pairs, KEY).Object?) <==>
      forall settings, enabled ::
        WriteSection(head + (TextOf(j) + tail), DriverSection(settings, enabled))
          == Some(head + (TextOf(WithSection(j, settings, enabled)) + tail))
    ensures forall settings, enabled :: IsJsonText(head, WithSection(j, settings, enabled), tail)
  {
    hide WriteSection, TextOf, DriverSection, WithSection, PrintDoc, Put, DriverValue, DocOk, Has, HasKey, PlainAround,
         Ok, NoSectionBefore;
    var d := DocOf(head, j, tail);
    WhiteIsPlain(head, tail, d);
    JsonIsDoc(head, j, tail);
    forall settings, enabled
      ensures IsJsonText(head, WithSection(j, settings, enabled), tail)
      ensures PrintDoc(Put(d, KEY, DriverValue(settings, enabled)))
           == head + (TextOf(WithSection(j, settings, enabled)) + tail)
    {
      WithSectionIs(head, j, tail, settings, enabled);
      JsonIsDoc(head, WithSection(j, settings, enabled), tail);
    }
    UpdatesWherePlain(d);
    PairsKeepNoSection(j);
    HasIsHasKey(j.pairs, KEY);
    if HasKey(j.pairs, KEY) { FirstIsFound(j.pairs, KEY); }
    forall settings, enabled
      ensures Updates(d, settings, enabled) <==>
        WriteSection(head + (TextOf(j) + tail), DriverSection(settings, enabled))
          == Some(head + (TextOf(WithSection(j, settings, enabled)) + tail))
    {}
  }

  lemma PairsKeepNoSection(j: Json)
    requires j.Object? && Ok(j)
    ensures NoSectionBefore(MembersOf(j.pairs), KEY)
  {
    hide NoSectionBefore;
    NoSectionInValues(j.pairs, KEY);
  }

  lemma FirstIsFound(ps: Pairs, key: string)
    requires HasKey(ps, key)
    ensures Has(MembersOf(ps), key)
    ensures InBraces(Found(MembersOf(ps), key).value) <==> FirstValue(ps, key).Object?
  {
    hide TextOf, Chars, Has;
    FoundIs(ps, key);
    var value := FirstValue(ps, key);
    assert !value.Object? && !value.Array? && !value.String? ==> !AsText(value).Group? by {
      CharsNoGroup(TextOf(value));
    }
  }

  lemma CharsNoGroup(s: string)
    ensures !Chars(s).Group?
  {}

  lemma WhiteIsPlain(head: string, tail: string, d: Doc)
    requires White(head) && White(tail) && d.head == head && d.tail == tail
    ensures NoBrace(head) && PlainAround(d)
  {}
}
