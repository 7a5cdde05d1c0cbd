/** What the driver's section says: every reader finds the settings it was printed from. */
module DriverContents {
  import opened Wrappers
  import opened JsonScanner
  import opened JsonText
  import opened JsonStrings
  import opened DriverSettings
  import opened SettingsFile
  import opened ObjectUpdate
  import opened Readers
  import opened ObjectParsing
  import opened SettingsWrite

  // ---------- Numbers ----------

  /** The digits of section 6 of RFC 8259: not empty, and no zero in front of others. */
  function ReadDigits(text: string): Option<nat> {
    if text == [] then None
    else
      var last := text[|text| - 1];
      if !('0' <= last <= '9') then None
      else if |text| == 1 then Some(last as int - '0' as int)
      else
        match ReadDigits(text[..|text| - 1])
        case Some(n) => if n == 0 then None else Some(10 * n + (last as int - '0' as int))
        case None => None
  }

  /** An integer of that section. */
  function ReadInt(text: string): Option<int> {
    if text != [] && text[0] == '-' then
      match ReadDigits(text[1..])
      case Some(n) => Some(-(n as int))
      case None => None
    else
      match ReadDigits(text)
      case Some(n) => Some(n as int)
      case None => None
  }

  lemma DigitIs(d: nat)
    requires d < 10
    ensures '0' <= DIGITS[d] <= '9' && DIGITS[d] as int - '0' as int == d && PlainWord([DIGITS[d]])
  {}

  lemma ReadMore(text: string, n: nat, d: nat)
    requires ReadDigits(text) == Some(n) && n > 0 && d < 10
    ensures ReadDigits(text + [DIGITS[d]]) == Some(10 * n + d)
  {
    DigitIs(d);
    assert (text + [DIGITS[d]])[..|text|] == text;
  }

  lemma WordSum(a: string, b: string)
    requires PlainWord(a) && PlainWord(b)
    ensures PlainWord(a + b) && (a + b)[0] == a[0]
  {
    hide IsSpace, Loose;
  }

  lemma {:induction false} DigitsRead(n: nat)
    ensures ReadDigits(Digits(n)) == Some(n) && PlainWord(Digits(n)) && Digits(n)[0] != '-'
  {
    hide PlainWord, ReadDigits;
    DigitIs(n % 10);
    if n >= 10 {
      DigitsRead(n / 10);
      ReadMore(Digits(n / 10), n / 10, n % 10);
      WordSum(Digits(n / 10), [DIGITS[n % 10]]);
    } else {
      DigitRead(n);
    }
  }

  lemma DigitRead(d: nat)
    requires d < 10
    ensures ReadDigits([DIGITS[d]]) == Some(d) && [DIGITS[d]][0] != '-'
  {
    DigitIs(d);
  }

  lemma DecimalRead(n: int)
    ensures ReadInt(Decimal(n)) == Some(n) && PlainWord(Decimal(n))
  {
    hide ReadDigits, Digits;
    DigitsRead(if n < 0 then -n else n);
    if n < 0 { assert Decimal(n)[1..] == Digits(-n); }
  }

  // ---------- The fields as members ----------

  ghost predicate Fits(field: (string, string), value: Text) {
    NoEscapes(field.0) && Value(value) && Print(value) == field.1
  }

  /** Each field's text is that of the value at its place. */
  ghost predicate Carries(fields: seq<(string, string)>, values: seq<Text>) {
    |values| == |fields| && forall i | 0 <= i < |fields| :: Fits(fields[i], values[i])
  }

  function MembersOf(fields: seq<(string, string)>, values: seq<Text>): (ms: seq<Member>)
    requires |values| == |fields|
    ensures |ms| == |fields| && forall i | 0 <= i < |ms| :: ms[i].key == fields[i].0 && ms[i].value == values[i]
  {
    if fields == [] then []
    else [Member("\n  ", fields[0].0, " ", " ", values[0], if |fields| == 1 then "\n" else "")]
         + MembersOf(fields[1..], values[1..])
  }

  lemma {:induction false} MembersPrint(fields: seq<(string, string)>, values: seq<Text>)
    requires fields != [] && Carries(fields, values)
    ensures "\n" + PrintFields(fields) == PrintMembers(MembersOf(fields, values))
    ensures MembersOk(MembersOf(fields, values))
    decreases |fields|
  {
    hide Value, Print, NoEscapes, Raw, PrintMember, PrintField;
    var f, m, rest := fields[0], MembersOf(fields, values)[0], MembersOf(fields[1..], values[1..]);
    NoEscapesRaw(f.0);
    assert MembersOf(fields, values)[1..] == rest;
    if |fields| == 1 {
      LastPrints(f, m);
    } else {
      MembersPrint(fields[1..], values[1..]);
      FirstPrints(f, m, PrintFields(fields[1..]));
    }
  }

  lemma LastPrints(f: (string, string), m: Member)
    requires m.lead == "\n  " && m.key == f.0 && m.mid == " " && m.pad == " " && Print(m.value) == f.1
    requires m.trail == "\n"
    ensures "\n" + (PrintField(f) + ("\n" + [])) == PrintMember(m) + ("" + [])
  {
    hide Print, Quoted;
  }

  lemma FirstPrints(f: (string, string), m: Member, rest: string)
    requires m.lead == "\n  " && m.key == f.0 && m.mid == " " && m.pad == " " && Print(m.value) == f.1 && m.trail == ""
    ensures "\n" + (PrintField(f) + (",\n" + rest)) == PrintMember(m) + ("," + ("\n" + rest))
  {
    hide Print, Quoted;
  }

  lemma ValuesAt(ms: seq<Member>, i: nat)
    requires i < |ms| && forall j | 0 <= j < |ms| :: PlainKey(ms[j].key) && (j == i || ms[j].key != ms[i].key)
    ensures Values(ms, ms[i].key) == [ms[i].value]
  {
    hide Values, KeyRead, PlainKey;
    forall j | 0 <= j < |ms| ensures Bears(ms[j], ms[i].key) <==> j == i { PlainKeyRead(ms[j].key); }
    ValuesAround(ms, i, ms[i].key);
    NoneBears(ms[..i], ms[i].key);
    NoneBears(ms[i + 1..], ms[i].key);
  }

  // ---------- The driver's section ----------

  function HostText(host: string): Text { Str(Escapes(host), End) }

  lemma HostIsValue(host: string)
    ensures Value(HostText(host)) && Print(HostText(host)) == JsonString(host)
  {
    hide Escapes;
    EscapesAreRaw(host);
    var text := Print(HostText(host));
    assert WellFormed(Text.End) && Lone(Text.End);
    assert Print(Text.End) == [] && JsonString(host) + [] == JsonString(host);
    assert text == JsonString(host) && text[0] == '"' && text[|text| - 1] == '"';
  }

  function ValuesOf(settings: Settings, enabled: bool): seq<Text> {
    [Chars(if enabled then "true" else "false"), HostText(settings.host),
     Chars("9944"), Chars("9945"), Chars("9946"), Chars("8"),
     Chars(Decimal(settings.refresh)), Chars(Decimal(Half(settings.width))), Chars(Decimal(settings.height))]
  }

  lemma WordFits(key: string, text: string)
    requires NoEscapes(key) && PlainWord(text)
    ensures Fits((key, text), Chars(text))
  {
    hide PlainWord, NoEscapes;
    WordIsValue(text);
  }

  lemma PortsFit()
    ensures Fits(("enable", "true"), Chars("true")) && Fits(("enable", "false"), Chars("false"))
    ensures Fits(("receiver_port", "9944"), Chars("9944")) && Fits(("status_port", "9945"), Chars("9945"))
    ensures Fits(("audio_port", "9946"), Chars("9946")) && Fits(("bitrate_mbps", "8"), Chars("8"))
  {
    hide Fits, Chars;
    WordFits("enable", "true");
    WordFits("enable", "false");
    WordFits("receiver_port", "9944");
    WordFits("status_port", "9945");
    WordFits("audio_port", "9946");
    WordFits("bitrate_mbps", "8");
  }

  lemma SettingsFit(settings: Settings)
    ensures Fits(("receiver_host", JsonString(settings.host)), HostText(settings.host))
    ensures Fits(("display_frequency", Decimal(settings.refresh)), Chars(Decimal(settings.refresh)))
    ensures Fits(("render_width", Decimal(Half(settings.width))), Chars(Decimal(Half(settings.width))))
    ensures Fits(("render_height", Decimal(settings.height)), Chars(Decimal(settings.height)))
  {
    hide Value, Print, Chars, HostText, JsonString, Decimal, PlainWord;
    HostIsValue(settings.host);
    DecimalRead(settings.refresh);
    DecimalRead(Half(settings.width));
    DecimalRead(settings.height);
    WordFits("display_frequency", Decimal(settings.refresh));
    WordFits("render_width", Decimal(Half(settings.width)));
    WordFits("render_height", Decimal(settings.height));
  }

  lemma FieldsCarry(settings: Settings, enabled: bool)
    ensures Carries(Fields(settings, enabled), ValuesOf(settings, enabled))
  {
    hide Fits, Chars, HostText, JsonString, Decimal, Half;
    PortsFit();
    SettingsFit(settings);
  }

  function DriverDoc(settings: Settings, enabled: bool): Doc {
    Doc("\"driver_svrt\" : ", MembersOf(Fields(settings, enabled), ValuesOf(settings, enabled)), "", "")
  }

  lemma SectionPrints(settings: Settings, enabled: bool)
    ensures DocOk(DriverDoc(settings, enabled))
    ensures PrintDoc(DriverDoc(settings, enabled)) == DriverSection(settings, enabled)
  {
    hide Fields, ValuesOf, PrintFields, PrintMembers, MembersOf, MemberOk, Carries;
    FieldsCarry(settings, enabled);
    FieldsAreThere(settings, enabled);
    MembersPrint(Fields(settings, enabled), ValuesOf(settings, enabled));
  }

  lemma FieldsAreThere(settings: Settings, enabled: bool)
    ensures |Fields(settings, enabled)| == |ValuesOf(settings, enabled)| == 9
  {}

  /** The text of the value that every reader finds under a key. */
  function Under(ms: seq<Member>, key: string): Option<string> {
    if |Values(ms, key)| == 1 then Some(Print(Values(ms, key)[0])) else None
  }

  /** The integer under a key. */
  function Number(ms: seq<Member>, key: string): Option<int> {
    match Under(ms, key)
    case Some(text) => ReadInt(text)
    case None => None
  }

  /** Half of the width, towards zero. */
  predicate IsHalf(half: int, width: int) {
    if width >= 0 then 0 <= width - 2 * half <= 1 else -1 <= width - 2 * half <= 0
  }

  /** What the section is to tell the driver. */
  ghost predicate Says(ms: seq<Member>, settings: Settings, enabled: bool) {
    && |ms| == 9
    && Under(ms, "enable") == Some(if enabled then "true" else "false")
    && Under(ms, "receiver_host").Some? && ReadString(Under(ms, "receiver_host").value) == Some((settings.host, ""))
    && Number(ms, "receiver_port") == Some(9944)
    && Number(ms, "status_port") == Some(9945)
    && Number(ms, "audio_port") == Some(9946)
    && Number(ms, "bitrate_mbps") == Some(8)
    && Number(ms, "display_frequency") == Some(settings.refresh)
    && Number(ms, "render_width").Some? && IsHalf(Number(ms, "render_width").value, settings.width)
    && Number(ms, "render_height") == Some(settings.height)
  }

  lemma FieldKeysDiffer(settings: Settings, enabled: bool, i: nat, j: nat)
    requires i < j < 9 && |Fields(settings, enabled)| == 9
    ensures Fields(settings, enabled)[i].0 != Fields(settings, enabled)[j].0
  {}

  lemma FieldKeysPlain(settings: Settings, enabled: bool, i: nat)
    requires i < 9 && |Fields(settings, enabled)| == 9
    ensures PlainKey(Fields(settings, enabled)[i].0)
  {
    hide JsonString, Decimal, Half, PlainKey;
    SwitchKeysPlain();
    PortKeysPlain();
    RateKeysPlain();
  }

  lemma SwitchKeysPlain()
    ensures PlainKey("enable") && PlainKey("receiver_host") && PlainKey("receiver_port")
  {}

  lemma PortKeysPlain()
    ensures PlainKey("status_port") && PlainKey("audio_port") && PlainKey("bitrate_mbps")
  {}

  lemma RateKeysPlain()
    ensures PlainKey("display_frequency") && PlainKey("render_width") && PlainKey("render_height")
  {}

  /** Under the i-th key stands the i-th text. */
  lemma UnderAt(settings: Settings, enabled: bool, i: nat)
    requires i < 9
    ensures |DriverDoc(settings, enabled).members| == |Fields(settings, enabled)| == 9
    ensures
      var field := Fields(settings, enabled)[i];
      Under(DriverDoc(settings, enabled).members, field.0) == Some(field.1)
  {
    hide Fields, ValuesOf, MembersOf, Fits, Values, PlainKey;
    FieldsAreThere(settings, enabled);
    FieldsCarry(settings, enabled);
    var ms := DriverDoc(settings, enabled).members;
    forall j | 0 <= j < |ms| ensures PlainKey(ms[j].key) && (j == i || ms[j].key != ms[i].key) {
      FieldKeysPlain(settings, enabled, j);
      if j < i { FieldKeysDiffer(settings, enabled, j, i); } else if j > i { FieldKeysDiffer(settings, enabled, i, j); }
    }
    ValuesAt(ms, i);
    FitPrints(Fields(settings, enabled)[i], ValuesOf(settings, enabled)[i]);
  }

  lemma FitPrints(field: (string, string), value: Text)
    requires Fits(field, value)
    ensures Print(value) == field.1
  {}

  lemma PortsRead()
    ensures ReadInt("9944") == Some(9944) && ReadInt("9945") == Some(9945) && ReadInt("9946") == Some(9946)
    ensures ReadInt("8") == Some(8)
  {
    hide ReadInt, Digits, Decimal;
    DecimalRead(9944);
    DecimalRead(9945);
    DecimalRead(9946);
    DecimalRead(8);
    PortsPrint();
  }

  lemma PortsPrint()
    ensures Decimal(9944) == "9944" && Decimal(9945) == "9945" && Decimal(9946) == "9946" && Decimal(8) == "8"
  {
    NinetyNineFour();
    assert Digits(9944) == Digits(994) + ['4'] && Digits(9945) == Digits(994) + ['5'];
    assert Digits(9946) == Digits(994) + ['6'];
  }

  lemma NinetyNineFour()
    ensures Digits(994) == "994"
  {
    assert Digits(9) == "9";
    assert Digits(99) == Digits(9) + ['9'];
    assert Digits(994) == Digits(99) + ['4'];
  }

  lemma DocSays(settings: Settings, enabled: bool)
    ensures Says(DriverDoc(settings, enabled).members, settings, enabled)
  {
    hide DriverDoc, Under, ReadInt, ReadString, JsonString, Decimal, Says, Fields;
    var ms := DriverDoc(settings, enabled).members;
    UnderAt(settings, enabled, 0);
    forall i | 0 <= i < 9
      ensures Under(ms, Fields(settings, enabled)[i].0) == Some(Fields(settings, enabled)[i].1)
    {
      UnderAt(settings, enabled, i);
    }
    FieldsRead(settings, enabled, ms);
  }

  lemma FieldsRead(settings: Settings, enabled: bool, ms: seq<Member>)
    requires |ms| == |Fields(settings, enabled)| == 9
    requires forall i | 0 <= i < 9 :: Under(ms, Fields(settings, enabled)[i].0) == Some(Fields(settings, enabled)[i].1)
    ensures Says(ms, settings, enabled)
  {
    hide Under, ReadInt, ReadString, JsonString, Decimal;
    PortsRead();
    RoundTrip(settings.host, "");
    assert JsonString(settings.host) + "" == JsonString(settings.host);
    DecimalRead(settings.refresh);
    DecimalRead(Half(settings.width));
    DecimalRead(settings.height);
    var fs := Fields(settings, enabled);
    assert Under(ms, fs[0].0) == Some(fs[0].1) && Under(ms, fs[1].0) == Some(fs[1].1);
    assert Under(ms, fs[2].0) == Some(fs[2].1) && Under(ms, fs[3].0) == Some(fs[3].1);
    assert Under(ms, fs[4].0) == Some(fs[4].1) && Under(ms, fs[5].0) == Some(fs[5].1);
    assert Under(ms, fs[6].0) == Some(fs[6].1) && Under(ms, fs[7].0) == Some(fs[7].1);
    assert Under(ms, fs[8].0) == Some(fs[8].1);
  }

  /** The printed section is the text of an object, and every reader finds there what the driver is to be told. */
  lemma SectionSays(settings: Settings, enabled: bool) returns (d: Doc)
    ensures DocOk(d) && PrintDoc(d) == DriverSection(settings, enabled)
    ensures forall e: Doc | DocOk(e) && PrintDoc(e) == DriverSection(settings, enabled) ::
      Says(e.members, settings, enabled) && e.head == "\"driver_svrt\" : " && e.tail == ""
  {
    hide DocOk, PrintDoc, DriverSection, Says;
    d := DriverDoc(settings, enabled);
    SectionPrints(settings, enabled);
    DocSays(settings, enabled);
    forall e: Doc | DocOk(e) && PrintDoc(e) == DriverSection(settings, enabled)
      ensures Says(e.members, settings, enabled) && e.head == "\"driver_svrt\" : " && e.tail == ""
    {
      DocUnique(d, e);
    }
  }
}
