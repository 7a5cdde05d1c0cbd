/** The driver's section of SteamVR's settings file: written, found again, and written again. */
module DriverSettings {
  import opened Wrappers
  import opened JsonScanner
  import opened JsonText
  import opened JsonStrings

  datatype Settings = Settings(host: string, refresh: int, width: int, height: int)

  const KEY: string := "driver_svrt"

  // ---------- driver_section ----------

  function Digits(n: nat): string {
    if n < 10 then [DIGITS[n]] else Digits(n / 10) + [DIGITS[n % 10]]
  }

  /** std::to_string */
  function Decimal(n: int): string { if n < 0 then "-" + Digits(-n) else Digits(n) }

  /** Half of an int, towards zero. */
  function Half(n: int): int { if n < 0 then -(-n / 2) else n / 2 }

  function Fields(settings: Settings, enabled: bool): seq<(string, string)> {
    [("enable", if enabled then "true" else "false"),
     ("receiver_host", JsonString(settings.host)),
     ("receiver_port", "9944"),
     ("status_port", "9945"),
     ("audio_port", "9946"),
     ("bitrate_mbps", "8"),
     ("display_frequency", Decimal(settings.refresh)),
     ("render_width", Decimal(Half(settings.width))),
     ("render_height", Decimal(settings.height))]
  }

  function PrintField(field: (string, string)): string { "  " + (Quoted(field.0) + (" : " + field.1)) }

  function PrintFields(fields: seq<(string, string)>): string {
    if fields == [] then []
    else PrintField(fields[0]) + ((if |fields| == 1 then "\n" else ",\n") + PrintFields(fields[1..]))
  }

  /** driver_section */
  function DriverSection(settings: Settings, enabled: bool): string {
    "\"driver_svrt\" : {\n" + PrintFields(Fields(settings, enabled)) + "}"
  }

  // ---------- The scanner on the printed section ----------

  const INSIDE: Scan := Scan(1, false, false)

  /** Text inside an object that leaves the scanner there. */
  ghost predicate Level(text: string) { ScanText(INSIDE, text) == INSIDE && FirstClose(INSIDE, text).None? }

  lemma LevelSum(a: string, b: string)
    requires Level(a) && Level(b)
    ensures Level(a + b)
  {
    hide ScanText, FirstClose;
    ScanSum(INSIDE, a, b);
    FirstCloseSum(INSIDE, a, b);
  }

  lemma LevelPlain(text: string)
    requires Plain(text)
    ensures Level(text)
  {
    PlainScans(INSIDE, text);
  }

  predicate NoEscapes(key: string) { forall i | 0 <= i < |key| :: key[i] != '"' && key[i] != '\\' }

  lemma {:induction false} NoEscapesRaw(key: string)
    requires NoEscapes(key)
    ensures Raw(key, false)
    decreases |key|
  {
    if key != [] { NoEscapesRaw(key[1..]); }
  }

  lemma LevelQuoted(raw: string)
    requires Raw(raw, false)
    ensures Level(Quoted(raw))
  {
    hide ScanText, FirstClose, Raw;
    QuotedScans(INSIDE, raw);
  }

  ghost predicate FieldsOk(fields: seq<(string, string)>) {
    forall i | 0 <= i < |fields| :: NoEscapes(fields[i].0) && Level(fields[i].1)
  }

  lemma LevelField(field: (string, string))
    requires NoEscapes(field.0) && Level(field.1)
    ensures Level(PrintField(field))
  {
    hide Level, Quoted;
    LevelPlain("  ");
    LevelPlain(" : ");
    NoEscapesRaw(field.0);
    LevelQuoted(field.0);
    LevelSum(" : ", field.1);
    LevelSum(Quoted(field.0), " : " + field.1);
    LevelSum("  ", Quoted(field.0) + (" : " + field.1));
  }

  lemma {:induction false} LevelFields(fields: seq<(string, string)>)
    requires FieldsOk(fields)
    ensures Level(PrintFields(fields))
    decreases |fields|
  {
    hide Level, PrintField, NoEscapes;
    if fields == [] {
      LevelPlain([]);
    } else {
      var tail := if |fields| == 1 then "\n" else ",\n";
      LevelFields(fields[1..]);
      LevelField(fields[0]);
      LevelPlain(tail);
      LevelSum(tail, PrintFields(fields[1..]));
      LevelSum(PrintField(fields[0]), tail + PrintFields(fields[1..]));
    }
  }

  lemma {:induction false} DigitsPlain(n: nat)
    ensures Plain(Digits(n))
  {
    if n >= 10 { DigitsPlain(n / 10); }
  }

  lemma DecimalLevel(n: int)
    ensures Level(Decimal(n))
  {
    hide Level;
    DigitsPlain(if n < 0 then -n else n);
    LevelPlain(Decimal(n));
  }

  lemma DriverFieldsOk(settings: Settings, enabled: bool)
    ensures FieldsOk(Fields(settings, enabled))
  {
    hide Level, Decimal, Quoted, Escapes, Raw;
    EscapesAreRaw(settings.host);
    LevelQuoted(Escapes(settings.host));
    LevelPlain("true");
    LevelPlain("false");
    LevelPlain("9944");
    LevelPlain("9945");
    LevelPlain("9946");
    LevelPlain("8");
    DecimalLevel(settings.refresh);
    DecimalLevel(Half(settings.width));
    DecimalLevel(settings.height);
  }

  /** Where the printed section starts, find_object's test finds exactly the section, whatever follows. */
  lemma SectionFound(settings: Settings, enabled: bool, rest: string)
    ensures var s := DriverSection(settings, enabled);
      |s| > 0 && s[0] == '"' && SectionAt(s + rest, KEY) == Some(|s| - 1)
  {
    hide FirstClose, ScanText, Fields, PrintFields, Level;
    var body := "\n" + PrintFields(Fields(settings, enabled));
    DriverFieldsOk(settings, enabled);
    LevelFields(Fields(settings, enabled));
    LevelPlain("\n");
    LevelSum("\n", PrintFields(Fields(settings, enabled)));
    var text := DriverSection(settings, enabled) + rest;
    BraceIs(text, 16);
    assert text[16..] == "{" + (body + ("}" + rest));
    BodyCloses(body, rest);
  }

  lemma BraceIs(text: string, at: nat)
    requires at == 16 && |text| > 16 && text[..17] == "\"driver_svrt\" : {"
    ensures BraceOf(text, KEY) == Some(16) && text[16] == '{'
  {
    assert text[..13] == text[..17][..13] == Quoted(KEY);
    assert text[13] == text[..17][13] == ' ' && text[14] == text[..17][14] == ':';
    assert text[15] == text[..17][15] == ' ' && text[16] == text[..17][16] == '{';
    assert SkipSpaces(text, 14, |text|) == 14;
    assert SkipSpaces(text, 16, |text|) == 16;
  }

  lemma BodyCloses(body: string, rest: string)
    requires Level(body)
    ensures FirstClose(OUTSIDE, "{" + (body + ("}" + rest))) == Some(1 + |body|)
  {
    hide FirstClose, ScanText;
    OneStep(OUTSIDE, '{', body + ("}" + rest));
    FirstCloseSum(INSIDE, body, "}" + rest);
    OneStep(INSIDE, '}', rest);
  }
}
