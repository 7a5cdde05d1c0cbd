/** Objects on which set_value fails: a string reads like the key and turns the scan, or the key is there twice. */
module EditFailures {
  import opened Wrappers
  import opened JsonScanner
  import opened JsonText
  import opened JsonStrings
  import opened DriverSettings
  import opened SettingsFile
  import opened MemberEdit
  import opened ObjectUpdate
  import opened Readers
  import opened ObjectParsing
  import opened EditCondition
  import opened RepeatedEdit

  // ---------- Steps of the search for k ----------

  /** A character that is neither a quote nor a brace, or stands inside quotes and is not special there. */
  lemma Passed(s: Scan, text: string, i: nat, limit: nat)
    requires i < limit <= |text| && text[i] != '"' && text[i] != '{' && text[i] != '}'
    requires s.quoted ==> !s.escaped && text[i] != '\\'
    ensures SearchKey(s, text[i..], limit - i, "k") == Shift(SearchKey(s, text[i + 1..], limit - i - 1, "k"), 1)
  {
    hide SearchKey, TokenAt, SkipSpaces;
    SearchStep(s, text, i, limit, "k");
  }

  /** A quote at which the key does not stand. */
  lemma Turned(s: Scan, text: string, i: nat, limit: nat)
    requires i < limit <= |text| && text[i] == '"' && !s.escaped && s.depth == 1
    requires s.quoted || !TokenAt(text, "k", i)
    ensures SearchKey(s, text[i..], limit - i, "k")
         == Shift(SearchKey(s.(quoted := !s.quoted), text[i + 1..], limit - i - 1, "k"), 1)
  {
    hide SearchKey, TokenAt, SkipSpaces;
    SearchStep(s, text, i, limit, "k");
  }

  lemma NoSpaceHere(text: string, i: nat, limit: nat)
    requires i < limit <= |text| && !IsSpace(text[i])
    ensures SkipSpaces(text, i, limit) == i
  {}

  // ---------- The key is there and is missed ----------

  /** {"a":"k","k":1}: the value of a reads like the key k. */
  const STRAY: Doc :=
    Doc("", [Member("", "a", "", "", Str("k", End), ""), Member("", "k", "", "", Char('1', End), "")], "", "")

  const STRAY_TEXT: string := ['{', '"', 'a', '"', ':', '"', 'k', '"', ',', '"', 'k', '"', ':', '1', '}']

  lemma StrayText()
    ensures PrintDoc(STRAY) == STRAY_TEXT && |Body(STRAY)| == 13
  {
    hide PrintMember, PrintMembers;
    var a, k := STRAY.members[0], STRAY.members[1];
    assert STRAY.members == [a] + [k];
    PrintedOne(k);
    PrintedMore([a], k);
    PrintedOne(a);
    StrayMembers();
  }

  lemma StrayMembers()
    ensures PrintMember(STRAY.members[0]) == ['"', 'a', '"', ':', '"', 'k', '"']
    ensures PrintMember(STRAY.members[1]) == ['"', 'k', '"', ':', '1']
  {}

  lemma StrayIsOk()
    ensures DocOk(STRAY) && Has(STRAY.members, "k") && !NoStrayBefore(STRAY.members, "k")
  {
    hide Raw;
    NoEscapesRaw("a");
    NoEscapesRaw("k");
    assert STRAY.members[1].key == "k";
  }

  lemma StrayToken(text: string, i: nat)
    requires text == STRAY_TEXT && (i == 1 || i == 5 || i == 7 || i == 11)
    ensures TokenAt(text, "k", i) <==> i == 5
  {
    hide TokenAt;
    TokenByCharacters(text, i);
    assert text[1] == '"' && text[2] == 'a' && text[5] == '"' && text[6] == 'k' && text[7] == '"';
    assert text[8] == ',' && text[11] == '"' && text[12] == ':';
  }

  lemma StrayTail(text: string)
    requires text == STRAY_TEXT
    ensures SearchKey(INSIDE, text[10..], 4, "k") == None
  {
    hide SearchKey, TokenAt;
    var q := Scan(1, true, false);
    SearchStep(q, text, 14, 14, "k");
    Passed(q, text, 13, 14);
    Passed(q, text, 12, 14);
    StrayToken(text, 11);
    Turned(INSIDE, text, 11, 14);
    Passed(INSIDE, text, 10, 14);
  }

  lemma StrayComma(text: string)
    requires text == STRAY_TEXT
    ensures SearchKey(INSIDE, text[7..], 7, "k") == None
  {
    hide SearchKey, TokenAt;
    var q := Scan(1, true, false);
    StrayTail(text);
    Turned(q, text, 9, 14);
    Passed(q, text, 8, 14);
    StrayToken(text, 7);
    Turned(INSIDE, text, 7, 14);
  }

  /** The string that reads like the key is passed without entering its quotes. */
  lemma StrayUnentered(text: string)
    requires text == STRAY_TEXT
    ensures SearchKey(INSIDE, text[5..], 9, "k") == Shift(SearchKey(INSIDE, text[6..], 8, "k"), 1)
  {
    hide SearchKey, TokenAt, SkipSpaces;
    StrayToken(text, 5);
    assert text[8] == ',' && |Quoted("k")| == 3;
    NoSpaceHere(text, 8, 14);
    SearchStep(INSIDE, text, 5, 14, "k");
  }

  lemma StrayMiddle(text: string)
    requires text == STRAY_TEXT
    ensures SearchKey(INSIDE, text[4..], 10, "k") == None
  {
    hide SearchKey, TokenAt;
    StrayComma(text);
    Passed(INSIDE, text, 6, 14);
    StrayUnentered(text);
    Passed(INSIDE, text, 4, 14);
  }

  /** The search passes the second key: the unentered string has turned quoted and unquoted text around. */
  lemma StraySearched(text: string)
    requires text == STRAY_TEXT
    ensures SearchKey(OUTSIDE, text[0..], 14, "k") == None
  {
    hide SearchKey, TokenAt, SkipSpaces;
    StrayFront(text);
    SearchStep(OUTSIDE, text, 0, 14, "k");
  }

  lemma StrayFront(text: string)
    requires text == STRAY_TEXT
    ensures SearchKey(INSIDE, text[1..], 13, "k") == None
  {
    hide SearchKey, TokenAt;
    var q := Scan(1, true, false);
    StrayMiddle(text);
    Turned(q, text, 3, 14);
    Passed(q, text, 2, 14);
    StrayToken(text, 1);
    Turned(INSIDE, text, 1, 14);
  }

  lemma TokenByCharacters(text: string, i: nat)
    requires i + 3 <= |text|
    ensures TokenAt(text, "k", i) <==> text[i] == '"' && text[i + 1] == 'k' && text[i + 2] == '"'
  {
    assert text[i..i + 3] == [text[i], text[i + 1], text[i + 2]];
    assert Quoted("k") == ['"', 'k', '"'];
  }

  /**
   * The condition is needed: with a string value that reads like the key before it, the key is not
   * found, and a second member is added instead.
   */
  lemma StrayDefeatsEdit(value: Text)
    ensures DocOk(STRAY) && Has(STRAY.members, "k") && !NoStrayBefore(STRAY.members, "k")
    ensures Edited(PrintDoc(STRAY), "k", Print(value)) == Appended(PrintDoc(STRAY), "k", Print(value), 0, 14)
    ensures Edited(PrintDoc(STRAY), "k", Print(value)) != PrintDoc(Update(STRAY, "k", value))
  {
    hide SearchKey, Print, FirstBrace, RootClose, Appended, PrintDoc, DocOk, Has, NoStrayBefore, Update;
    StrayText();
    StrayIsOk();
    BracesOf(STRAY);
    StraySearched(STRAY_TEXT);
    StrayLengths(value);
  }

  lemma ReplaceSecond(ms: seq<Member>, key: string, value: Text)
    requires |ms| == 2 && ms[0].key != key && ms[1].key == key
    ensures Replace(ms, key, value) == [ms[0], ms[1].(value := value)]
  {
    assert ms[1..][0] == ms[1];
    assert ms[1..][1..] == [];
  }

  lemma StrayLengths(value: Text)
    ensures |PrintDoc(Update(STRAY, "k", value))| == 14 + |Print(value)|
    ensures |Appended(STRAY_TEXT, "k", Print(value), 0, 14)| >= 25 + |Print(value)|
  {
    hide Print, PrintMember, PrintMembers;
    var a, k := STRAY.members[0], STRAY.members[1].(value := value);
    assert STRAY.members[1].key == "k";
    var ms := Replace(STRAY.members, "k", value);
    assert STRAY.members[0].key[0] == 'a' && "k"[0] == 'k';
    ReplaceSecond(STRAY.members, "k", value);
    assert ms == [a] + [k];
    PrintedOne(a);
    PrintedMore([a], k);
    MemberNested(a, []);
    MemberNested(k, []);
    assert |PrintMember(a)| == 7 by { StrayMembers(); }
  }

  // ---------- The key is not there and another member is taken for it ----------

  /** {"a":"k","x\"k":1}: the key of the second member ends in an escaped quote and a k. */
  const ESCAPED: Doc :=
    Doc("", [Member("", "a", "", "", Str("k", End), ""),
             Member("", ['x', '\\', '"', 'k'], "", "", Char('1', End), "")], "", "")

  const ESCAPED_TEXT: string :=
    ['{', '"', 'a', '"', ':', '"', 'k', '"', ',', '"', 'x', '\\', '"', 'k', '"', ':', '1', '}']

  lemma EscapedText()
    ensures PrintDoc(ESCAPED) == ESCAPED_TEXT && |Body(ESCAPED)| == 16
  {
    hide PrintMember, PrintMembers;
    var a, x := ESCAPED.members[0], ESCAPED.members[1];
    assert ESCAPED.members == [a] + [x];
    PrintedOne(x);
    PrintedMore([a], x);
    PrintedOne(a);
    EscapedMembers();
  }

  lemma EscapedMembers()
    ensures PrintMember(ESCAPED.members[0]) == ['"', 'a', '"', ':', '"', 'k', '"']
    ensures PrintMember(ESCAPED.members[1]) == ['"', 'x', '\\', '"', 'k', '"', ':', '1']
  {}

  lemma EscapedIsOk()
    ensures DocOk(ESCAPED) && !Has(ESCAPED.members, "k")
  {
    hide Raw;
    NoEscapesRaw("a");
    NoEscapesRaw("k");
    EscapedRaw();
    assert ESCAPED.members[0].key[0] == 'a' && "k"[0] == 'k' && |ESCAPED.members[1].key| == 4;
  }

  lemma EscapedRaw()
    ensures Raw(['x', '\\', '"', 'k'], false)
  {
    var raw := ['x', '\\', '"', 'k'];
    assert raw[1..] == ['\\', '"', 'k'] && raw[1..][1..] == ['"', 'k'] && raw[1..][1..][1..] == ['k'];
  }

  lemma EscapedToken(text: string, i: nat)
    requires text == ESCAPED_TEXT && (i == 1 || i == 5 || i == 7 || i == 12)
    ensures TokenAt(text, "k", i) <==> i == 5 || i == 12
  {
    hide TokenAt;
    TokenByCharacters(text, i);
    assert text[1] == '"' && text[2] == 'a' && text[7] == '"' && text[8] == ',';
    assert text[5] == '"' && text[6] == 'k' && text[12] == '"' && text[13] == 'k' && text[14] == '"';
  }

  lemma EscapedNoSpaces(text: string)
    requires text == ESCAPED_TEXT
    ensures SkipSpaces(text, 8, 17) == 8 && SkipSpaces(text, 15, 17) == 15 && SkipSpaces(text, 16, 17) == 16
    ensures text[8] == ',' && text[15] == ':' && |Quoted("k")| == 3
  {
    hide SkipSpaces;
    assert text[8] == ',' && text[15] == ':' && text[16] == '1';
    NoSpaceHere(text, 8, 17);
    NoSpaceHere(text, 15, 17);
    NoSpaceHere(text, 16, 17);
  }

  /** At the escaped quote the search takes the end of the other key for the key. */
  lemma EscapedHit(text: string)
    requires text == ESCAPED_TEXT
    ensures SearchKey(INSIDE, text[12..], 5, "k") == Some(4)
  {
    hide SearchKey, TokenAt, SkipSpaces;
    EscapedToken(text, 12);
    EscapedNoSpaces(text);
    SearchStep(INSIDE, text, 12, 17, "k");
  }

  /** The string that reads like the key is passed without entering its quotes. */
  lemma EscapedUnentered(text: string)
    requires text == ESCAPED_TEXT
    ensures SearchKey(INSIDE, text[5..], 12, "k") == Shift(SearchKey(INSIDE, text[6..], 11, "k"), 1)
  {
    hide SearchKey, TokenAt, SkipSpaces;
    EscapedToken(text, 5);
    EscapedNoSpaces(text);
    SearchStep(INSIDE, text, 5, 17, "k");
  }

  lemma EscapedTail(text: string)
    requires text == ESCAPED_TEXT
    ensures SearchKey(INSIDE, text[6..], 11, "k") == Some(10)
  {
    hide SearchKey, TokenAt;
    var q := Scan(1, true, false);
    Passed(INSIDE, text, 6, 17);
    EscapedToken(text, 7);
    Turned(INSIDE, text, 7, 17);
    Passed(q, text, 8, 17);
    Turned(q, text, 9, 17);
    EscapedKey(text);
  }

  lemma EscapedKey(text: string)
    requires text == ESCAPED_TEXT
    ensures SearchKey(INSIDE, text[10..], 7, "k") == Some(6)
  {
    hide SearchKey, TokenAt;
    Passed(INSIDE, text, 10, 17);
    Passed(INSIDE, text, 11, 17);
    EscapedHit(text);
  }

  lemma EscapedSearched(text: string)
    requires text == ESCAPED_TEXT
    ensures SearchKey(OUTSIDE, text[0..], 17, "k") == Some(16)
  {
    hide SearchKey, TokenAt, SkipSpaces;
    SearchStep(OUTSIDE, text, 0, 17, "k");
    EscapedFront(text);
  }

  lemma EscapedFront(text: string)
    requires text == ESCAPED_TEXT
    ensures SearchKey(INSIDE, text[1..], 16, "k") == Some(15)
  {
    hide SearchKey, TokenAt;
    var q := Scan(1, true, false);
    EscapedToken(text, 1);
    Turned(INSIDE, text, 1, 17);
    Passed(q, text, 2, 17);
    Turned(q, text, 3, 17);
    EscapedValue(text);
  }

  lemma EscapedValue(text: string)
    requires text == ESCAPED_TEXT
    ensures SearchKey(INSIDE, text[4..], 13, "k") == Some(12)
  {
    hide SearchKey, TokenAt;
    Passed(INSIDE, text, 4, 17);
    EscapedUnentered(text);
    EscapedTail(text);
  }

  lemma EscapedStop(text: string)
    requires text == ESCAPED_TEXT
    ensures ValueStop(text, 16, 17) == 17
  {
    hide Trimmed;
    TrimmedBack(text, 16, 17, 17);
    assert text[16..][0] == '1';
  }

  /**
   * An object without the key: the value of another member, whose key only ends like it, is
   * overwritten, and the key is not added.
   */
  lemma EscapedQuoteDefeatsEdit(value: Text)
    ensures DocOk(ESCAPED) && !Has(ESCAPED.members, "k") && ValueStart(PrintDoc(ESCAPED), "k", 0, 17) == Some(16)
    ensures
      var a, x := ESCAPED.members[0], ESCAPED.members[1];
      Edited(PrintDoc(ESCAPED), "k", Print(value)) == PrintDoc(ESCAPED.(members := [a, x.(value := value)]))
    ensures Edited(PrintDoc(ESCAPED), "k", Print(value)) != PrintDoc(Update(ESCAPED, "k", value))
  {
    hide SearchKey, Print, FirstBrace, RootClose, Appended, PrintDoc, DocOk, Has, Update, ValueStop;
    EscapedText();
    EscapedIsOk();
    BracesOf(ESCAPED);
    EscapedSearched(ESCAPED_TEXT);
    EscapedStop(ESCAPED_TEXT);
    EditedFound(ESCAPED_TEXT, "k", Print(value), 0, 17, 16, 17);
    EscapedOverwritten(value);
    AddedText(ESCAPED, "k", value);
    AppendedIsLonger(ESCAPED_TEXT, "k", Print(value), 0, 17);
  }

  lemma EscapedOverwritten(value: Text)
    ensures
      var a, x := ESCAPED.members[0], ESCAPED.members[1];
      PrintDoc(ESCAPED.(members := [a, x.(value := value)])) == ESCAPED_TEXT[..16] + Print(value) + ESCAPED_TEXT[17..]
  {
    hide Print, PrintMember, PrintMembers;
    var a, x := ESCAPED.members[0], ESCAPED.members[1].(value := value);
    assert [a, x] == [a] + [x];
    PrintedOne(x);
    PrintedMore([a], x);
    PrintedOne(a);
    EscapedMembers();
    OverwrittenMember(value);
    OverwrittenText(Print(value));
  }

  lemma OverwrittenMember(value: Text)
    ensures PrintMember(ESCAPED.members[1].(value := value)) == ['"', 'x', '\\', '"', 'k', '"', ':'] + Print(value)
  {
    hide Print;
    assert Quoted(['x', '\\', '"', 'k']) == ['"', 'x', '\\', '"', 'k', '"'];
  }

  lemma OverwrittenText(value: string)
    ensures ESCAPED_TEXT[..16] + value + ESCAPED_TEXT[17..] ==
      [] + ("{" + ((['"', 'a', '"', ':', '"', 'k', '"']
                    + ("," + (['"', 'x', '\\', '"', 'k', '"', ':'] + value))) + ("}" + [])))
  {
    assert ESCAPED_TEXT[17..] == "}";
  }

  // ---------- The key is not there, is added, and is added again ----------

  /** {"a":"k"} */
  const GROWING: Doc := Doc("", [Member("", "a", "", "", Str("k", End), "")], "", "")

  const GROWING_TEXT: string := ['{', '"', 'a', '"', ':', '"', 'k', '"', '}']

  lemma GrowingText()
    ensures PrintDoc(GROWING) == GROWING_TEXT && |Body(GROWING)| == 7 && UpToClose(GROWING) == GROWING_TEXT[..8]
  {
    hide PrintMember, PrintMembers;
    PrintedOne(GROWING.members[0]);
    StrayMembers();
  }

  lemma GrowingIsOk()
    ensures DocOk(GROWING) && !Has(GROWING.members, "k") && PlainKey("k")
  {
    hide Raw;
    NoEscapesRaw("a");
    NoEscapesRaw("k");
    assert GROWING.members[0].key[0] == 'a' && "k"[0] == 'k';
  }

  lemma GrowingToken(text: string, i: nat)
    requires text == GROWING_TEXT || text == GROWING_TEXT[..8]
    requires i == 1 || i == 5 || i == 7
    ensures TokenAt(text, "k", i) <==> i == 5
  {
    hide TokenAt;
    assert text[1] == '"' && text[2] == 'a' && text[5] == '"' && text[6] == 'k' && text[7] == '"';
    if i + 3 <= |text| { TokenByCharacters(text, i); } else { TooLong(text, "k", i); }
  }

  /** One step of the scan that ends in front of the closing brace. */
  lemma GrowingStep(s: Scan, i: nat)
    requires i < 8 && Standing(OUTSIDE, GROWING_TEXT[..8], "k", i) == s && (i == 3 ==> s.quoted)
    requires !s.escaped && s.depth == if i == 0 then 0 else 1
    ensures
      var c := GROWING_TEXT[i];
      Standing(OUTSIDE, GROWING_TEXT[..8], "k", i + 1) == if i == 5 && !s.quoted then s else Feed(s, c)
  {
    hide Standing, TokenAt;
    var text := GROWING_TEXT[..8];
    StandingFurther(OUTSIDE, text, "k", i);
    TokenIsPrefix(text, "k", i);
    if i == 1 || i == 5 || i == 7 {
      GrowingToken(text, i);
    } else if !s.quoted {
      NotAQuote(text, i);
    }
  }

  lemma NotAQuote(text: string, i: nat)
    requires i < |text| && text[i] != '"'
    ensures !TokenAt(text, "k", i)
  {
    if TokenAt(text, "k", i) { TokenQuote(text, "k", i); }
  }

  /** The string is passed without entering its quotes, so its end is taken for a beginning. */
  lemma GrowingEnds()
    ensures !EndsOutside(GROWING, "k")
  {
    hide Standing, UpToClose;
    var q := Scan(1, true, false);
    GrowingText();
    assert OUTSIDE == Standing(OUTSIDE, GROWING_TEXT[..8], "k", 0) by { StandingStarts(GROWING_TEXT[..8]); }
    GrowingStep(OUTSIDE, 0);
    GrowingStep(INSIDE, 1);
    GrowingStep(q, 2);
    GrowingStep(q, 3);
    GrowingStep(INSIDE, 4);
    GrowingStep(INSIDE, 5);
    GrowingStep(INSIDE, 6);
    GrowingStep(INSIDE, 7);
  }

  lemma StandingStarts(text: string)
    ensures Standing(OUTSIDE, text, "k", 0) == OUTSIDE
  {}

  lemma OneToken(text: string, n: nat)
    requires text == GROWING_TEXT && TokenAt(text, "k", n)
    ensures n == 5
  {
    hide TokenAt;
    if n + 3 > |text| { TooLong(text, "k", n); }
    TokenByCharacters(text, n);
  }

  lemma GrowingMeetsNothing()
    ensures MeetsNothing(GROWING, "k")
  {
    hide Meets, KeyStands, TokenAt, Standing;
    GrowingText();
    var text := GROWING_TEXT;
    assert PrintDoc(GROWING)[|GROWING.head|..] == text;
    forall n: nat ensures !MeetsKey(GROWING, "k", n) {
      MeetsKeyIs(GROWING, "k", n, text, 8);
      if Meets(OUTSIDE, text, 8, "k", n) {
        MeetsWithin(OUTSIDE, text, 8, "k", n);
        var c := StandsSpelled(text, 8, "k", n);
        OneToken(text, n);
      }
    }
  }

  /**
   * The first edit is right for every value; the second one appends the member again, because the
   * scan of the object ends inside quotes.
   */
  lemma StrayMakesEditGrow()
    ensures DocOk(GROWING) && PlainKey("k") && !Has(GROWING.members, "k")
    ensures forall value | Value(value) ::
      Edited(PrintDoc(GROWING), "k", Print(value)) == PrintDoc(Update(GROWING, "k", value))
    ensures
      var once := Edited(PrintDoc(GROWING), "k", "0");
      |Edited(once, "k", "0")| > |once|
  {
    hide *;
    GrowingIsOk();
    PlainKeyFits("k");
    GrowingMeetsNothing();
    GrowingEnds();
    UpdatesIffUnmet(GROWING, "k");
    EditGrows(GROWING, "k");
  }

  // ---------- The key is there twice ----------

  /** {"k":5,"k":7}: only the first member with the key is updated. */
  const TWICE: Doc :=
    Doc("", [Member("", "k", "", "", Char('5', End), ""), Member("", "k", "", "", Char('7', End), "")], "", "")

  lemma TwiceIsOk()
    ensures DocOk(TWICE) && PlainKey("k") && Has(TWICE.members, "k") && NoStrayBefore(TWICE.members, "k")
    ensures Value(Char('1', End)) && NoEscapes("k")
    ensures Update(TWICE, "k", Char('1', End)).members
         == [Member("", "k", "", "", Char('1', End), ""), TWICE.members[1]]
  {
    hide Raw;
    NoEscapesRaw("k");
    assert TWICE.members[0].key == "k";
  }

  lemma DigitMember(c: char)
    ensures PrintMember(Member("", "k", "", "", Char(c, End), "")) == ['"', 'k', '"', ':', c]
  {
    assert Print(Char(c, End)) == [c];
    assert Quoted("k") == ['"', 'k', '"'];
  }

  lemma TwiceText(c: char)
    ensures PrintDoc(Doc("", [Member("", "k", "", "", Char(c, End), ""), TWICE.members[1]], "", ""))
         == ['{', '"', 'k', '"', ':', c, ',', '"', 'k', '"', ':', '7', '}']
  {
    hide PrintMember, PrintMembers;
    var a, b := Member("", "k", "", "", Char(c, End), ""), TWICE.members[1];
    assert [a, b] == [a] + [b];
    PrintedOne(a);
    PrintedMore([a], b);
    DigitMember(c);
    DigitMember('7');
  }

  lemma TwiceValues(value: Text)
    ensures Values([Member("", "k", "", "", value, ""), TWICE.members[1]], "k") == [value, Char('7', End)]
  {
    hide KeyRead, PlainKey;
    TwiceIsOk();
    PlainKeyRead("k");
    ValuesOfTwo(Member("", "k", "", "", value, ""), TWICE.members[1], "k");
  }

  /** After k is set to 1 there, readers that keep the first find 1, and those that keep the last find 7. */
  lemma DuplicateIsKept(e: Doc)
    requires DocOk(e)
    requires PrintDoc(e) == Edited(['{', '"', 'k', '"', ':', '5', ',', '"', 'k', '"', ':', '7', '}'], "k", "1")
    ensures PrintDoc(e) == ['{', '"', 'k', '"', ':', '1', ',', '"', 'k', '"', ':', '7', '}']
    ensures FirstOf(e.members, "k") == Some(Char('1', End)) && LastOf(e.members, "k") == Some(Char('7', End))
  {
    hide DocOk, PrintDoc, Edited, PlainKey, NoStrayBefore, Has, Update, Value, Values, NoEscapes;
    var value, u := Char('1', End), Update(TWICE, "k", Char('1', End));
    TwiceIsOk();
    TwiceText('5');
    TwiceText('1');
    OnePrints();
    EditIsUpdate(TWICE, "k", value);
    UpdateOk(TWICE, "k", value);
    DocUnique(e, u);
    TwiceValues(value);
    UpdateKeepsAround(TWICE, "k", value);
  }

  lemma OnePrints()
    ensures Print(Char('1', End)) == "1"
  {
    assert ['1'] + [] == ['1'];
  }

  lemma UpdateKeepsAround(d: Doc, key: string, value: Text)
    ensures Update(d, key, value).head == d.head && Update(d, key, value).tail == d.tail
    ensures Has(d.members, key) ==> Update(d, key, value).blank == d.blank
  {}
}
