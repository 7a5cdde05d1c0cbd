/** What becomes of the settings file as an object when the driver's section is written. */
module DriverUpdate {
  import opened Wrappers
  import opened JsonScanner
  import opened JsonText
  import opened JsonStrings
  import opened DriverSettings
  import opened SettingsFile
  import opened ObjectUpdate
  import opened Readers
  import opened EditCondition
  import opened ObjectParsing
  import opened SettingsWrite
  import opened DriverContents

  // ---------- An object as a value ----------

  function Then(t: Text, u: Text): Text {
    match t
    case End => u
    case Char(c, rest) => Char(c, Then(rest, u))
    case Str(raw, rest) => Str(raw, Then(rest, u))
    case Group(brace, inner, rest) => Group(brace, inner, Then(rest, u))
  }

  lemma {:induction false} ThenPrints(t: Text, u: Text)
    ensures Print(Then(t, u)) == Print(t) + Print(u)
    ensures WellFormed(t) && WellFormed(u) ==> WellFormed(Then(t, u))
    decreases t
  {
    hide Raw, Quoted, Loose;
    match t {
      case End =>
      case Char(_, rest) => ThenPrints(rest, u);
      case Str(raw, rest) =>
        ThenPrints(rest, u);
        assert Quoted(raw) + (Print(rest) + Print(u)) == (Quoted(raw) + Print(rest)) + Print(u);
      case Group(_, _, rest) =>
        ThenPrints(rest, u);
        GroupText(t, Print(u));
        GroupText(Then(t, u), []);
        assert Print(Then(t, u)) + [] == Print(Then(t, u));
    }
  }

  lemma {:induction false} LooseCharsPrint(s: string)
    requires forall i | 0 <= i < |s| :: Loose(s[i])
    ensures Print(Chars(s)) == s && WellFormed(Chars(s))
  {
    if s != [] { LooseCharsPrint(s[1..]); }
  }

  lemma BlankIsLoose(s: string)
    requires AllBlank(s)
    ensures Print(Chars(s)) == s && WellFormed(Chars(s))
  {
    LooseCharsPrint(s);
  }

  function MemberText(m: Member): Text {
    Then(Chars(m.lead), Str(m.key, Then(Chars(m.mid), Char(':', Then(Chars(m.pad), Then(m.value, Chars(m.trail)))))))
  }

  lemma MemberTextPrints(m: Member)
    requires MemberOk(m)
    ensures Print(MemberText(m)) == PrintMember(m) && WellFormed(MemberText(m))
  {
    hide Raw, Lone, Compact, AllBlank, Quoted;
    BlankIsLoose(m.lead);
    BlankIsLoose(m.mid);
    BlankIsLoose(m.pad);
    BlankIsLoose(m.trail);
    var behind := Then(m.value, Chars(m.trail));
    ThenPrints(m.value, Chars(m.trail));
    ThenPrints(Chars(m.pad), behind);
    var colon := Char(':', Then(Chars(m.pad), behind));
    ThenPrints(Chars(m.mid), colon);
    ThenPrints(Chars(m.lead), Str(m.key, Then(Chars(m.mid), colon)));
    MemberNested(m, []);
    assert PrintMember(m) + [] == PrintMember(m) && m.trail + [] == m.trail;
  }

  function MembersText(ms: seq<Member>): Text {
    if ms == [] then End
    else if |ms| == 1 then MemberText(ms[0])
    else Then(MemberText(ms[0]), Char(',', MembersText(ms[1..])))
  }

  lemma {:induction false} MembersTextPrints(ms: seq<Member>)
    requires MembersOk(ms)
    ensures Print(MembersText(ms)) == PrintMembers(ms) && WellFormed(MembersText(ms))
  {
    hide MemberOk, MemberText, PrintMember;
    if ms != [] {
      MemberTextPrints(ms[0]);
      MembersTextPrints(ms[1..]);
      if |ms| == 1 {
        assert ms[1..] == [] && PrintMember(ms[0]) + ("" + []) == PrintMember(ms[0]);
      } else {
        ThenPrints(MemberText(ms[0]), Char(',', MembersText(ms[1..])));
        assert Print(Char(',', MembersText(ms[1..]))) == "," + PrintMembers(ms[1..]);
      }
    }
  }

  /** The object as a value. */
  function ObjectText(d: Doc): Text {
    Group(true, if d.members == [] then Chars(d.blank) else MembersText(d.members), End)
  }

  lemma ObjectIsValue(d: Doc)
    requires DocOk(d)
    ensures Value(ObjectText(d)) && Print(ObjectText(d)) == "{" + (Body(d) + "}")
  {
    hide MembersText, PrintMembers, MemberOk, AllBlank;
    if d.members == [] { BlankIsLoose(d.blank); } else { MembersTextPrints(d.members); }
    var t := ObjectText(d);
    GroupText(t, []);
    assert Print(Text.End) == [] && WellFormed(Text.End) && Lone(Text.End);
    assert Print(t) + [] == Print(t);
    var text := Print(t);
    assert text[0] == '{' && text[|text| - 1] == '}';
  }

  // ---------- The member ----------

  function Renewed(m: Member, value: Text): Member { m.(mid := " ", pad := " ", value := value) }

  /** The first member with the key, written anew. */
  function Anew(ms: seq<Member>, key: string, value: Text): seq<Member> {
    if ms == [] then []
    else if ms[0].key == key then [Renewed(ms[0], value)] + ms[1..]
    else [ms[0]] + Anew(ms[1..], key, value)
  }

  /** The object with the member written anew, or added at its end. */
  function Put(d: Doc, key: string, value: Text): Doc {
    if Has(d.members, key) then d.(members := Anew(d.members, key, value)) else Added(d, key, value)
  }

  function Added(d: Doc, key: string, value: Text): Doc {
    var lead := (if d.members == [] then d.blank else "") + "\n  ";
    d.(members := d.members + [Member(lead, key, " ", " ", value, "\n")])
  }

  lemma {:induction false} AnewOk(ms: seq<Member>, key: string, value: Text)
    requires MembersOk(ms) && Value(value)
    ensures MembersOk(Anew(ms, key, value))
  {
    hide Value, Raw;
    if ms != [] && ms[0].key != key { AnewOk(ms[1..], key, value); }
  }

  lemma PutOk(d: Doc, key: string, value: Text)
    requires DocOk(d) && NoEscapes(key) && Value(value)
    ensures DocOk(Put(d, key, value))
  {
    hide Value, NoEscapes, Raw;
    if Has(d.members, key) {
      AnewOk(d.members, key, value);
    } else {
      NoEscapesRaw(key);
      assert MemberOk(Put(d, key, value).members[|d.members|]);
    }
  }

  // ---------- The member is added ----------

  /** A section's text: its key and its value. */
  function SectionOf(key: string, value: Text): string { Quoted(key) + (" : " + Print(value)) }

  lemma AddedMemberIs(lead: string, key: string, value: Text)
    ensures PrintMember(Member(lead, key, " ", " ", value, "\n")) == lead + (SectionOf(key, value) + "\n")
  {
    hide Print;
  }

  lemma AddedToBody(d: Doc, key: string, value: Text)
    requires DocOk(d)
    ensures
      var separator := if AllBlank(Body(d)) then "\n  " else ",\n  ";
      Body(Added(d, key, value)) == Body(d) + (separator + SectionOf(key, value) + "\n")
  {
    hide Print, MembersOk, Has, AllBlank, PrintMembers, PrintMember, SectionOf;
    var lead := (if d.members == [] then d.blank else "") + "\n  ";
    var m := Member(lead, key, " ", " ", value, "\n");
    AddedMemberIs(lead, key, value);
    if d.members == [] {
      assert [] + [m] == [m];
      PrintedOne(m);
    } else {
      PrintedMore(d.members, m);
      NotAllBlank(d.members);
    }
  }

  lemma InsertedText(head: string, body: string, tail: string, more: string)
    ensures
      var text, closing := head + ("{" + (body + ("}" + tail))), |head| + 1 + |body|;
      && text[|head| + 1..closing] == body
      && text[..closing] + more + text[closing..] == head + ("{" + ((body + more) + ("}" + tail)))
  {
    var text, closing := head + ("{" + (body + ("}" + tail))), |head| + 1 + |body|;
    assert text[..closing] == head + ("{" + body) && text[closing..] == "}" + tail;
  }

  /** Where no section is found, the file gets a new last member. */
  lemma InsertIsAdded(d: Doc, value: Text)
    requires DocOk(d) && Find(OUTSIDE, PrintDoc(d), KEY).None?
    ensures WriteSection(PrintDoc(d), SectionOf(KEY, value)) == Some(PrintDoc(Added(d, KEY, value)))
  {
    hide Find, SectionOf, Body, MembersOk, AllBlank, FirstBrace, RootClose;
    BracesOf(d);
    AddedToBody(d, KEY, value);
    var separator := if AllBlank(Body(d)) then "\n  " else ",\n  ";
    InsertedText(d.head, Body(d), d.tail, separator + SectionOf(KEY, value) + "\n");
  }

  // ---------- The member is there ----------

  /** The text in front of the i-th member. */
  function Before(ms: seq<Member>, i: nat): string
    requires i <= |ms|
  {
    if i == 0 then [] else PrintMember(ms[0]) + ("," + Before(ms[1..], i - 1))
  }

  lemma {:induction false} AroundIndex(ms: seq<Member>, i: nat, x: Member) returns (behind: string)
    requires i < |ms|
    ensures PrintMembers(ms) == Before(ms, i) + (PrintMember(ms[i]) + behind)
    ensures PrintMembers(ms[i := x]) == Before(ms, i) + (PrintMember(x) + behind)
    decreases i
  {
    hide PrintMember;
    if i == 0 {
      behind := Comma(ms) + PrintMembers(ms[1..]);
      assert ms[0 := x][1..] == ms[1..];
      EmptyFront(PrintMember(ms[0]) + behind, PrintMember(x) + behind);
    } else {
      behind := AroundIndex(ms[1..], i - 1, x);
      assert ms[i := x][1..] == ms[1..][i - 1 := x];
      Regroup(PrintMember(ms[0]), Before(ms[1..], i - 1), PrintMember(ms[i]) + behind);
      Regroup(PrintMember(ms[0]), Before(ms[1..], i - 1), PrintMember(x) + behind);
    }
  }

  lemma IndexIs(ms: seq<Member>, key: string, value: Text)
    requires Has(ms, key)
    ensures
      var i := IndexOf(ms, key);
      && Found(ms, key) == ms[i] && Anew(ms, key, value) == ms[i := Renewed(ms[i], value)]
      && Front(ms, key) == Before(ms, i) + HeadOf(ms[i])
  {
    hide *;
    AnewAt(ms, key, value);
    FrontAt(ms, key);
  }

  lemma {:induction false} AnewAt(ms: seq<Member>, key: string, value: Text)
    requires Has(ms, key)
    ensures var i := IndexOf(ms, key); Anew(ms, key, value) == ms[i := Renewed(ms[i], value)]
  {
    hide Renewed;
    if ms[0].key != key { AnewAt(ms[1..], key, value); }
  }

  lemma {:induction false} FrontAt(ms: seq<Member>, key: string)
    requires Has(ms, key)
    ensures var i := IndexOf(ms, key); Found(ms, key) == ms[i] && Front(ms, key) == Before(ms, i) + HeadOf(ms[i])
  {
    hide PrintMember, HeadOf;
    if ms[0].key == key {
      EmptyFront(HeadOf(ms[0]), []);
    } else {
      FrontAt(ms[1..], key);
      Regroup(PrintMember(ms[0]), Before(ms[1..], IndexOf(ms[1..], key)), HeadOf(Found(ms, key)));
    }
  }

  lemma EmptyFront(a: string, b: string)
    ensures [] + a == a && [] + b == b
  {}

  lemma Regroup(a: string, b: string, c: string)
    ensures (a + ("," + b)) + c == a + ("," + (b + c))
  {}

  lemma {:induction false} AnewLength(ms: seq<Member>, key: string, value: Text)
    requires Has(ms, key)
    ensures |Anew(ms, key, value)| == |ms| && (ms[0].key != key ==> |ms| > 1 && Has(ms[1..], key))
  {
    if ms[0].key != key { AnewLength(ms[1..], key, value); }
  }

  /** The value is an object, in braces. */
  predicate InBraces(t: Text) { t.Group? && t.brace && t.rest == End }

  /** A text with a section in it, cut at the section. */
  lemma CutAtSection(text: string, a: string, hd: string, inner: string, z: string, key: string)
    requires text == a + (hd + ("{" + (inner + ("}" + z)))) && Level(inner)
    requires exists x, y :: Heads(hd, key, x, y)
    ensures |a| < |text| && SectionAt(text[|a|..], key) == Some(|hd| + 1 + |inner|)
    ensures text[..|a|] == a && text[|a| + |hd| + 1 + |inner| + 1..] == z
  {
    hide FirstClose, Level, Heads, BraceOf;
    var rest := inner + ("}" + z);
    assert text[|a|..] == hd + ("{" + rest);
    HeadFinds(hd, key, rest);
    BodyCloses(inner, z);
    assert (hd + ("{" + rest))[|hd|..] == "{" + rest;
  }

  /** A section found where that one stands is exchanged for another. */
  lemma ExchangedAt(text: string, a: string, hd: string, inner: string, z: string, key: string, section: string)
    requires text == a + (hd + ("{" + (inner + ("}" + z)))) && Level(inner)
    requires exists x, y :: Heads(hd, key, x, y)
    requires Find(OUTSIDE, text, key).Some? && Find(OUTSIDE, text, key).value.begin == |a|
    ensures Replaced(text, section, Find(OUTSIDE, text, key).value) == a + section + z
  {
    hide Find, SectionAt, Level, Heads, SectionStands;
    CutAtSection(text, a, hd, inner, z, key);
    FindIs(OUTSIDE, text, key, |a|, Find(OUTSIDE, text, key).value.end);
  }

  /** The object with its i-th member written anew. */
  function PutAt(d: Doc, i: nat, value: Text): Doc
    requires i < |d.members|
  {
    d.(members := d.members[i := Renewed(d.members[i], value)])
  }

  /** Where the i-th member's key stands in the file. */
  function KeyPlace(d: Doc, i: nat): nat
    requires i < |d.members|
  {
    |d.head| + 1 + |Before(d.members, i)| + |d.members[i].lead|
  }

  function ColonOf(m: Member): string { Quoted(m.key) + (m.mid + (":" + m.pad)) }

  /** The object's text, cut at its i-th member, and the same with the member written anew. */
  lemma CutAtIndex(d: Doc, i: nat, value: Text) returns (a: string, z: string)
    requires i < |d.members|
    ensures
      var m := d.members[i];
      && |a| == KeyPlace(d, i) && PrintDoc(d) == a + (ColonOf(m) + (Print(m.value) + z))
      && PrintDoc(PutAt(d, i, value)) == a + SectionOf(m.key, value) + z
  {
    hide Print, PrintMembers, PrintMember, ColonOf, SectionOf;
    var m := d.members[i];
    var now := Renewed(m, value);
    var first := Before(d.members, i);
    var behind := AroundIndex(d.members, i, now);
    a := d.head + ("{" + (first + m.lead));
    z := m.trail + (behind + ("}" + d.tail));
    AtMember(d.head, first, m, behind, d.tail);
    AtMember(d.head, first, now, behind, d.tail);
    RenewedIs(m, value);
    Grouped(a, ColonOf(now), Print(value), z);
  }

  lemma RenewedIs(m: Member, value: Text)
    ensures ColonOf(Renewed(m, value)) + Print(value) == SectionOf(m.key, value)
  {
    hide Quoted, Print;
  }

  lemma Grouped(a: string, b: string, c: string, z: string)
    ensures a + (b + (c + z)) == a + (b + c) + z
  {}

  /** An object's text around one of its members. */
  lemma AtMember(head: string, first: string, m: Member, behind: string, tail: string)
    ensures head + ("{" + ((first + (PrintMember(m) + behind)) + ("}" + tail))) ==
            (head + ("{" + (first + m.lead))) + (ColonOf(m) + (Print(m.value) + (m.trail + (behind + ("}" + tail)))))
  {
    hide Quoted, Print, PrintMember;
    var rest := behind + ("}" + tail);
    Around(head, first, PrintMember(m), behind, tail);
    MemberNested(m, rest);
    MemberSplit(m, Print(m.value), m.trail + rest);
    Inwards(head, first, m.lead, ColonOf(m) + (Print(m.value) + (m.trail + rest)));
  }

  lemma PutIsAt(d: Doc, key: string, value: Text)
    requires Has(d.members, key)
    ensures
      var i := IndexOf(d.members, key);
      Put(d, key, value) == PutAt(d, i, value) && Found(d.members, key) == d.members[i]
      && KeyPlace(d, i) == |d.head| + KeyAt(d, key)
  {
    hide Front, Found, Anew, Before, Quoted;
    IndexIs(d.members, key, value);
    HeadLength(Found(d.members, key));
  }

  lemma BracesPrint(t: Text)
    requires InBraces(t)
    ensures forall z :: Print(t) + z == "{" + (Print(t.inner) + ("}" + z))
  {
    forall z: string ensures Print(t) + z == "{" + (Print(t.inner) + ("}" + z)) {
      GroupText(t, z);
      assert Print(Text.End) == [] && [] + z == z;
    }
  }

  lemma Around(head: string, first: string, member: string, behind: string, tail: string)
    ensures head + ("{" + ((first + (member + behind)) + ("}" + tail))) ==
            (head + ("{" + first)) + (member + (behind + ("}" + tail)))
  {}

  lemma MemberSplit(m: Member, value: string, z: string)
    ensures m.lead + (Quoted(m.key) + (m.mid + (":" + (m.pad + (value + z))))) ==
            m.lead + ((Quoted(m.key) + (m.mid + (":" + m.pad))) + (value + z))
  {
    hide Quoted;
  }

  lemma Inwards(head: string, first: string, lead: string, z: string)
    ensures (head + ("{" + first)) + (lead + z) == (head + ("{" + (first + lead))) + z
  {}

  lemma HeadLength(m: Member)
    ensures |HeadOf(m)| == |m.lead| + |Quoted(m.key)| + |m.mid| + 1 + |m.pad|
  {
    hide Quoted;
  }

  /** Where the section found is the i-th member, that member is written anew. */
  lemma ReplaceIsPutAt(d: Doc, i: nat, value: Text)
    requires DocOk(d) && i < |d.members| && d.members[i].key == KEY && InBraces(d.members[i].value)
    requires Find(OUTSIDE, PrintDoc(d), KEY).Some? && Find(OUTSIDE, PrintDoc(d), KEY).value.begin == KeyPlace(d, i)
    ensures WriteSection(PrintDoc(d), SectionOf(KEY, value)) == Some(PrintDoc(PutAt(d, i, value)))
  {
    hide Find, SectionOf, PrintDoc, MemberOk, KeyPlace, Replaced, Level, RootClose, PutAt;
    var m := d.members[i];
    var a, z := CutAtIndex(d, i, value);
    BracesPrint(m.value);
    InnerLevel(m);
    assert Heads(ColonOf(m), KEY, m.mid, m.pad);
    ExchangedAt(PrintDoc(d), a, ColonOf(m), Print(m.value.inner), z, KEY, SectionOf(KEY, value));
  }

  lemma InnerLevel(m: Member)
    requires MemberOk(m) && InBraces(m.value)
    ensures Level(Print(m.value.inner)) && AllBlank(m.mid) && AllBlank(m.pad)
  {
    hide FirstClose, ScanText, AllBlank, Print;
    ValueScans(INSIDE, m.value.inner);
  }

  // ---------- The driver's section ----------

  ghost predicate NoneStandsBefore(text: string, key: string, k: nat) {
    forall j: nat | j < k :: !SectionStands(OUTSIDE, text, key, j)
  }

  /**
   * The first place in the file where a section with the key stands, at depth one and outside quotes,
   * is the first member with the key, and its value is one object; or there is no such place where no
   * member has the key.
   */
  ghost predicate MeetsSection(d: Doc, key: string) {
    var text := PrintDoc(d);
    if Has(d.members, key) then
      var i := IndexOf(d.members, key);
      && InBraces(d.members[i].value) && SectionStands(OUTSIDE, text, key, KeyPlace(d, i))
      && NoneStandsBefore(text, key, KeyPlace(d, i))
    else NoneStandsBefore(text, key, |text|)
  }

  lemma FoundFirst(text: string, key: string, k: nat)
    ensures Find(OUTSIDE, text, key).Some? && Find(OUTSIDE, text, key).value.begin == k <==>
            SectionStands(OUTSIDE, text, key, k) && NoneStandsBefore(text, key, k)
  {
    hide Find, SectionStands, SectionAt;
    var found := Find(OUTSIDE, text, key);
    if found.Some? && found.value.begin == k { FindIs(OUTSIDE, text, key, k, found.value.end); }
    if SectionStands(OUTSIDE, text, key, k) && NoneStandsBefore(text, key, k) {
      StandsClosed(OUTSIDE, text, key, k);
      StandsWithin(text, key, k);
      FindIs(OUTSIDE, text, key, k, k + SectionAt(text[k..], key).value);
    }
  }

  lemma StandsWithin(text: string, key: string, k: nat)
    requires SectionStands(OUTSIDE, text, key, k)
    ensures k < |text|
  {}

  lemma {:induction false} FirstStands(text: string, key: string, n: nat) returns (k: nat)
    requires !NoneStandsBefore(text, key, n)
    ensures k < n && SectionStands(OUTSIDE, text, key, k) && NoneStandsBefore(text, key, k)
    decreases n
  {
    hide SectionStands;
    k := n - 1;
    if !NoneStandsBefore(text, key, k) { k := FirstStands(text, key, k); }
  }

  lemma FoundNowhere(text: string, key: string)
    ensures Find(OUTSIDE, text, key).None? <==> NoneStandsBefore(text, key, |text|)
  {
    hide Find, SectionStands;
    if Find(OUTSIDE, text, key).Some? {
      FoundFirst(text, key, Find(OUTSIDE, text, key).value.begin);
      assert Find(OUTSIDE, text, key).value.begin < |text|;
    }
    if !NoneStandsBefore(text, key, |text|) {
      var k := FirstStands(text, key, |text|);
      FoundFirst(text, key, k);
    }
  }

  function DriverValue(settings: Settings, enabled: bool): Text { ObjectText(DriverDoc(settings, enabled)) }

  lemma DriverValueIs(settings: Settings, enabled: bool)
    ensures Value(DriverValue(settings, enabled))
    ensures SectionOf(KEY, DriverValue(settings, enabled)) == DriverSection(settings, enabled)
  {
    hide DocOk, Body, ObjectText, MembersOf, Fields, ValuesOf, PrintFields;
    var d := DriverDoc(settings, enabled);
    SectionPrints(settings, enabled);
    ObjectIsValue(d);
    assert "\"driver_svrt\" : " == Quoted(KEY) + " : ";
  }

  /** Every reader of the value finds what the driver is to be told. */
  lemma DriverValueSays(settings: Settings, enabled: bool, e: Doc)
    requires DocOk(e) && PrintDoc(e) == Print(DriverValue(settings, enabled))
    ensures Says(e.members, settings, enabled)
  {
    hide Says, DriverSection, MembersOk, Body, DriverValue, AllBlank, FirstBrace, RootClose;
    DriverValueIs(settings, enabled);
    var d := SectionSays(settings, enabled);
    BracesOf(e);
    StartsWithBrace(settings, enabled);
    assert e.head == [] by { FirstBraceOf(PrintDoc(e)); }
    var f := e.(head := "\"driver_svrt\" : ");
    NewHead(e, "\"driver_svrt\" : ");
    assert "\"driver_svrt\" : " == Quoted(KEY) + " : ";
  }

  lemma NewHead(e: Doc, head: string)
    requires e.head == []
    ensures PrintDoc(e.(head := head)) == head + PrintDoc(e)
  {
    hide Body;
    SameBody(e, head);
  }

  lemma StartsWithBrace(settings: Settings, enabled: bool)
    ensures Print(DriverValue(settings, enabled)) != [] && Print(DriverValue(settings, enabled))[0] == '{'
  {
    hide MembersOf, Fields, ValuesOf, DocOk, Body;
    SectionPrints(settings, enabled);
    ObjectIsValue(DriverDoc(settings, enabled));
  }

  lemma FirstBraceOf(text: string)
    requires text != [] && text[0] == '{'
    ensures FirstBrace(text) == 0
  {}

  /**
   * Writing the driver's section is an update of the settings file: the text written is the text of
   * the object with the member driver_svrt written anew, or added at the end where there is none,
   * and with every other character kept.
   */
  lemma DriverWriteIsUpdate(d: Doc, settings: Settings, enabled: bool)
    requires DocOk(d) && MeetsSection(d, KEY)
    ensures
      var e := Put(d, KEY, DriverValue(settings, enabled));
      DocOk(e) && WriteSection(PrintDoc(d), DriverSection(settings, enabled)) == Some(PrintDoc(e))
  {
    hide *;
    DriverValueIs(settings, enabled);
    WrittenIsPut(d, DriverValue(settings, enabled));
    KeyIsPlain();
    PutOk(d, KEY, DriverValue(settings, enabled));
  }

  /** The update, as readers see it. */
  lemma PutIsWrittenOnce(d: Doc, key: string, value: Text)
    requires PlainKey(key)
    ensures OneWritten(d.members, Put(d, key, value).members, key, value)
  {
    hide OneWritten, PlainKey, Has;
    if Has(d.members, key) {
      IndexIs(d.members, key, value);
      PutIsWritten(d.members, Renewed(d.members[IndexOf(d.members, key)], value));
    } else {
      AddedIsWritten(d.members, Put(d, key, value).members[|d.members|]);
    }
  }

  /**
   * So every reader of what is written finds under other keys what it found before. All of them find
   * under driver_svrt an object that says what the driver is to be told, if and only if at most one
   * member was read as having that key, and that one spells it plainly.
   */
  lemma DriverWriteReads(d: Doc, settings: Settings, enabled: bool, e: Doc) returns (v: Doc)
    requires DocOk(d) && MeetsSection(d, KEY)
    requires DocOk(e) && Some(PrintDoc(e)) == WriteSection(PrintDoc(d), DriverSection(settings, enabled))
    ensures forall other | other != "driver_svrt" :: Values(e.members, other) == Values(d.members, other)
    ensures DocOk(v) && Says(v.members, settings, enabled)
    ensures Under(e.members, "driver_svrt") == Some(PrintDoc(v)) <==> Sole(d.members, "driver_svrt")
  {
    hide *;
    var value := DriverValue(settings, enabled);
    DriverWriteIsUpdate(d, settings, enabled);
    KeyIsPlain();
    DocUnique(e, Put(d, KEY, value));
    PutIsWrittenOnce(d, KEY, value);
    WrittenReaches(d.members, e.members, KEY, value);
    OthersRead(d.members, e.members, KEY, value);
    v := ValueDoc(settings, enabled);
    DriverValueSays(settings, enabled, v);
    UnderIs(d.members, e.members, KEY, value);
  }

  lemma OthersRead(ms: seq<Member>, ns: seq<Member>, key: string, value: Text)
    requires OneWritten(ms, ns, key, value)
    ensures forall other | other != key :: Values(ns, other) == Values(ms, other)
  {}

  lemma UnderIs(ms: seq<Member>, ns: seq<Member>, key: string, value: Text)
    requires OneWritten(ms, ns, key, value)
    ensures Under(ns, key) == Some(Print(value)) <==> Values(ns, key) == [value]
  {
    hide Values, Rank;
  }

  lemma WrittenIsPut(d: Doc, value: Text)
    requires DocOk(d) && MeetsSection(d, KEY)
    ensures WriteSection(PrintDoc(d), SectionOf(KEY, value)) == Some(PrintDoc(Put(d, KEY, value)))
  {
    hide DocOk, PrintDoc, Find, Has, Found, KeyAt, KeyPlace, Put, PutAt, SectionOf, WriteSection, SectionStands;
    if Has(d.members, KEY) {
      var i := IndexOf(d.members, KEY);
      PutIsAt(d, KEY, value);
      FoundFirst(PrintDoc(d), KEY, KeyPlace(d, i));
      ReplaceIsPutAt(d, i, value);
    } else {
      FoundNowhere(PrintDoc(d), KEY);
      InsertIsAdded(d, value);
      PutIsAdded(d, KEY, value);
    }
  }

  lemma PutIsAdded(d: Doc, key: string, value: Text)
    requires !Has(d.members, key)
    ensures Put(d, key, value) == Added(d, key, value)
  {}

  lemma KeyIsPlain()
    ensures NoEscapes(KEY) && PlainKey(KEY) && KEY == "driver_svrt"
  {}

  lemma ValueDoc(settings: Settings, enabled: bool) returns (v: Doc)
    ensures DocOk(v) && PrintDoc(v) == Print(DriverValue(settings, enabled))
  {
    hide MembersOf, Fields, ValuesOf, MembersOk, Body, ObjectText;
    SectionPrints(settings, enabled);
    var d := DriverDoc(settings, enabled);
    ObjectIsValue(d);
    v := d.(head := "");
    SameBody(d, "");
  }

  lemma SameBody(d: Doc, head: string)
    ensures Body(d.(head := head)) == Body(d)
  {}
}
