/** write_steamvr_settings as a whole: the driver's section, and the edits of the steamvr and power sections. */
module SettingsWrite {
  import opened Wrappers
  import opened JsonScanner
  import opened JsonText
  import opened JsonStrings
  import opened DriverSettings
  import opened SettingsFile
  import opened MemberEdit
  import opened ObjectUpdate
  import opened Readers
  import opened EditCondition
  import opened ObjectParsing
  import opened RepeatedEdit
  import opened Sections
  import opened Repairs
  import opened RepairOnce

  // ---------- What is written ----------

  const STEAMVR: string := "steamvr"
  const POWER: string := "power"

  datatype Edit = Edit(key: string, value: string)

  const STEAMVR_EDITS: seq<Edit> :=
    [Edit("supersampleManualOverride", "true"), Edit("supersampleScale", "1.0"), Edit("renderTargetMultiplier", "1.0")]

  const POWER_EDITS: seq<Edit> := [Edit("turnOffScreensTimeout", "0.0")]

  /** The calls of set_value, one after the other. */
  function EditAll(section: string, edits: seq<Edit>): string
    decreases |edits|
  {
    if edits == [] then section else EditAll(Edited(section, edits[0].key, edits[0].value), edits[1..])
  }

  function SteamvrStep(json: string): string {
    match SectionText(json, STEAMVR)
    case None => json
    case Some(section) => PutSection(json, STEAMVR, EditAll(Repair(section), STEAMVR_EDITS))
  }

  function PowerStep(json: string): string {
    match SectionText(json, POWER)
    case None => json
    case Some(section) => PutSection(json, POWER, EditAll(section, POWER_EDITS))
  }

  /** The text that is written to the file, or nothing if no object is found in it. */
  function Written(json: string, settings: Settings, enabled: bool): Option<string> {
    match WriteSection(json, DriverSection(settings, enabled))
    case None => None
    case Some(text) => Some(PowerStep(SteamvrStep(text)))
  }

  method ApplyEdits(section: string, edits: seq<Edit>) returns (edited: string)
    ensures edited == EditAll(section, edits)
  {
    hide Edited;
    edited := section;
    for i := 0 to |edits|
      invariant EditAll(section, edits) == EditAll(edited, edits[i..])
    {
      hide Edited;
      assert edits[i..][1..] == edits[i + 1..];
      edited := SetValue(edited, edits[i].key, edits[i].value);
    }
  }

  /** write_steamvr_settings, from the text it reads to the text it writes. */
  method WriteSettings(json: string, settings: Settings, enabled: bool) returns (text: Option<string>)
    ensures text == Written(json, settings, enabled)
  {
    hide Find, EditAll, DriverSection, WriteSection, Repair;
    text := WriteDriver(json, settings, enabled);
    if text.None? { return; }
    var written := text.value;
    var span := FindObject(written, STEAMVR);
    if span.Some? {
      var section := ApplyEdits(Repair(written[span.value.begin..span.value.end + 1]), STEAMVR_EDITS);
      written := written[..span.value.begin] + section + written[span.value.end + 1..];
    }
    span := FindObject(written, POWER);
    if span.Some? {
      var section := ApplyEdits(written[span.value.begin..span.value.end + 1], POWER_EDITS);
      written := written[..span.value.begin] + section + written[span.value.end + 1..];
    }
    text := Some(written);
  }

  // ---------- Values that are plain words ----------

  function Chars(s: string): Text { if s == [] then End else Char(s[0], Chars(s[1..])) }

  /** A word of a JSON document: no space, no comma, no quote, no bracket. */
  predicate PlainWord(s: string) {
    Word(s) && forall i | 0 <= i < |s| :: Loose(s[i]) && s[i] != ',' && !IsSpace(s[i])
  }

  lemma {:induction false} CharsPrint(s: string)
    requires forall i | 0 <= i < |s| :: Loose(s[i]) && s[i] != ','
    ensures Print(Chars(s)) == s && WellFormed(Chars(s)) && Lone(Chars(s))
    ensures forall key :: !HasStray(Chars(s), key)
  {
    if s != [] { CharsPrint(s[1..]); }
  }

  lemma WordIsValue(s: string)
    requires PlainWord(s)
    ensures Value(Chars(s)) && Print(Chars(s)) == s && forall key :: !HasStray(Chars(s), key)
  {
    CharsPrint(s);
  }

  predicate EditOk(e: Edit) { PlainKey(e.key) && PlainWord(e.value) && forall i | 0 <= i < |e.key| :: e.key[i] != ',' }

  ghost predicate EditsOk(edits: seq<Edit>) {
    && (forall i | 0 <= i < |edits| :: EditOk(edits[i]))
    && (forall i, j | 0 <= i < j < |edits| :: edits[i].key != edits[j].key)
  }

  lemma SettingsEditsOk()
    ensures EditsOk(STEAMVR_EDITS) && EditsOk(POWER_EDITS)
  {
    hide EditOk;
    KeysAreNames();
    ValuesAreWords();
    forall i | 0 <= i < 3 ensures EditOk(STEAMVR_EDITS[i]) { NamedIsOk(STEAMVR_EDITS[i]); }
    NamedIsOk(POWER_EDITS[0]);
    assert STEAMVR_EDITS[1].key[0] == 's' && STEAMVR_EDITS[2].key[0] == 'r';
  }

  predicate Name(s: string) { forall i | 0 <= i < |s| :: 'A' <= s[i] <= 'Z' || 'a' <= s[i] <= 'z' }

  lemma NamedIsOk(e: Edit)
    requires Name(e.key) && PlainWord(e.value)
    ensures EditOk(e)
  {}

  lemma KeysAreNames()
    ensures Name(STEAMVR_EDITS[0].key) && |STEAMVR_EDITS[0].key| == 25 && STEAMVR_EDITS[0].key[0] == 's'
    ensures Name(STEAMVR_EDITS[1].key) && |STEAMVR_EDITS[1].key| == 16
    ensures Name(STEAMVR_EDITS[2].key) && Name(POWER_EDITS[0].key)
  {
    hide Name;
    OverrideIsName();
    ScaleIsName();
    MultiplierIsName();
    TimeoutIsName();
  }

  lemma OverrideIsName()
    ensures Name("supersampleManualOverride")
  {}

  lemma ScaleIsName()
    ensures Name("supersampleScale")
  {}

  lemma MultiplierIsName()
    ensures Name("renderTargetMultiplier")
  {}

  lemma TimeoutIsName()
    ensures Name("turnOffScreensTimeout")
  {}

  lemma ValuesAreWords()
    ensures PlainWord("true") && PlainWord("1.0") && PlainWord("0.0")
  {}

  // ---------- The edits of one section are updates of its object ----------

  function UpdateAll(d: Doc, edits: seq<Edit>): Doc
    decreases |edits|
  {
    if edits == [] then d else UpdateAll(Update(d, edits[0].key, Chars(edits[0].value)), edits[1..])
  }

  /** No string value at depth one reads like one of the keys before its member. */
  ghost predicate NoStrays(d: Doc, edits: seq<Edit>) {
    forall i | 0 <= i < |edits| :: NoStrayBefore(d.members, edits[i].key)
  }

  lemma {:induction false} StraysReplaced(ms: seq<Member>, key: string, value: Text, other: string)
    requires NoStrayBefore(ms, other) && !HasStray(value, other)
    ensures NoStrayBefore(Replace(ms, key, value), other)
  {
    hide HasStray;
    if ms != [] {
      var after := Replace(ms, key, value);
      if ms[0].key == key {
        assert after[1..] == ms[1..] && after[0] == ms[0].(value := value);
      } else {
        assert after[1..] == Replace(ms[1..], key, value) && after[0] == ms[0];
        if ms[0].key != other { StraysReplaced(ms[1..], key, value, other); }
      }
    }
  }

  lemma {:induction false} StraysAdded(ms: seq<Member>, m: Member, other: string)
    requires NoStrayBefore(ms, other) && !HasStray(m.value, other)
    ensures NoStrayBefore(ms + [m], other)
    decreases |ms|
  {
    hide HasStray;
    var after := ms + [m];
    if ms == [] {
      assert after[0] == m && after[1..] == [];
    } else {
      assert after[1..] == ms[1..] + [m] && after[0] == ms[0];
      if ms[0].key != other { StraysAdded(ms[1..], m, other); }
    }
  }

  lemma StraysKept(d: Doc, key: string, value: Text, other: string)
    requires NoStrayBefore(d.members, other) && !HasStray(value, other)
    ensures NoStrayBefore(Update(d, key, value).members, other)
  {
    hide HasStray;
    if Has(d.members, key) {
      StraysReplaced(d.members, key, value, other);
    } else {
      StraysAdded(d.members, Update(d, key, value).members[|d.members|], other);
    }
  }

  lemma UpdateShape(d: Doc, key: string, value: Text)
    ensures Update(d, key, value).head == d.head && Update(d, key, value).tail == d.tail
  {}

  lemma OneEdit(d: Doc, e: Edit, all: seq<Edit>)
    requires DocOk(d) && EditOk(e) && NoStrayBefore(d.members, e.key) && NoStrays(d, all)
    ensures
      var u := Update(d, e.key, Chars(e.value));
      Edited(PrintDoc(d), e.key, e.value) == PrintDoc(u) && DocOk(u) && NoStrays(u, all)
  {
    hide DocOk, PrintDoc, Edited, NoStrayBefore, Value, Update, PlainWord, PlainKey, HasStray, Print;
    PlainKeyFits(e.key);
    WordIsValue(e.value);
    EditIsUpdate(d, e.key, Chars(e.value));
    UpdateOk(d, e.key, Chars(e.value));
    forall i | 0 <= i < |all| ensures NoStrayBefore(Update(d, e.key, Chars(e.value)).members, all[i].key) {
      StraysKept(d, e.key, Chars(e.value), all[i].key);
    }
  }

  lemma {:induction false} EditAllIsUpdateAll(d: Doc, edits: seq<Edit>, all: seq<Edit>)
    requires DocOk(d) && EditsOk(edits) && NoStrays(d, edits) && NoStrays(d, all)
    ensures
      var u := UpdateAll(d, edits);
      && EditAll(PrintDoc(d), edits) == PrintDoc(u)
      && DocOk(u) && NoStrays(u, all) && u.head == d.head && u.tail == d.tail
    decreases |edits|
  {
    hide DocOk, PrintDoc, Edited, NoStrayBefore, Update, EditOk;
    if edits != [] {
      var e := edits[0];
      OneEdit(d, e, edits);
      OneEdit(d, e, all);
      UpdateShape(d, e.key, Chars(e.value));
      EditAllIsUpdateAll(Update(d, e.key, Chars(e.value)), edits[1..], all);
    }
  }

  // ---------- After the edits nothing is left to update ----------

  ghost predicate AllSet(d: Doc, edits: seq<Edit>) {
    forall i | 0 <= i < |edits| :: Lookup(d.members, edits[i].key) == Some(Chars(edits[i].value))
  }

  lemma {:induction false} OthersKept(d: Doc, edits: seq<Edit>, key: string)
    requires forall i | 0 <= i < |edits| :: edits[i].key != key
    ensures Lookup(UpdateAll(d, edits).members, key) == Lookup(d.members, key)
    decreases |edits|
  {
    hide Update, Lookup;
    if edits != [] {
      var u := Update(d, edits[0].key, Chars(edits[0].value));
      LookupUpdated(d, edits[0].key, Chars(edits[0].value), key);
      OthersKept(u, edits[1..], key);
    }
  }

  lemma {:induction false} AllAreSet(d: Doc, edits: seq<Edit>)
    requires EditsOk(edits)
    ensures AllSet(UpdateAll(d, edits), edits)
    decreases |edits|
  {
    hide Update, Lookup, EditOk;
    if edits != [] {
      var e, rest := edits[0], edits[1..];
      var u := Update(d, e.key, Chars(e.value));
      AllAreSet(u, rest);
      LookupUpdated(d, e.key, Chars(e.value), e.key);
      forall i | 0 <= i < |rest| ensures rest[i].key != e.key { assert rest[i] == edits[i + 1]; }
      OthersKept(u, rest, e.key);
      forall i | 0 <= i < |edits|
        ensures Lookup(UpdateAll(d, edits).members, edits[i].key) == Some(Chars(edits[i].value))
      {
        if i > 0 { assert edits[i] == rest[i - 1]; }
      }
    }
  }

  lemma {:induction false} ReplacedByItself(ms: seq<Member>, key: string, value: Text)
    requires Lookup(ms, key) == Some(value)
    ensures Has(ms, key) && Replace(ms, key, value) == ms
  {
    LookupHas(ms, key);
    if ms[0].key == key {
      assert ms[0].(value := value) == ms[0] && [ms[0]] + ms[1..] == ms;
    } else {
      ReplacedByItself(ms[1..], key, value);
      assert [ms[0]] + ms[1..] == ms;
    }
  }

  lemma {:induction false} NothingToUpdate(d: Doc, edits: seq<Edit>)
    requires AllSet(d, edits)
    ensures UpdateAll(d, edits) == d
    decreases |edits|
  {
    hide Lookup;
    if edits != [] {
      ReplacedByItself(d.members, edits[0].key, Chars(edits[0].value));
      forall i | 0 <= i < |edits[1..]|
        ensures Lookup(d.members, edits[1..][i].key) == Some(Chars(edits[1..][i].value))
      {
        assert edits[1..][i] == edits[i + 1];
      }
      NothingToUpdate(d, edits[1..]);
    }
  }

  /** A second run of the same edits changes nothing. */
  lemma EditAllTwice(d: Doc, edits: seq<Edit>)
    requires DocOk(d) && EditsOk(edits) && NoStrays(d, edits)
    ensures
      var once := EditAll(PrintDoc(d), edits);
      EditAll(once, edits) == once
  {
    hide *;
    EditAllIsUpdateAll(d, edits, edits);
    EditAllIsUpdateAll(UpdateAll(d, edits), edits, edits);
    AllAreSet(d, edits);
    NothingToUpdate(UpdateAll(d, edits), edits);
  }

  // ---------- What the repairs leave alone, the edits do not spoil ----------

  /** The last character of a single value is no comma. */
  lemma {:induction false} LastIsNoComma(t: Text)
    requires WellFormed(t) && Lone(t) && Print(t) != []
    ensures Print(t)[|Print(t)| - 1] != ','
    decreases t
  {
    hide Raw;
    match t {
      case Char(c, rest) =>
        if Print(rest) != [] { LastIsNoComma(rest); }
      case Str(raw, rest) =>
        assert Quoted(raw)[|Quoted(raw)| - 1] == '"';
        if Print(rest) != [] { LastIsNoComma(rest); }
      case Group(brace, inner, rest) =>
        if Print(rest) != [] { LastIsNoComma(rest); }
    }
  }

  lemma {:induction false} MembersEnd(ms: seq<Member>) returns (front: string)
    requires ms != []
    ensures PrintMembers(ms) == front + (Print(ms[|ms| - 1].value) + ms[|ms| - 1].trail)
  {
    hide HeadOf, Print;
    if |ms| == 1 {
      PrintedOne(ms[0]);
      assert ms == [ms[0]];
      front := HeadOf(ms[0]);
    } else {
      var rest := MembersEnd(ms[1..]);
      front := PrintMember(ms[0]) + ("," + rest);
      EndedBy(PrintMember(ms[0]), rest, Print(ms[|ms| - 1].value) + ms[|ms| - 1].trail);
    }
  }

  lemma EndedBy(a: string, b: string, c: string)
    ensures a + ("," + (b + c)) == (a + ("," + b)) + c
  {}

  /** No comma waits in front of the object's closing brace. */
  lemma NoCommaWaits(d: Doc, i: nat)
    requires DocOk(d) && i < |d.head + UpToClose(d)| && (d.head + UpToClose(d))[i] == ','
    ensures exists j | i < j < |d.head + UpToClose(d)| :: !IsBlank((d.head + UpToClose(d))[j])
  {
    hide MemberOk, PrintMembers, Print, AllBlank, UpToClose;
    if d.members == [] {
      BlankIsPlain(d.blank);
      FollowedBy(d.head, "{", d.blank, i);
      assert d.head + UpToClose(d) == d.head + ("{" + d.blank) by { BlankBody(d); }
    } else {
      var last := d.members[|d.members| - 1];
      var front := MembersEnd(d.members);
      LastCharacter(last);
      FollowedBy(d.head + ("{" + front), Print(last.value), last.trail, i);
      MembersBody(d, front, Print(last.value) + last.trail);
    }
  }

  lemma BlankBody(d: Doc)
    requires DocOk(d) && d.members == []
    ensures UpToClose(d) == "{" + d.blank && forall i | 0 <= i < |d.blank| :: d.blank[i] != ','
  {}

  lemma MembersBody(d: Doc, front: string, end: string)
    requires d.members != [] && PrintMembers(d.members) == front + end
    ensures d.head + UpToClose(d) == (d.head + ("{" + front)) + end
  {
    hide PrintMembers;
  }

  lemma FollowedBy(x: string, v: string, trail: string, i: nat)
    requires v != [] && v[|v| - 1] != ',' && !IsBlank(v[|v| - 1])
    requires forall k | 0 <= k < |trail| :: trail[k] != ','
    ensures
      var p := x + (v + trail);
      i < |p| && p[i] == ',' ==> exists j | i < j < |p| :: !IsBlank(p[j])
  {
    hide IsBlank;
    var p := x + (v + trail);
    assert p[|x| + |v| - 1] == v[|v| - 1];
    assert forall j | |x| + |v| <= j < |p| :: p[j] == trail[j - |x| - |v|];
  }

  lemma LastCharacter(m: Member)
    requires MemberOk(m)
    ensures
      var v := Print(m.value);
      v != [] && v[|v| - 1] != ',' && !IsBlank(v[|v| - 1]) && forall i | 0 <= i < |m.trail| :: m.trail[i] != ','
  {
    hide Print, WellFormed, Lone;
    LastIsNoComma(m.value);
  }

  /** The line that is added has nothing to repair. */
  lemma AddedLine(d: Doc, e: Edit)
    requires EditOk(e)
    ensures
      var n := MemberLead(d) + NewMember(e.key, e.value);
      Line(n) && Clean(n)
  {
    hide AllBlank, PlainKey, ZeroAt, CommasAt, Clean;
    var n := MemberLead(d) + NewMember(e.key, e.value);
    CleanIs(n);
    LineShape(d, e);
    forall i: nat, k: nat ensures !ZeroAt(n, i, k) && !CommasAt(n, i, k) { LineHasNothing(n, |MemberLead(d)|, i, k); }
  }

  lemma LineShape(d: Doc, e: Edit)
    requires EditOk(e)
    ensures
      var s, n := |MemberLead(d)|, MemberLead(d) + NewMember(e.key, e.value);
      && s < |n| - 1 && n[s] == '"' && n[|n| - 1] == '\n'
      && (n[0] == ',' || n[0] == '\n')
      && forall i | 0 < i < |n| - 1 :: n[i] != ',' && (if s <= i then n[i] != '\n' else n[i] != '.')
  {
    hide AllBlank;
    PlainKeyFits(e.key);
    var w := NewMember(e.key, e.value);
    var n := MemberLead(d) + w;
    assert w == Quoted(e.key) + (" : " + (e.value + "\n"));
    assert forall i | |MemberLead(d)| <= i < |n| :: n[i] == w[i - |MemberLead(d)|];
    assert forall i | 0 <= i < |MemberLead(d)| :: n[i] == MemberLead(d)[i];
  }

  lemma LineHasNothing(n: string, s: nat, i: nat, k: nat)
    requires 0 < s < |n| - 1 && n[s] == '"'
    requires forall j | 0 < j < |n| - 1 :: n[j] != ',' && (if s <= j then n[j] != '\n' else n[j] != '.')
    requires n[|n| - 1] == '\n'
    ensures !ZeroAt(n, i, k) && !CommasAt(n, i, k)
  {
    assert !IsBlank('"') && !IsTab('"');
  }

  lemma UpdateClean(d: Doc, e: Edit)
    requires DocOk(d) && EditOk(e) && Clean(PrintDoc(d))
    ensures Clean(PrintDoc(Update(d, e.key, Chars(e.value))))
  {
    hide Clean, DocOk, EditOk, Has, PrintDoc, Update, PlainWord;
    EditIsWord(e);
    if Has(d.members, e.key) { ReplaceClean(d, e); } else { AppendClean(d, e); }
  }

  lemma EditIsWord(e: Edit)
    requires EditOk(e)
    ensures PlainWord(e.value) && Word(e.value) && Print(Chars(e.value)) == e.value
  {
    WordIsValue(e.value);
  }

  lemma ReplaceClean(d: Doc, e: Edit)
    requires DocOk(d) && Word(e.value) && Print(Chars(e.value)) == e.value && Has(d.members, e.key)
    requires Clean(PrintDoc(d))
    ensures Clean(PrintDoc(Update(d, e.key, Chars(e.value))))
  {
    hide Clean, Print, PrintMembers, Front, Behind, Found, Word, MembersOk, Replace;
    var ms, key := d.members, e.key;
    var p, q := d.head + ("{" + Front(ms, key)), Behind(ms, key) + ("}" + d.tail);
    var was := Print(Found(ms, key).value);
    AroundFound(ms, key);
    AroundReplaced(ms, key, Chars(e.value));
    ReplaceLength(ms, key, Chars(e.value));
    Regrouped(d.head, Front(ms, key), was, Behind(ms, key), "}" + d.tail);
    Regrouped(d.head, Front(ms, key), e.value, Behind(ms, key), "}" + d.tail);
    FrontEndsWell(d, key);
    WordExchanged(p, was, e.value, q);
  }

  lemma Regrouped(head: string, front: string, v: string, behind: string, rest: string)
    ensures head + ("{" + ((front + (v + behind)) + rest)) == (head + ("{" + front)) + (v + (behind + rest))
  {}

  lemma FrontEndsWell(d: Doc, key: string)
    requires DocOk(d) && Has(d.members, key)
    ensures var p := d.head + ("{" + Front(d.members, key)); p != [] && p[|p| - 1] != '.'
  {
    hide Front, Found, MembersOk, Has, AllBlank, Quoted;
    var m := Found(d.members, key);
    var before := FrontEnds(d.members, key);
    BlankIsPlain(m.pad);
    var p := d.head + ("{" + Front(d.members, key));
    assert HeadOf(m) == (m.lead + (Quoted(m.key) + m.mid)) + (":" + m.pad);
    assert p == (d.head + ("{" + (before + (m.lead + (Quoted(m.key) + m.mid))))) + (":" + m.pad);
    assert (":" + m.pad)[|m.pad|] == if m.pad == [] then ':' else m.pad[|m.pad| - 1];
  }

  lemma AppendClean(d: Doc, e: Edit)
    requires DocOk(d) && EditOk(e) && Print(Chars(e.value)) == e.value && !Has(d.members, e.key)
    requires Clean(PrintDoc(d))
    ensures Clean(PrintDoc(Update(d, e.key, Chars(e.value))))
  {
    hide Clean, Print, EditOk, MembersOk, AllBlank, MemberLead, NewMember, Appended, Body, DocOk, Has, Update;
    var p, n, q := d.head + UpToClose(d), MemberLead(d) + NewMember(e.key, e.value), "}" + d.tail;
    AddedText(d, e.key, Chars(e.value));
    AppendedIs(d.head, Body(d), q, e.key, e.value);
    MemberLeadUnfolds(d);
    AddedLine(d, e);
    PutTogether(d.head, Body(d), [], q);
    PutTogether(d.head, Body(d), n, q);
    assert Body(d) + [] == Body(d) && [] + q == q;
    forall i | 0 <= i < |p| && p[i] == ',' ensures exists j | i < j < |p| :: !IsBlank(p[j]) { NoCommaWaits(d, i); }
    LineInserted(p, n, q);
  }

  lemma PutTogether(head: string, body: string, n: string, q: string)
    ensures head + ("{" + ((body + n) + q)) == (head + ("{" + body)) + (n + q)
  {}

  lemma MemberLeadUnfolds(d: Doc)
    ensures MemberLead(d) == if AllBlank(Body(d)) then "\n      " else ",\n      "
  {}

  lemma {:induction false} UpdateAllClean(d: Doc, edits: seq<Edit>)
    requires DocOk(d) && EditsOk(edits) && NoStrays(d, edits) && Clean(PrintDoc(d))
    ensures Clean(PrintDoc(UpdateAll(d, edits)))
    decreases |edits|
  {
    hide Clean, DocOk, EditOk, PrintDoc, Update, NoStrayBefore, Edited;
    if edits != [] {
      UpdateClean(d, edits[0]);
      OneEdit(d, edits[0], edits);
      UpdateAllClean(Update(d, edits[0].key, Chars(edits[0].value)), edits[1..]);
    }
  }

  // ---------- An object as a section ----------

  ghost predicate Heads(head: string, key: string, x: string, y: string) {
    AllBlank(x) && AllBlank(y) && head == Quoted(key) + (x + (":" + y))
  }

  /** The object's text is a section: its head is the quoted key, blanks, a colon and blanks, and nothing follows it. */
  ghost predicate SectionDoc(d: Doc, key: string) {
    DocOk(d) && d.tail == "" && exists x, y :: Heads(d.head, key, x, y)
  }

  lemma DocIsSection(d: Doc, key: string)
    requires SectionDoc(d, key)
    ensures IsSection(PrintDoc(d), key)
  {
    hide FirstClose, DocOk, Level, Body, Heads, BraceOf;
    BodyLevel(d);
    forall rest ensures SectionAt(PrintDoc(d) + rest, key) == Some(|PrintDoc(d)| - 1) {
      var text := d.head + ("{" + (Body(d) + ("}" + rest)));
      assert PrintDoc(d) + rest == text;
      HeadFinds(d.head, key, Body(d) + ("}" + rest));
      assert text[|d.head|..] == "{" + (Body(d) + ("}" + rest));
      BodyCloses(Body(d), rest);
    }
    HeadStarts(d.head, key);
    assert PrintDoc(d)[0] == d.head[0];
  }

  lemma HeadStarts(head: string, key: string)
    requires exists x, y :: Heads(head, key, x, y)
    ensures |head| > 1 && head[0] == '"'
  {}

  lemma HeadFinds(head: string, key: string, rest: string)
    requires exists x, y :: Heads(head, key, x, y)
    ensures BraceOf(head + ("{" + rest), key) == Some(|head|)
  {
    hide AllBlank, Quoted, SkipSpaces;
    var x, y :| Heads(head, key, x, y);
    var text, colon := head + ("{" + rest), |Quoted(key)| + |x|;
    BlankIsPlain(x);
    BlankIsPlain(y);
    assert Quoted(key) <= text;
    assert forall i | |Quoted(key)| <= i < colon :: text[i] == x[i - |Quoted(key)|];
    assert text[colon] == ':' && text[|head|] == '{';
    assert forall i | colon + 1 <= i < |head| :: text[i] == y[i - colon - 1];
    SkipsTo(text, |Quoted(key)|, colon, |text|);
    SkipsTo(text, colon + 1, |head|, |text|);
  }

  // ---------- The three steps ----------

  lemma KeysDiffer()
    ensures NoEscapes(KEY) && NoEscapes(STEAMVR) && NoEscapes(POWER)
    ensures KEY != STEAMVR && KEY != POWER && STEAMVR != POWER
  {
    assert |KEY| == 11 && |STEAMVR| == 7 && |POWER| == 5;
  }

  /** The driver's section is found behind the first step, and the others are what they were. */
  lemma DriverStep(json: string, settings: Settings, enabled: bool)
    requires RootClose(json).Some?
    requires forall i | 0 <= i < FirstBrace(json) :: json[i] != '"' && json[i] != '}'
    ensures
      var section := DriverSection(settings, enabled);
      var text := WriteSection(json, section);
      && text.Some? && SectionText(text.value, KEY) == Some(section)
      && forall other | NoEscapes(other) && other != KEY :: SectionText(text.value, other) == SectionText(json, other)
  {
    hide Find, DriverSection, RootClose, Settled, FirstBrace, NoEscapes, SectionText, Inserted, Replaced, InRoot,
         IsSection;
    var section := DriverSection(settings, enabled);
    var begin := PrinterAndScannerAgree(json, settings, enabled);
    SettledText(WriteSection(json, section).value, section, begin);
    DriverIsSection(settings, enabled);
    KeysDiffer();
    forall other | NoEscapes(other) && other != KEY
      ensures SectionText(WriteSection(json, section).value, other) == SectionText(json, other)
    {
      if Find(OUTSIDE, json, KEY).Some? {
        PutKeepsOther(json, KEY, section, other);
        PutIsReplaced(json, KEY, section);
      } else {
        CleanHeadIsInRoot(json);
        InsertKeepsOther(json, section, RootClose(json).value, KEY, other);
      }
    }
  }

  lemma PutIsReplaced(json: string, key: string, section: string)
    requires Find(OUTSIDE, json, key).Some?
    ensures PutSection(json, key, section) == Replaced(json, section, Find(OUTSIDE, json, key).value)
  {
    hide Find;
  }

  lemma SettledText(text: string, section: string, begin: nat)
    requires Settled(text, section, begin)
    ensures SectionText(text, KEY) == Some(section)
  {
    hide Find, WriteSection;
  }

  /** A section that is there and is put again as it is. */
  lemma DriverIdle(json: string, section: string)
    requires SectionText(json, KEY) == Some(section)
    ensures WriteSection(json, section) == Some(json)
  {
    hide Find, RootClose, Inserted, Replaced, NoEscapes;
    KeysDiffer();
    PutSame(json, KEY);
    FoundText(json, KEY);
    PutIsReplaced(json, KEY, section);
  }

  lemma FoundText(json: string, key: string)
    requires SectionText(json, key).Some?
    ensures Find(OUTSIDE, json, key).Some?
  {
    hide Find;
  }

  /** The text reads as this object, which the edits update without a detour. */
  ghost predicate Reads(text: string, key: string, d: Doc, edits: seq<Edit>) {
    PrintDoc(d) == text && SectionDoc(d, key) && NoStrays(d, edits)
  }

  /** The edited text is the updated object's, a section again, and no second run changes it. */
  lemma EditedSection(text: string, key: string, d: Doc, edits: seq<Edit>)
    requires Reads(text, key, d, edits) && EditsOk(edits)
    ensures
      var u := UpdateAll(d, edits);
      && EditAll(text, edits) == PrintDoc(u) && Reads(PrintDoc(u), key, u, edits)
      && IsSection(PrintDoc(u), key) && EditAll(PrintDoc(u), edits) == PrintDoc(u)
  {
    hide DocOk, PrintDoc, NoStrays, Heads, EditsOk, EditAll, UpdateAll, IsSection;
    EditAllIsUpdateAll(d, edits, edits);
    EditAllTwice(d, edits);
    DocIsSection(UpdateAll(d, edits), key);
  }

  /** One section is put: it reads so, and the others are what they were. */
  lemma PutSectionReads(json: string, key: string, section: string)
    requires NoEscapes(key) && IsSection(section, key) && SectionText(json, key).Some?
    ensures SectionText(PutSection(json, key, section), key) == Some(section)
    ensures forall other | NoEscapes(other) && other != key ::
      SectionText(PutSection(json, key, section), other) == SectionText(json, other)
  {
    hide NoEscapes, IsSection, SectionText, PutSection;
    PutReads(json, key, section);
    forall other | NoEscapes(other) && other != key
      ensures SectionText(PutSection(json, key, section), other) == SectionText(json, other)
    {
      PutKeepsOther(json, key, section, other);
    }
  }

  /** The object that the repaired steamvr section reads as; the section is one that one pass repairs. */
  ghost predicate SteamvrReads(json: string, d: Doc) {
    && SectionText(json, STEAMVR).Some?
    && var text := SectionText(json, STEAMVR).value;
    Reads(Repair(text), STEAMVR, d, STEAMVR_EDITS) && ZerosGoAtOnce(text) && CommasGoAtOnce(text)
  }

  ghost predicate PowerReads(json: string, d: Doc) {
    SectionText(json, POWER).Some? && Reads(SectionText(json, POWER).value, POWER, d, POWER_EDITS)
  }

  lemma SteamvrStepReads(json: string, d: Doc)
    requires SteamvrReads(json, d)
    ensures
      var u, after := UpdateAll(d, STEAMVR_EDITS), SteamvrStep(json);
      && SectionText(after, STEAMVR) == Some(PrintDoc(u))
      && EditAll(Repair(PrintDoc(u)), STEAMVR_EDITS) == PrintDoc(u)
      && forall other | NoEscapes(other) && other != STEAMVR :: SectionText(after, other) == SectionText(json, other)
  {
    hide NoEscapes, IsSection, SectionText, PutSection, Repair, EditAll, UpdateAll, PrintDoc, Clean, EditsOk, DocOk,
         NoStrays, Heads, ZerosGoAtOnce, CommasGoAtOnce;
    var text := Repair(SectionText(json, STEAMVR).value);
    SettingsEditsOk();
    KeysDiffer();
    RepairedExactly(SectionText(json, STEAMVR).value);
    EditedSection(text, STEAMVR, d, STEAMVR_EDITS);
    UpdateAllClean(d, STEAMVR_EDITS);
    CleanStays(PrintDoc(UpdateAll(d, STEAMVR_EDITS)));
    PutSectionReads(json, STEAMVR, PrintDoc(UpdateAll(d, STEAMVR_EDITS)));
  }

  lemma PowerStepReads(json: string, d: Doc)
    requires PowerReads(json, d)
    ensures
      var u, after := UpdateAll(d, POWER_EDITS), PowerStep(json);
      && SectionText(after, POWER) == Some(PrintDoc(u))
      && EditAll(PrintDoc(u), POWER_EDITS) == PrintDoc(u)
      && forall other | NoEscapes(other) && other != POWER :: SectionText(after, other) == SectionText(json, other)
  {
    hide NoEscapes, IsSection, SectionText, PutSection, EditAll, UpdateAll, PrintDoc, EditsOk, SectionDoc, NoStrays;
    SettingsEditsOk();
    KeysDiffer();
    EditedSection(SectionText(json, POWER).value, POWER, d, POWER_EDITS);
    PutSectionReads(json, POWER, PrintDoc(UpdateAll(d, POWER_EDITS)));
  }

  lemma SteamvrIdle(json: string)
    requires SectionText(json, STEAMVR).Some? ==>
      var text := SectionText(json, STEAMVR).value; EditAll(Repair(text), STEAMVR_EDITS) == text
    ensures SteamvrStep(json) == json
  {
    hide SectionText, PutSection, Repair, EditAll, NoEscapes;
    KeysDiffer();
    if SectionText(json, STEAMVR).Some? { PutSame(json, STEAMVR); }
  }

  lemma PowerIdle(json: string)
    requires SectionText(json, POWER).Some? ==>
      var text := SectionText(json, POWER).value; EditAll(text, POWER_EDITS) == text
    ensures PowerStep(json) == json
  {
    hide SectionText, PutSection, EditAll, NoEscapes;
    KeysDiffer();
    if SectionText(json, POWER).Some? { PutSame(json, POWER); }
  }

  // ---------- The file as a whole ----------

  /** What is read as the section's object, where there is one. */
  ghost predicate SectionsRead(json: string, steamvr: Option<Doc>, power: Option<Doc>) {
    && (match steamvr case None => SectionText(json, STEAMVR).None? case Some(d) => SteamvrReads(json, d))
    && (match power case None => SectionText(json, POWER).None? case Some(d) => PowerReads(json, d))
  }

  /** What a section holds after the edits. */
  function EditedText(d: Option<Doc>, edits: seq<Edit>): Option<string> {
    if d.None? then None else Some(PrintDoc(UpdateAll(d.value, edits)))
  }

  /**
   * The whole write, on every text with a matched first brace and no quote or closing brace before
   * it, whose steamvr and power sections, where there are any, read as objects without a string
   * that reads like an edited key before its member, and of which the steamvr section as it was read
   * needs no second pass of the repairs: the driver's section is found again as printed, each of the
   * others reads as its object updated, every other section is kept, and writing the result again
   * changes nothing.
   */
  lemma SecondWriteIsIdle(json: string, settings: Settings, enabled: bool, steamvr: Option<Doc>, power: Option<Doc>)
    requires RootClose(json).Some? && SectionsRead(json, steamvr, power)
    requires forall i | 0 <= i < FirstBrace(json) :: json[i] != '"' && json[i] != '}'
    ensures
      var text := Written(json, settings, enabled);
      && text.Some? && Written(text.value, settings, enabled) == text
      && SectionText(text.value, "driver_svrt") == Some(DriverSection(settings, enabled))
      && SectionText(text.value, "steamvr") == EditedText(steamvr, STEAMVR_EDITS)
      && SectionText(text.value, "power") == EditedText(power, POWER_EDITS)
      && forall other | NoEscapes(other) && other != "driver_svrt" && other != "steamvr" && other != "power" ::
           SectionText(text.value, other) == SectionText(json, other)
  {
    hide NoEscapes, SectionText, DriverSection, WriteSection, RootClose, FirstBrace, Repair, EditAll, UpdateAll,
         PrintDoc, Clean, SteamvrStep, PowerStep, Reads;
    KeysDiffer();
    DriverStep(json, settings, enabled);
    var section := DriverSection(settings, enabled);
    var one := WriteSection(json, section).value;
    if steamvr.Some? { SteamvrStepReads(one, steamvr.value); } else { SteamvrIdle(one); }
    var two := SteamvrStep(one);
    if power.Some? { PowerStepReads(two, power.value); } else { PowerIdle(two); }
    var three := PowerStep(two);
    DriverIdle(three, section);
    SteamvrIdle(three);
    PowerIdle(three);
  }

  lemma {:induction false} ValuesKept(d: Doc, edits: seq<Edit>, key: string)
    requires EditsOk(edits) && forall i | 0 <= i < |edits| :: edits[i].key != key
    ensures Values(UpdateAll(d, edits).members, key) == Values(d.members, key)
    ensures Sole(UpdateAll(d, edits).members, key) <==> Sole(d.members, key)
    decreases |edits|
  {
    hide Update, Values, Sole, OneWritten, PlainKey, PlainWord;
    if edits != [] {
      var e, u := edits[0], Update(d, edits[0].key, Chars(edits[0].value));
      UpdateReaches(d, e.key, Chars(e.value));
      UpdateIsWritten(d, e.key, Chars(e.value));
      WrittenReaches(d.members, u.members, e.key, Chars(e.value));
      ValuesKept(u, edits[1..], key);
    }
  }

  /**
   * What readers find in an edited section: under other keys what they found before; under the key of
   * an edit all of them find its value if and only if at most one member was read as having that key,
   * and it spells it plainly.
   */
  lemma {:induction false} EditedSectionReads(d: Doc, edits: seq<Edit>, i: nat)
    requires EditsOk(edits) && i < |edits|
    ensures forall other | (forall j | 0 <= j < |edits| :: edits[j].key != other) ::
      Values(UpdateAll(d, edits).members, other) == Values(d.members, other)
    ensures Values(UpdateAll(d, edits).members, edits[i].key) == [Chars(edits[i].value)]
            <==> Sole(d.members, edits[i].key)
    decreases |edits|
  {
    hide Update, Values, Sole, OneWritten, PlainKey, PlainWord;
    var e, rest, u := edits[0], edits[1..], Update(d, edits[0].key, Chars(edits[0].value));
    UpdateReaches(d, e.key, Chars(e.value));
    if i == 0 {
      forall j | 0 <= j < |rest| ensures rest[j].key != e.key { assert rest[j] == edits[j + 1]; }
      ValuesKept(u, rest, e.key);
    } else {
      assert rest[i - 1] == edits[i];
      UpdateIsWritten(d, e.key, Chars(e.value));
      WrittenReaches(d.members, u.members, e.key, Chars(e.value));
      EditedSectionReads(u, rest, i - 1);
    }
    forall other | forall j | 0 <= j < |edits| :: edits[j].key != other
      ensures Values(UpdateAll(d, edits).members, other) == Values(d.members, other)
    {
      ValuesKept(d, edits, other);
    }
  }

  /**
   * What the sections are to tell SteamVR: no supersampling of its own and no timeout of the screens.
   * Under each of the four keys every reader finds the value if and only if at most one member was
   * read as having it, spelled plainly, and under all other keys what it found before.
   */
  lemma SettingsAreSet(steamvr: Doc, power: Doc)
    ensures
      var was, now := steamvr.members, UpdateAll(steamvr, STEAMVR_EDITS).members;
      && (Values(now, "supersampleManualOverride") == [Chars("true")] <==> Sole(was, "supersampleManualOverride"))
      && (Values(now, "supersampleScale") == [Chars("1.0")] <==> Sole(was, "supersampleScale"))
      && (Values(now, "renderTargetMultiplier") == [Chars("1.0")] <==> Sole(was, "renderTargetMultiplier"))
      && forall other |
           other !in {"supersampleManualOverride", "supersampleScale", "renderTargetMultiplier"} ::
           Values(now, other) == Values(was, other)
    ensures
      var was, now := power.members, UpdateAll(power, POWER_EDITS).members;
      && (Values(now, "turnOffScreensTimeout") == [Chars("0.0")] <==> Sole(was, "turnOffScreensTimeout"))
      && forall other | other != "turnOffScreensTimeout" :: Values(now, other) == Values(was, other)
  {
    hide Values, Sole, UpdateAll, EditOk, Chars;
    SettingsEditsOk();
    EditedSectionReads(steamvr, STEAMVR_EDITS, 0);
    EditedSectionReads(steamvr, STEAMVR_EDITS, 1);
    EditedSectionReads(steamvr, STEAMVR_EDITS, 2);
    EditedSectionReads(power, POWER_EDITS, 0);
    assert STEAMVR_EDITS[0] == Edit("supersampleManualOverride", "true");
    assert STEAMVR_EDITS[1] == Edit("supersampleScale", "1.0");
    assert STEAMVR_EDITS[2] == Edit("renderTargetMultiplier", "1.0");
    assert POWER_EDITS[0] == Edit("turnOffScreensTimeout", "0.0");
  }
}
