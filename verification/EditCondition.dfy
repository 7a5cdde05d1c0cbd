/** Exactly when set_value is an update: what becomes of a string value that reads like the key. */
module EditCondition {
  import opened Wrappers
  import opened JsonScanner
  import opened JsonText
  import opened DriverSettings
  import opened SettingsFile
  import opened MemberEdit
  import opened ObjectUpdate

  // ---------- An edit in the wrong place ----------

  lemma DigitIsValue(c: char)
    requires c == '0' || c == '1'
    ensures Value(Char(c, End)) && Print(Char(c, End)) == [c]
  {}

  /** Two texts that put a character in different places differ, if it is not the one that was there. */
  lemma SplicesDiffer(section: string, first: nat, end: nat, other: nat, stop: nat, c: char)
    requires first <= end < |section| && other <= stop < |section| && first != other
    requires c != section[if first < other then first else other]
    ensures section[..first] + [c] + section[end..] != section[..other] + [c] + section[stop..]
  {
    var one, two := section[..first] + [c] + section[end..], section[..other] + [c] + section[stop..];
    if first < other {
      assert one[first] == c && two[first] == section[first];
    } else {
      assert two[other] == c && one[other] == section[other];
    }
  }

  /** If the search goes wrong, there is a value for which the edit does. */
  lemma WrongStartIsSeen(d: Doc, key: string) returns (value: Text)
    requires DocOk(d) && NoEscapes(key) && !StartsRight(d, key)
    ensures value == Char('0', End) || value == Char('1', End)
    ensures Value(value) && Edited(PrintDoc(d), key, Print(value)) != PrintDoc(Update(d, key, value))
  {
    hide Edited, ValueStart, ValueStop, PrintDoc, Print, FirstBrace, RootClose, Front, Found, DocOk, Has, Update, Body,
         Appended, Value;
    var section, open, close := PrintDoc(d), |d.head|, |d.head| + 1 + |Body(d)|;
    BodyWithin(d);
    var start := ValueStart(section, key, open, close);
    DigitIsValue('0');
    BracesOf(d);
    value := Char('0', End);
    if start.None? {
      EditedMissing(section, key, Print(value), open, close);
      UpdatedText(d, key, value);
      AppendedIsLonger(section, key, Print(value), open, close);
    } else if Has(d.members, key) {
      value := OtherPlaceIsSeen(d, key, start.value);
    } else {
      AddedText(d, key, value);
      EditedFound(section, key, Print(value), open, close, start.value, ValueStop(section, start.value, close));
      AppendedIsLonger(section, key, Print(value), open, close);
    }
  }

  /** A value found elsewhere: a digit that does not stand in the earlier of the two places tells them apart. */
  lemma OtherPlaceIsSeen(d: Doc, key: string, other: nat) returns (value: Text)
    requires DocOk(d) && Has(d.members, key) && other != |d.head| + 1 + |Front(d.members, key)|
    requires |d.head| + 1 + |Body(d)| < |PrintDoc(d)|
    requires ValueStart(PrintDoc(d), key, |d.head|, |d.head| + 1 + |Body(d)|) == Some(other)
    ensures value == Char('0', End) || value == Char('1', End)
    ensures Value(value) && Edited(PrintDoc(d), key, Print(value)) != PrintDoc(Update(d, key, value))
  {
    hide Edited, ValueStart, ValueStop, PrintDoc, Print, FirstBrace, RootClose, Front, Found, DocOk, Has, Update, Body,
         Value;
    var section, open, close := PrintDoc(d), |d.head|, |d.head| + 1 + |Body(d)|;
    var first, stop := |d.head| + 1 + |Front(d.members, key)|, ValueStop(section, other, close);
    UpdatedText(d, key, Char('0', End));
    var c := if section[if first < other then first else other] == '0' then '1' else '0';
    value := Char(c, End);
    DigitIsValue(c);
    BracesOf(d);
    UpdatedText(d, key, value);
    EditedFound(section, key, Print(value), open, close, other, stop);
    SplicesDiffer(section, first, first + |Print(Found(d.members, key).value)|, other, stop, c);
  }

  lemma BodyWithin(d: Doc)
    ensures |d.head| + 1 + |Body(d)| < |PrintDoc(d)|
  {
    hide Body;
  }

  lemma AppendedIsLonger(section: string, key: string, value: string, open: nat, close: nat)
    requires open < close <= |section|
    ensures |Appended(section, key, value, open, close)| > |section| + |value|
  {}

  /** set_value is the update for all values if and only if its search finds what the members say. */
  lemma UpdatesIffFound(d: Doc, key: string)
    requires DocOk(d) && NoEscapes(key)
    ensures StartsRight(d, key) <==>
            forall value | Value(value) :: Edited(PrintDoc(d), key, Print(value)) == PrintDoc(Update(d, key, value))
  {
    hide *;
    if StartsRight(d, key) {
      forall value | Value(value) ensures Edited(PrintDoc(d), key, Print(value)) == PrintDoc(Update(d, key, value)) {
        if Has(d.members, key) { ReplacesInText(d, key, value); } else { AppendsToText(d, key, value); }
      }
    } else {
      var value := WrongStartIsSeen(d, key);
    }
  }

  // ---------- Where the search meets the key ----------

  /** The quoted key, and behind it blanks and a colon within the limit. */
  predicate KeyStands(text: string, limit: nat, key: string)
    requires limit <= |text|
  {
    && limit > 0 && Quoted(key) <= text
    && var colon := SkipSpaces(text, |Quoted(key)|, limit);
    colon < limit && text[colon] == ':'
  }

  predicate OutsideQuotesAtDepthOne(s: Scan) { !s.quoted && s.depth == 1 }

  function Target(text: string, limit: nat, key: string): nat
    requires limit <= |text|
  {
    SkipSpaces(text, SkipSpaces(text, |Quoted(key)|, limit) + 1, limit)
  }

  /** Behind one character: the quotes of a string that reads like the key are not entered at depth one. */
  function Onward(s: Scan, text: string, key: string): Scan
    requires text != []
  {
    if OutsideQuotesAtDepthOne(s) && Quoted(key) <= text then s else Feed(s, text[0])
  }

  /** The state of the scan in front of position n. */
  function Standing(s: Scan, text: string, key: string, n: nat): Scan
    requires n <= |text|
    decreases n
  {
    if n == 0 then s else Standing(Onward(s, text, key), text[1..], key, n - 1)
  }

  /** The key stands at position n, and there the scan is outside quotes and at depth one. */
  predicate Meets(s: Scan, text: string, limit: nat, key: string, n: nat)
    requires limit <= |text|
  {
    n < limit && OutsideQuotesAtDepthOne(Standing(s, text, key, n)) && KeyStands(text[n..], limit - n, key)
  }

  ghost predicate NoneMetBefore(s: Scan, text: string, limit: nat, key: string, n: nat)
    requires limit <= |text|
  {
    forall j: nat | j < n :: !Meets(s, text, limit, key, j)
  }

  lemma SearchOnward(s: Scan, text: string, limit: nat, key: string)
    requires 0 < limit <= |text|
    ensures SearchKey(s, text, limit, key) ==
      if OutsideQuotesAtDepthOne(s) && KeyStands(text, limit, key) then Some(Target(text, limit, key))
      else Shift(SearchKey(Onward(s, text, key), text[1..], limit - 1, key), 1)
    ensures Meets(s, text, limit, key, 0) == (OutsideQuotesAtDepthOne(s) && KeyStands(text, limit, key))
  {
    hide SkipSpaces;
    assert text[0..] == text;
  }

  lemma MeetsFurther(s: Scan, text: string, limit: nat, key: string, j: nat)
    requires 0 < limit <= |text|
    ensures Meets(s, text, limit, key, j + 1) == Meets(Onward(s, text, key), text[1..], limit - 1, key, j)
  {
    hide KeyStands, Onward;
    if j + 1 < limit { assert text[1..][j..] == text[j + 1..]; }
  }

  /** Up to position n the search has met nothing exactly when it goes on from there. */
  lemma NoneFurther(s: Scan, text: string, limit: nat, key: string, n: nat)
    requires 0 < limit <= |text|
    ensures NoneMetBefore(s, text, limit, key, n + 1) <==>
            !Meets(s, text, limit, key, 0) && NoneMetBefore(Onward(s, text, key), text[1..], limit - 1, key, n)
  {
    hide Meets, Onward;
    var t, rest, less := Onward(s, text, key), text[1..], limit - 1;
    if NoneMetBefore(s, text, limit, key, n + 1) {
      forall j: nat | j < n ensures !Meets(t, rest, less, key, j) { MeetsFurther(s, text, limit, key, j); }
    }
    if !Meets(s, text, limit, key, 0) && NoneMetBefore(t, rest, less, key, n) {
      forall j: nat | j < n + 1 ensures !Meets(s, text, limit, key, j) {
        if j > 0 { MeetsFurther(s, text, limit, key, j - 1); }
      }
    }
  }

  lemma {:induction false} SearchFrom(s: Scan, text: string, limit: nat, key: string, n: nat)
    requires n <= limit <= |text| && NoneMetBefore(s, text, limit, key, n)
    ensures SearchKey(s, text, limit, key)
         == Shift(SearchKey(Standing(s, text, key, n), text[n..], limit - n, key), n)
    decreases n
  {
    hide SearchKey, KeyStands, Onward, Target, NoneMetBefore, Meets;
    if n == 0 {
      assert text[0..] == text;
    } else {
      SearchOnward(s, text, limit, key);
      NoneFurther(s, text, limit, key, n - 1);
      SearchFrom(Onward(s, text, key), text[1..], limit - 1, key, n - 1);
      assert text[1..][n - 1..] == text[n..];
    }
  }

  lemma NothingWithoutText(s: Scan, text: string, key: string)
    ensures SearchKey(s, text, 0, key).None?
  {}

  /** What is found is found at the first position where the key is met. */
  lemma {:induction false} FoundWhereMet(s: Scan, text: string, limit: nat, key: string) returns (n: nat)
    requires limit <= |text| && SearchKey(s, text, limit, key).Some?
    ensures Meets(s, text, limit, key, n) && NoneMetBefore(s, text, limit, key, n)
    ensures SearchKey(s, text, limit, key) == Some(n + Target(text[n..], limit - n, key))
    decreases limit
  {
    hide SearchKey, KeyStands, Onward, Target, Meets, NoneMetBefore;
    if limit == 0 { NothingWithoutText(s, text, key); }
    SearchOnward(s, text, limit, key);
    if Meets(s, text, limit, key, 0) {
      n := 0;
      NoneAtStart(s, text, limit, key);
      assert text[0..] == text;
    } else {
      n := FoundWhereMet(Onward(s, text, key), text[1..], limit - 1, key);
      MeetsFurther(s, text, limit, key, n);
      NoneFurther(s, text, limit, key, n);
      MeetsWithin(Onward(s, text, key), text[1..], limit - 1, key, n);
      assert text[1..][n..] == text[n + 1..];
      n := n + 1;
    }
  }

  lemma NoneAtStart(s: Scan, text: string, limit: nat, key: string)
    requires limit <= |text|
    ensures NoneMetBefore(s, text, limit, key, 0)
  {}

  lemma MeetsWithin(s: Scan, text: string, limit: nat, key: string, n: nat)
    requires limit <= |text| && Meets(s, text, limit, key, n)
    ensures n < limit && KeyStands(text[n..], limit - n, key) && OutsideQuotesAtDepthOne(Standing(s, text, key, n))
  {}

  /** At the first position where the key is met the search stops. */
  lemma MetIsFound(s: Scan, text: string, limit: nat, key: string, n: nat)
    requires limit <= |text| && Meets(s, text, limit, key, n) && NoneMetBefore(s, text, limit, key, n)
    ensures n < limit && SearchKey(s, text, limit, key) == Some(n + Target(text[n..], limit - n, key))
  {
    hide SearchKey, KeyStands, Target, Meets, NoneMetBefore, Standing;
    MeetsWithin(s, text, limit, key, n);
    SearchFrom(s, text, limit, key, n);
    SearchOnward(Standing(s, text, key, n), text[n..], limit - n, key);
  }

  /** Where the quoted key of the first such member stands, counted from the brace. */
  function KeyAt(d: Doc, key: string): int
    requires Has(d.members, key)
  {
    var m := Found(d.members, key);
    1 + |Front(d.members, key)| - (|Quoted(key)| + |m.mid| + 1 + |m.pad|)
  }

  lemma {:induction false} FrontEnds(ms: seq<Member>, key: string) returns (before: string)
    requires Has(ms, key)
    ensures Front(ms, key) == before + HeadOf(Found(ms, key))
  {
    hide HeadOf, PrintMember;
    if ms[0].key == key {
      before := [];
      assert [] + HeadOf(ms[0]) == HeadOf(ms[0]);
    } else {
      before := FrontEnds(ms[1..], key);
      before := PrintMember(ms[0]) + ("," + before);
      assert Front(ms, key) == before + HeadOf(Found(ms, key));
    }
  }

  /** The object's text from its brace on, cut at the key. */
  lemma CutAtKey(d: Doc, key: string) returns (before: string, behind: string)
    requires DocOk(d) && Has(d.members, key)
    ensures
      var m, text := Found(d.members, key), PrintDoc(d)[|d.head|..];
      && text == before + (Quoted(key) + (m.mid + (":" + (m.pad + behind))))
      && |before| == KeyAt(d, key) && behind != [] && !IsSpace(behind[0]) && MemberOk(m)
      && |before| + |Quoted(key)| + |m.mid| + 1 + |m.pad| < 1 + |Body(d)| <= |text|
  {
    hide Quoted, Print, PrintMembers, Front, Found, MembersOk, Behind, AllBlank, Raw;
    var m := Found(d.members, key);
    var first := FrontEnds(d.members, key);
    var more := BehindIs(d.members, key);
    AroundFound(d.members, key);
    ValueIsWellFormed(m.value);
    before := "{" + (first + m.lead);
    behind := Print(m.value) + (Behind(d.members, key) + ("}" + d.tail));
    CutAtValue(d.head, Front(d.members, key), Print(m.value), Behind(d.members, key), "}" + d.tail);
    CutAtHead(first, m, behind);
  }

  lemma CutAtHead(first: string, m: Member, behind: string)
    ensures ("{" + (first + HeadOf(m))) + behind ==
      ("{" + (first + m.lead)) + (Quoted(m.key) + (m.mid + (":" + (m.pad + behind))))
  {
    hide Quoted;
  }

  // ---------- The exact condition ----------

  /** At the n-th character from the object's brace on the scan meets the key. */
  ghost predicate MeetsKey(d: Doc, key: string, n: nat) {
    BodyWithin(d);
    Meets(OUTSIDE, PrintDoc(d)[|d.head|..], 1 + |Body(d)|, key, n)
  }

  /**
   * The first position at which the scan is outside quotes and at depth one, and where the quoted
   * key, blanks and a colon stand, is the key of the object's first such member.
   */
  ghost predicate MeetsMember(d: Doc, key: string)
    requires Has(d.members, key)
  {
    KeyAt(d, key) >= 0 && MeetsKey(d, key, KeyAt(d, key)) && forall j: nat | j < KeyAt(d, key) :: !MeetsKey(d, key, j)
  }

  /** There is no such position. */
  ghost predicate MeetsNothing(d: Doc, key: string) { forall n: nat :: !MeetsKey(d, key, n) }

  lemma MeetsMemberIs(d: Doc, key: string)
    requires Has(d.members, key)
    ensures
      var text, limit, n := PrintDoc(d)[|d.head|..], 1 + |Body(d)|, KeyAt(d, key);
      && limit <= |text|
      && (MeetsMember(d, key) <==>
         n >= 0 && Meets(OUTSIDE, text, limit, key, n) && NoneMetBefore(OUTSIDE, text, limit, key, n))
  {
    hide Meets, PrintDoc, Body, KeyAt, Has;
    BodyWithin(d);
    var text, limit, n := PrintDoc(d)[|d.head|..], 1 + |Body(d)|, KeyAt(d, key);
    assert forall j: nat :: MeetsKey(d, key, j) == Meets(OUTSIDE, text, limit, key, j);
  }

  lemma MetFirstIsFound(d: Doc, key: string)
    requires DocOk(d) && Has(d.members, key) && MeetsMember(d, key)
    ensures StartsRight(d, key)
  {
    hide SearchKey, Meets, PrintDoc, Body, Front, Found, DocOk, Has, Target, KeyAt, MeetsMember, MeetsKey,
         NoneMetBefore;
    BodyWithin(d);
    MeetsMemberIs(d, key);
    MetIsFound(OUTSIDE, PrintDoc(d)[|d.head|..], 1 + |Body(d)|, key, KeyAt(d, key));
    TargetIsValue(d, key);
  }

  /** From the key of the first such member the search goes on to the member's value. */
  lemma TargetIsValue(d: Doc, key: string)
    requires DocOk(d) && Has(d.members, key)
    ensures
      var text, limit, n := PrintDoc(d)[|d.head|..], 1 + |Body(d)|, KeyAt(d, key);
      0 <= n < limit <= |text| && n + Target(text[n..], limit - n, key) == 1 + |Front(d.members, key)|
  {
    hide PrintDoc, Body, Front, Found, DocOk, Has, IsSpace, AllBlank, SkipSpaces, KeyAt;
    var before, behind := CutAtKey(d, key);
    var m := Found(d.members, key);
    TextBehind(before, Quoted(key) + (m.mid + (":" + (m.pad + behind))));
    HeadLayout(m, behind, 1 + |Body(d)| - KeyAt(d, key), key);
    KeyAtIs(d, key);
  }

  lemma TextBehind(a: string, b: string)
    ensures (a + b)[|a|..] == b
  {}

  lemma KeyAtIs(d: Doc, key: string)
    requires Has(d.members, key)
    ensures var m := Found(d.members, key);
      KeyAt(d, key) + |Quoted(key)| + |m.mid| + 1 + |m.pad| == 1 + |Front(d.members, key)|
  {
    hide Front, Found, Has;
  }

  /** Blanks on both sides of the colon leave only one place for the key in front of a value. */
  lemma OnePlace(text: string, key: string, limit: nat, p: nat, q: nat, mid: nat, pad: nat)
    requires limit <= |text| && p < limit && KeyStands(text[p..], limit - p, key)
    requires p + Target(text[p..], limit - p, key) == q + |Quoted(key)| + mid + 1 + pad < limit
    requires Quoted(key) <= text[q..]
    requires text[q + |Quoted(key)| + mid] == ':'
    requires forall j | q + |Quoted(key)| <= j < q + |Quoted(key)| + mid :: IsSpace(text[j])
    requires forall j | q + |Quoted(key)| + mid < j < q + |Quoted(key)| + mid + 1 + pad :: IsSpace(text[j])
    ensures p == q
  {
    hide SkipSpaces;
    var k := |Quoted(key)|;
    var rest := text[p..];
    var colon := SkipSpaces(rest, k, limit - p);
    var value := SkipSpaces(rest, colon + 1, limit - p);
    assert forall j | k <= j < colon :: rest[j] == text[p + j];
    assert forall j | colon < j < value :: rest[j] == text[p + j];
    assert text[p + colon] == ':';
    assert p + colon == q + k + mid;
    assert rest[k - 1] == text[p + k - 1] == '"' && text[q..][k - 1] == text[q + k - 1] == '"';
  }

  lemma FoundIsMetFirst(d: Doc, key: string)
    requires DocOk(d) && Has(d.members, key) && StartsRight(d, key)
    ensures MeetsMember(d, key)
  {
    hide SearchKey, Meets, PrintDoc, Body, Front, Found, DocOk, Has, IsSpace, AllBlank, Target, Quoted, SkipSpaces,
         KeyAt, KeyStands, MeetsMember, MeetsKey, NoneMetBefore;
    BodyWithin(d);
    var text, limit, q := PrintDoc(d)[|d.head|..], 1 + |Body(d)|, KeyAt(d, key);
    var before, behind := CutAtKey(d, key);
    var m := Found(d.members, key);
    var p := FoundWhereMet(OUTSIDE, text, limit, key);
    MeetsWithin(OUTSIDE, text, limit, key, p);
    KeyAtIs(d, key);
    LayoutAtKey(text, before, key, m, behind);
    OnePlace(text, key, limit, p, q, |m.mid|, |m.pad|);
    MeetsMemberIs(d, key);
  }

  lemma LayoutAtKey(text: string, before: string, key: string, m: Member, behind: string)
    requires text == before + (Quoted(key) + (m.mid + (":" + (m.pad + behind)))) && AllBlank(m.mid) && AllBlank(m.pad)
    ensures
      var q, mid, pad := |before|, |m.mid|, |m.pad|;
      && q + |Quoted(key)| + mid + 1 + pad <= |text|
      && Quoted(key) <= text[q..] && text[q + |Quoted(key)| + mid] == ':'
      && (forall j | q + |Quoted(key)| <= j < q + |Quoted(key)| + mid :: IsSpace(text[j]))
      && (forall j | q + |Quoted(key)| + mid < j < q + |Quoted(key)| + mid + 1 + pad :: IsSpace(text[j]))
  {
    hide Quoted, AllBlank;
    BlankIsPlain(m.mid);
    BlankIsPlain(m.pad);
    var q, k, mid, pad := |before|, |Quoted(key)|, |m.mid|, |m.pad|;
    assert text[q..] == Quoted(key) + (m.mid + (":" + (m.pad + behind)));
    assert forall j | q + k <= j < q + k + mid :: text[j] == m.mid[j - q - k];
    assert forall j | q + k + mid < j < q + k + mid + 1 + pad :: text[j] == m.pad[j - q - k - mid - 1];
  }

  lemma NothingFoundIsNothingMet(d: Doc, key: string)
    requires !Has(d.members, key)
    ensures StartsRight(d, key) <==> MeetsNothing(d, key)
  {
    hide SearchKey, Meets, PrintDoc, Body, Has, Target, NoneMetBefore;
    BodyWithin(d);
    var text, limit := PrintDoc(d)[|d.head|..], 1 + |Body(d)|;
    if SearchKey(OUTSIDE, text, limit, key).Some? {
      var n := FoundWhereMet(OUTSIDE, text, limit, key);
      assert MeetsKey(d, key, n);
    } else if n: nat :| MeetsKey(d, key, n) {
      var first := FirstMet(OUTSIDE, text, limit, key, n);
      MetIsFound(OUTSIDE, text, limit, key, first);
    }
  }

  lemma {:induction false} FirstMet(s: Scan, text: string, limit: nat, key: string, n: nat) returns (first: nat)
    requires limit <= |text| && Meets(s, text, limit, key, n)
    ensures Meets(s, text, limit, key, first) && NoneMetBefore(s, text, limit, key, first)
  {
    hide Meets;
    if j: nat :| j < n && Meets(s, text, limit, key, j) {
      first := FirstMet(s, text, limit, key, j);
    } else {
      first := n;
    }
  }

  /**
   * Where the object has the key: set_value is the update for all values if and only if the first
   * position at which its scan meets the key is that of the key's first member.
   */
  lemma UpdatesIffArriving(d: Doc, key: string)
    requires DocOk(d) && NoEscapes(key) && Has(d.members, key)
    ensures MeetsMember(d, key) <==>
            forall value | Value(value) :: Edited(PrintDoc(d), key, Print(value)) == PrintDoc(Update(d, key, value))
  {
    hide *;
    UpdatesIffFound(d, key);
    if MeetsMember(d, key) { MetFirstIsFound(d, key); }
    if StartsRight(d, key) { FoundIsMetFirst(d, key); }
  }

  /**
   * Where the object does not have the key: set_value appends it, for all values, if and only if
   * nowhere between the braces the scan, outside quotes and at depth one, meets the quoted key,
   * blanks and a colon.
   */
  lemma UpdatesIffUnmet(d: Doc, key: string)
    requires DocOk(d) && NoEscapes(key) && !Has(d.members, key)
    ensures MeetsNothing(d, key) <==>
            forall value | Value(value) :: Edited(PrintDoc(d), key, Print(value)) == PrintDoc(Update(d, key, value))
  {
    hide *;
    UpdatesIffFound(d, key);
    NothingFoundIsNothingMet(d, key);
  }

  /** The scan meets the key first at the key's first member, or nowhere where no member has it. */
  ghost predicate MeetsRight(d: Doc, key: string) {
    if Has(d.members, key) then MeetsMember(d, key) else MeetsNothing(d, key)
  }

  /**
   * For every object and every key that is a plain word: set_value is the update of the object for
   * all values if and only if its scan meets the key first at the key's first member, or nowhere
   * where the object has no such member.
   */
  lemma UpdatesExactlyWhen(d: Doc, key: string)
    requires DocOk(d) && NoEscapes(key)
    ensures MeetsRight(d, key) <==>
            forall value | Value(value) :: Edited(PrintDoc(d), key, Print(value)) == PrintDoc(Update(d, key, value))
  {
    hide MeetsMember, MeetsNothing, DocOk, NoEscapes, Has, Edited, PrintDoc, Print, Update, Value;
    if Has(d.members, key) { UpdatesIffArriving(d, key); } else { UpdatesIffUnmet(d, key); }
  }

  /** Where it does not, one of the values 0 and 1 shows it. */
  lemma WrongDigitIsSeen(d: Doc, key: string) returns (value: Text)
    requires DocOk(d) && NoEscapes(key) && !MeetsRight(d, key)
    ensures value == Char('0', End) || value == Char('1', End)
    ensures Value(value) && Edited(PrintDoc(d), key, Print(value)) != PrintDoc(Update(d, key, value))
  {
    hide MeetsMember, MeetsNothing, StartsRight, DocOk, NoEscapes, Has, Edited, PrintDoc, Print, Update, Value;
    if StartsRight(d, key) {
      if Has(d.members, key) { FoundIsMetFirst(d, key); } else { NothingFoundIsNothingMet(d, key); }
    }
    value := WrongStartIsSeen(d, key);
  }
}
