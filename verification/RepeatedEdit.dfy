/** When set_value settles: a second edit changes nothing, and the file does not grow. */
module RepeatedEdit {
  import opened Wrappers
  import opened JsonScanner
  import opened JsonText
  import opened JsonStrings
  import opened DriverSettings
  import opened SettingsFile
  import opened MemberEdit
  import opened ObjectUpdate
  import opened EditCondition
  import opened ObjectParsing

  lemma PlainKeyFits(key: string)
    requires PlainKey(key)
    ensures NoEscapes(key) && forall i | 0 <= i < |key| :: key[i] != '\n'
  {}

  // ---------- The key and its colon, by positions ----------

  /** The quoted key stands at j, and behind it only blanks up to the colon at c. */
  predicate Spelled(text: string, limit: nat, key: string, j: nat, c: nat) {
    && j + |Quoted(key)| <= c < limit <= |text| && TokenAt(text, key, j) && text[c] == ':'
    && forall i | j + |Quoted(key)| <= i < c :: IsSpace(text[i])
  }

  lemma StandsSpelled(text: string, limit: nat, key: string, j: nat) returns (c: nat)
    requires j <= limit <= |text| && KeyStands(text[j..], limit - j, key)
    ensures Spelled(text, limit, key, j, c)
  {
    hide Quoted, TokenAt;
    TokenIsPrefix(text, key, j);
    var rest := text[j..];
    c := j + SkipSpaces(rest, |Quoted(key)|, limit - j);
    assert forall i | j + |Quoted(key)| <= i < c :: IsSpace(rest[i - j]) && text[i] == rest[i - j];
  }

  lemma SpelledStands(text: string, limit: nat, key: string, j: nat, c: nat)
    requires Spelled(text, limit, key, j, c)
    ensures KeyStands(text[j..], limit - j, key)
  {
    hide Quoted, TokenAt;
    TokenIsPrefix(text, key, j);
    var rest := text[j..];
    SkipsTo(rest, |Quoted(key)|, c - j, limit - j);
  }

  lemma {:induction false} SkipsTo(text: string, i: nat, c: nat, limit: nat)
    requires i <= c < limit <= |text| && !IsSpace(text[c]) && forall k | i <= k < c :: IsSpace(text[k])
    ensures SkipSpaces(text, i, limit) == c
    decreases c - i
  {
    if i < c { SkipsTo(text, i + 1, c, limit); }
  }

  lemma TokenQuote(text: string, key: string, i: nat)
    requires TokenAt(text, key, i)
    ensures |Quoted(key)| == |key| + 2 && i + |key| + 2 <= |text|
    ensures text[i] == '"' && text[i + |key| + 1] == '"'
    ensures forall p | i < p < i + |key| + 1 :: text[p] == key[p - i - 1]
  {
    var token := text[i..i + |Quoted(key)|];
    assert forall p | i <= p < i + |Quoted(key)| :: text[p] == token[p - i];
  }

  /** A token ends with the first quote behind its own. */
  lemma TokenEnds(text: string, key: string, i: nat, n: nat)
    requires NoEscapes(key) && TokenAt(text, key, i) && i < n < |text| && text[n] == '"'
    ensures i + |Quoted(key)| <= n + 1
  {
    hide TokenAt;
    TokenQuote(text, key, i);
  }

  /** A token does not reach over a line break. */
  lemma TokenBreaks(text: string, key: string, i: nat, n: nat)
    requires PlainKey(key) && TokenAt(text, key, i) && i <= n < |text| && text[n] == '\n'
    ensures i + |Quoted(key)| <= n
  {
    hide TokenAt;
    TokenQuote(text, key, i);
  }

  // ---------- Two texts with a common front ----------

  lemma TokenElsewhere(b: string, x: string, y: string, key: string, j: nat)
    requires j + |Quoted(key)| <= |b|
    ensures TokenAt(b + x, key, j) == TokenAt(b + y, key, j)
  {
    hide Quoted;
    assert (b + x)[j..j + |Quoted(key)|] == b[j..j + |Quoted(key)|] == (b + y)[j..j + |Quoted(key)|];
  }

  lemma SpelledElsewhere(b: string, x: string, y: string, limit: nat, other: nat, key: string, j: nat, c: nat)
    requires Spelled(b + x, limit, key, j, c) && c < |b| <= other <= |b + y|
    ensures Spelled(b + y, other, key, j, c)
  {
    hide Quoted, TokenAt;
    TokenElsewhere(b, x, y, key, j);
    assert forall i | j <= i < |b| :: (b + x)[i] == b[i] == (b + y)[i];
  }

  /** No token of the longer text reaches out of its front. */
  ghost predicate Contained(b: string, x: string, key: string, n: nat) {
    forall i: nat | i < n && TokenAt(b + x, key, i) :: i + |Quoted(key)| <= |b|
  }

  /** The scan of a text stands where the scan of its front does, if no token reaches out of the front. */
  lemma {:induction false} StandingInFront(s: Scan, b: string, x: string, key: string, n: nat)
    requires n <= |b| && Contained(b, x, key, n)
    ensures Standing(s, b + x, key, n) == Standing(s, b, key, n)
    decreases n
  {
    hide Quoted, TokenAt, Feed;
    if n > 0 {
      var rest := b[1..];
      assert (b + x)[1..] == rest + x;
      OnwardInFront(s, b, x, key, n);
      forall i: nat | i < n - 1 && TokenAt(rest + x, key, i) ensures i + |Quoted(key)| <= |rest| {
        TokenFurther(b + x, key, i);
      }
      StandingInFront(Onward(s, b, key), rest, x, key, n - 1);
    }
  }

  lemma TokenFurther(text: string, key: string, i: nat)
    requires text != []
    ensures TokenAt(text[1..], key, i) == TokenAt(text, key, i + 1)
  {
    hide Quoted;
    if i + |Quoted(key)| <= |text[1..]| {
      assert text[1..][i..i + |Quoted(key)|] == text[i + 1..i + 1 + |Quoted(key)|];
    }
  }

  lemma OnwardInFront(s: Scan, b: string, x: string, key: string, n: nat)
    requires 0 < n <= |b| && Contained(b, x, key, n)
    ensures Onward(s, b + x, key) == Onward(s, b, key)
  {
    hide Quoted, TokenAt, Feed;
    assert (b + x)[0..] == b + x && b[0..] == b && (b + x)[0] == b[0];
    TokenIsPrefix(b + x, key, 0);
    TokenIsPrefix(b, key, 0);
    if |Quoted(key)| <= |b| {
      TokenElsewhere(b, x, [], key, 0);
      assert b + [] == b;
    } else {
      TooLong(b, key, 0);
    }
  }

  lemma TooLong(b: string, key: string, i: nat)
    requires i + |Quoted(key)| > |b|
    ensures !TokenAt(b, key, i)
  {}

  /** In front of a quote no token reaches out, so the scans of both texts stand the same there. */
  lemma StandingAtQuote(s: Scan, b: string, x: string, y: string, key: string, n: nat)
    requires NoEscapes(key) && n < |b| && b[n] == '"'
    ensures Standing(s, b + x, key, n) == Standing(s, b + y, key, n) == Standing(s, b, key, n)
  {
    hide Quoted, TokenAt, Standing;
    forall i: nat | i < n && TokenAt(b + x, key, i) ensures i + |Quoted(key)| <= |b| { TokenEnds(b + x, key, i, n); }
    forall i: nat | i < n && TokenAt(b + y, key, i) ensures i + |Quoted(key)| <= |b| { TokenEnds(b + y, key, i, n); }
    StandingInFront(s, b, x, key, n);
    StandingInFront(s, b, y, key, n);
  }

  /** What one text meets within the common front, up to the colon, the other meets too. */
  lemma MeetsElsewhere(s: Scan, b: string, x: string, y: string, limit: nat, other: nat, key: string, j: nat)
    requires NoEscapes(key) && |b| <= limit <= |b + x| && |b| <= other <= |b + y|
    requires Meets(s, b + x, limit, key, j)
    requires forall c: nat | Spelled(b + x, limit, key, j, c) :: c < |b|
    ensures Meets(s, b + y, other, key, j)
  {
    hide Quoted, TokenAt, Standing, KeyStands, Spelled;
    MeetsWithin(s, b + x, limit, key, j);
    var c := StandsSpelled(b + x, limit, key, j);
    SpelledInFront(b + x, limit, key, j, c);
    assert (b + x)[j] == b[j];
    StandingAtQuote(s, b, x, y, key, j);
    SpelledElsewhere(b, x, y, limit, other, key, j, c);
    SpelledStands(b + y, other, key, j, c);
  }

  lemma SpelledInFront(text: string, limit: nat, key: string, j: nat, c: nat)
    requires Spelled(text, limit, key, j, c)
    ensures j < c && text[j] == '"'
  {
    TokenQuote(text, key, j);
  }

  // ---------- The key is there: its value is replaced ----------

  lemma {:induction false} FrontReplaced(ms: seq<Member>, key: string, value: Text)
    requires Has(ms, key)
    ensures
      var after := Replace(ms, key, value);
      Has(after, key) && Front(after, key) == Front(ms, key) && Found(after, key) == Found(ms, key).(value := value)
  {
    hide PrintMember;
    var after := Replace(ms, key, value);
    if ms[0].key == key {
      assert after[0].key == key;
    } else {
      FrontReplaced(ms[1..], key, value);
      var rest := Replace(ms[1..], key, value);
      assert after[1..] == rest && after[0] == ms[0];
      var i :| 0 <= i < |rest| && rest[i].key == key;
      assert after[i + 1].key == key;
    }
  }

  /** The object's text from its brace on, cut in front of the value of the key's first member. */
  function UpToValue(d: Doc, key: string): string
    requires Has(d.members, key)
  {
    "{" + Front(d.members, key)
  }

  lemma ValueBehind(d: Doc, key: string) returns (behind: string)
    requires DocOk(d) && Has(d.members, key)
    ensures PrintDoc(d)[|d.head|..] == UpToValue(d, key) + behind
    ensures |UpToValue(d, key)| <= 1 + |Body(d)| <= |UpToValue(d, key) + behind|
  {
    hide Print, Front, Found, Behind, MembersOk;
    var m := Found(d.members, key);
    AroundFound(d.members, key);
    behind := Print(m.value) + (Behind(d.members, key) + ("}" + d.tail));
    CutAtValue(d.head, Front(d.members, key), Print(m.value), Behind(d.members, key), "}" + d.tail);
  }

  /** How the cut text ends: the quoted key, blanks, a colon, blanks. */
  lemma CutText(d: Doc, key: string)
    requires DocOk(d) && Has(d.members, key)
    ensures
      var m, b, n := Found(d.members, key), UpToValue(d, key), KeyAt(d, key);
      var r := n + |key| + 1;
      var colon := r + 1 + |m.mid|;
      && 0 <= n && colon < |b|
      && b[n] == '"' && b[r] == '"' && b[colon] == ':'
  {
    hide Front, Found, MembersOk, Has;
    var m := Found(d.members, key);
    var before := FrontEnds(d.members, key);
    var b := UpToValue(d, key);
    assert b == "{" + (before + (m.lead + (Quoted(key) + (m.mid + (":" + m.pad))))) by {
      assert HeadOf(m) == m.lead + (Quoted(key) + (m.mid + (":" + m.pad)));
    }
  }

  lemma MeetsKeyIs(d: Doc, key: string, n: nat, text: string, limit: nat)
    requires text == PrintDoc(d)[|d.head|..] && limit == 1 + |Body(d)| <= |text|
    ensures MeetsKey(d, key, n) == Meets(OUTSIDE, text, limit, key, n)
  {}

  /** What is met up to the key does not depend on the value behind it. */
  lemma MeetsWithValue(d: Doc, e: Doc, key: string, j: nat)
    requires DocOk(d) && DocOk(e) && NoEscapes(key) && Has(d.members, key) && Has(e.members, key)
    requires UpToValue(d, key) == UpToValue(e, key)
    requires j <= KeyAt(d, key) && MeetsKey(d, key, j)
    ensures MeetsKey(e, key, j)
  {
    hide Quoted, TokenAt, Meets, PrintDoc, Body, UpToValue, KeyAt, DocOk, Has, Found, Spelled, MeetsKey;
    var b, n := UpToValue(d, key), KeyAt(d, key);
    var x := ValueBehind(d, key);
    var y := ValueBehind(e, key);
    CutText(d, key);
    var limit, other := 1 + |Body(d)|, 1 + |Body(e)|;
    MeetsKeyIs(d, key, j, b + x, limit);
    MeetsKeyIs(e, key, j, b + y, other);
    forall c: nat | Spelled(b + x, limit, key, j, c) ensures c < |b| {
      ColonInFront(d, key, b, x, limit, j, c);
    }
    MeetsElsewhere(OUTSIDE, b, x, y, limit, other, key, j);
  }

  lemma ColonInFront(d: Doc, key: string, b: string, x: string, limit: nat, j: nat, c: nat)
    requires DocOk(d) && NoEscapes(key) && Has(d.members, key) && b == UpToValue(d, key)
    requires j <= KeyAt(d, key) && Spelled(b + x, limit, key, j, c)
    ensures c < |b|
  {
    hide TokenAt, UpToValue, KeyAt, DocOk, Has, Found, Quoted;
    CutText(d, key);
    var n := KeyAt(d, key);
    var r := n + |key| + 1;
    var colon := r + 1 + |Found(d.members, key).mid|;
    TokenQuote(b + x, key, j);
    assert (b + x)[n] == b[n] && (b + x)[r] == b[r] && (b + x)[colon] == b[colon];
    if j < n { TokenEnds(b + x, key, j, n); }
    assert !IsSpace('"') && !IsSpace(':');
  }

  /** After a right edit of a member the scan meets it where it did. */
  lemma MetAfterReplace(d: Doc, key: string, value: Text)
    requires DocOk(d) && NoEscapes(key) && Value(value) && Has(d.members, key) && MeetsMember(d, key)
    ensures
      var e := Update(d, key, value);
      DocOk(e) && Has(e.members, key) && MeetsMember(e, key)
  {
    hide Value, NoEscapes, Raw, Front, Found, MeetsKey, Replace, DocOk, Has;
    var e := Update(d, key, value);
    UpdateOk(d, key, value);
    FrontReplaced(d.members, key, value);
    MeetsWithValue(d, e, key, KeyAt(d, key));
    forall j: nat | j < KeyAt(e, key) ensures !MeetsKey(e, key, j) {
      if MeetsKey(e, key, j) { MeetsWithValue(e, d, key, j); }
    }
  }

  // ---------- The key is not there: a member is appended ----------

  /** The object's text up to its closing brace. */
  function UpToClose(d: Doc): string { "{" + Body(d) }

  /** At its closing brace the scan of the object is outside quotes and at depth one. */
  ghost predicate EndsOutside(d: Doc, key: string) {
    OutsideQuotesAtDepthOne(Standing(OUTSIDE, UpToClose(d), key, |UpToClose(d)|))
  }

  function MemberLead(d: Doc): string { if AllBlank(Body(d)) then "\n      " else ",\n      " }

  /** What stands behind the separator once the member is there. */
  function Appendix(d: Doc, key: string, value: string): string {
    Quoted(key) + (" : " + (value + ("\n" + ("}" + d.tail))))
  }

  lemma AddedBehind(d: Doc, key: string, value: Text)
    requires DocOk(d) && !Has(d.members, key)
    ensures
      var e := Update(d, key, value);
      && PrintDoc(e)[|e.head|..] == UpToClose(d) + (MemberLead(d) + Appendix(d, key, Print(value)))
      && 1 + |Body(e)| == |UpToClose(d)| + |MemberLead(d)| + |Quoted(key)| + 4 + |Print(value)|
  {
    hide Print, Body, DocOk, Has, Quoted, Appended, NewMember, AllBlank, Appendix;
    var e := Update(d, key, value);
    AppendixIs(d, key, Print(value));
    AddedText(d, key, value);
    AppendedParts(d.head, Body(d), MemberLead(d), key, Print(value), d.tail);
    AppendedIs(d.head, Body(d), "}" + d.tail, key, Print(value));
    assert |PrintDoc(e)| == |e.head| + 1 + |Body(e)| + 1 + |e.tail|;
  }

  lemma AppendixIs(d: Doc, key: string, value: string)
    ensures Appendix(d, key, value) == Quoted(key) + (" : " + (value + ("\n" + ("}" + d.tail))))
  {}

  lemma AppendedParts(head: string, body: string, separator: string, key: string, value: string, tail: string)
    ensures
      var text := head + ("{" + ((body + (separator + NewMember(key, value))) + ("}" + tail)));
      && text[|head|..] == ("{" + body) + (separator + (Quoted(key) + (" : " + (value + ("\n" + ("}" + tail))))))
      && |text| == |head| + 1 + |body| + |separator| + |Quoted(key)| + 4 + |value| + 1 + |tail|
  {}

  lemma {:induction false} FrontAdded(ms: seq<Member>, m: Member)
    requires !Has(ms, m.key)
    ensures
      var after := ms + [m];
      && Has(after, m.key) && Found(after, m.key) == m
      && Front(after, m.key) == PrintMembers(ms) + ((if ms == [] then "" else ",") + HeadOf(m))
    decreases |ms|
  {
    hide PrintMember, HeadOf;
    var after := ms + [m];
    assert after[|ms|].key == m.key;
    if ms != [] {
      assert after[1..] == ms[1..] + [m] && after[0] == ms[0];
      forall i | 0 <= i < |ms[1..]| ensures ms[1..][i].key != m.key { assert ms[1..][i] == ms[i + 1]; }
      FrontAdded(ms[1..], m);
      FrontPieces(PrintMember(ms[0]), Comma(ms), PrintMembers(ms[1..]), if |ms| == 1 then "" else ",", HeadOf(m));
    }
  }

  lemma FrontPieces(a: string, comma: string, b: string, separator: string, c: string)
    requires comma == separator && (separator == "," || (separator == "" && b == ""))
    ensures a + ("," + (b + (separator + c))) == (a + (comma + b)) + ("," + c)
  {
    if separator == "," {
      assert a + ("," + (b + ("," + c))) == (a + ("," + b)) + ("," + c);
    } else {
      assert b + (separator + c) == c && a + (comma + b) == a;
    }
  }

  /** Where the appended key stands. */
  lemma KeyAtAdded(d: Doc, key: string, value: Text)
    requires DocOk(d) && !Has(d.members, key)
    ensures
      var e := Update(d, key, value);
      Has(e.members, key) && KeyAt(e, key) == |UpToClose(d)| + |MemberLead(d)|
  {
    hide Print, PrintMember, AllBlank, Has;
    var m := Update(d, key, value).members[|d.members|];
    assert Update(d, key, value).members == d.members + [m];
    FrontAdded(d.members, m);
    if d.members != [] { NotAllBlank(d.members); }
  }

  /** The separator holds no quote, no brace, no backslash and no colon, and it is not all blank behind a member. */
  lemma MemberLeadIs(d: Doc)
    ensures
      var t := MemberLead(d);
      && |t| >= 7
      && (forall i | 0 <= i < |t| :: t[i] != '"' && t[i] != '{' && t[i] != '}' && t[i] != '\\' && t[i] != ':')
      && (AllBlank(Body(d)) ==> t[0] == '\n')
      && (!AllBlank(Body(d)) ==> t[0] == ',' && t[1] == '\n')
  {
    hide AllBlank;
  }

  /** No token of the edited text reaches from the old members into what is appended. */
  lemma TokensStay(d: Doc, key: string, x: string, i: nat)
    requires PlainKey(key) && i < |UpToClose(d)| && TokenAt(UpToClose(d) + (MemberLead(d) + x), key, i)
    ensures i + |Quoted(key)| <= |UpToClose(d)|
  {
    hide Quoted, TokenAt, UpToClose, MemberLead, AllBlank, Body;
    MemberLeadIs(d);
    var b, t := UpToClose(d), MemberLead(d);
    var text := b + (t + x);
    assert text[|b|] == t[0] && text[|b| + 1] == t[1];
    TokenQuote(text, key, i);
    TokenBreaks(text, key, i, if t[0] == '\n' then |b| else |b| + 1);
  }

  lemma {:induction false} StandingFurther(s: Scan, text: string, key: string, n: nat)
    requires n < |text|
    ensures Standing(s, text, key, n + 1) == Onward(Standing(s, text, key, n), text[n..], key)
    decreases n
  {
    hide Onward;
    if n == 0 {
      assert text[0..] == text;
    } else {
      StandingFurther(Onward(s, text, key), text[1..], key, n - 1);
      assert text[1..][n - 1..] == text[n..];
    }
  }

  /** Characters that mean nothing to the scan do not move it in or out of quotes. */
  lemma {:induction false} StandingPasses(s: Scan, text: string, key: string, n: nat, m: nat)
    requires n <= m <= |text|
    requires forall i | n <= i < m :: text[i] != '"' && text[i] != '{' && text[i] != '}'
    ensures OutsideQuotesAtDepthOne(Standing(s, text, key, n)) == OutsideQuotesAtDepthOne(Standing(s, text, key, m))
    decreases m - n
  {
    hide Standing;
    if n < m {
      StandingFurther(s, text, key, n);
      StandingPasses(s, text, key, n + 1, m);
    }
  }

  /** The scan reaches the appended key as it left the object before. */
  lemma StandingAtAdded(d: Doc, key: string, x: string)
    requires PlainKey(key)
    ensures
      var b, t := UpToClose(d), MemberLead(d);
      OutsideQuotesAtDepthOne(Standing(OUTSIDE, b + (t + x), key, |b| + |t|)) <==> EndsOutside(d, key)
  {
    hide Quoted, TokenAt, UpToClose, MemberLead, Standing, AllBlank, Body, PlainKey, OutsideQuotesAtDepthOne;
    var b, t := UpToClose(d), MemberLead(d);
    forall i: nat | i < |b| && TokenAt(b + (t + x), key, i) ensures i + |Quoted(key)| <= |b| {
      TokensStay(d, key, x, i);
    }
    StandingInFront(OUTSIDE, b, t + x, key, |b|);
    MemberLeadIs(d);
    assert forall i | |b| <= i < |b| + |t| :: (b + (t + x))[i] == t[i - |b|];
    StandingPasses(OUTSIDE, b + (t + x), key, |b|, |b| + |t|);
  }

  lemma BlankHasNoQuote(d: Doc, j: nat)
    requires AllBlank(Body(d)) && j < |UpToClose(d)|
    ensures UpToClose(d)[j] != '"'
  {
    hide AllBlank, Body;
    BlankIsPlain(Body(d));
  }

  /** A colon that is met from the old members stands among them. */
  lemma ColonStays(d: Doc, key: string, value: string, limit: nat, j: nat, c: nat)
    requires PlainKey(key) && j < |UpToClose(d)|
    requires Spelled(UpToClose(d) + (MemberLead(d) + Appendix(d, key, value)), limit, key, j, c)
    ensures c < |UpToClose(d)|
  {
    hide TokenAt, UpToClose, MemberLead, AllBlank, Body, Quoted;
    var b, t, x := UpToClose(d), MemberLead(d), Appendix(d, key, value);
    var text := b + (t + x);
    MemberLeadIs(d);
    TokensStay(d, key, x, j);
    TokenQuote(text, key, j);
    AppendixSpells(d, key, value);
    assert forall i | |b| <= i < |b| + |t| :: text[i] == t[i - |b|];
    assert text[|b| + |t|] == x[0] && text[j] == b[j];
    if AllBlank(Body(d)) { BlankHasNoQuote(d, j); }
    assert !IsSpace(',') && !IsSpace('"');
    assert text[|b|] == t[0];
  }

  lemma AppendixSpells(d: Doc, key: string, value: string)
    ensures
      var x, k := Appendix(d, key, value), |Quoted(key)|;
      && k == |key| + 2 && |x| >= k + 5 + |value| && x[..k] == Quoted(key) && x[0] == '"' && x[k - 1] == '"'
      && x[k] == ' ' && x[k + 1] == ':' && x[k + 2] == ' ' && x[k + 3..k + 3 + |value|] == value
      && x[k + 3 + |value|] == '\n'
      && forall i | 0 < i < k - 1 :: x[i] == key[i - 1]
  {}

  /** Nothing is met before the appended key, if nothing was before. */
  lemma NothingBeforeAdded(d: Doc, key: string, value: string, limit: nat, j: nat)
    requires DocOk(d) && PlainKey(key) && MeetsNothing(d, key) && j < |UpToClose(d)| + |MemberLead(d)|
    requires |UpToClose(d)| <= limit <= |UpToClose(d) + (MemberLead(d) + Appendix(d, key, value))|
    ensures !Meets(OUTSIDE, UpToClose(d) + (MemberLead(d) + Appendix(d, key, value)), limit, key, j)
  {
    hide Quoted, TokenAt, Meets, MemberLead, Appendix, Spelled, PlainKey, MeetsKey, AllBlank, NoEscapes;
    var b, t, x, y := UpToClose(d), MemberLead(d), Appendix(d, key, value), "}" + d.tail;
    assert PrintDoc(d)[|d.head|..] == b + y;
    PlainKeyFits(key);
    MeetsKeyIs(d, key, j, b + y, |b|);
    assert !MeetsKey(d, key, j);
    if Meets(OUTSIDE, b + (t + x), limit, key, j) {
      AddedIsBehind(d, key, value, limit, j);
      forall c: nat | Spelled(b + (t + x), limit, key, j, c) ensures c < |b| { ColonStays(d, key, value, limit, j, c); }
      MeetsElsewhere(OUTSIDE, b, t + x, y, limit, |b|, key, j);
    }
  }

  lemma AddedIsBehind(d: Doc, key: string, value: string, limit: nat, j: nat)
    requires j < |UpToClose(d)| + |MemberLead(d)|
    requires limit <= |UpToClose(d) + (MemberLead(d) + Appendix(d, key, value))|
    requires Meets(OUTSIDE, UpToClose(d) + (MemberLead(d) + Appendix(d, key, value)), limit, key, j)
    ensures j < |UpToClose(d)|
  {
    hide Quoted, TokenAt, Standing, KeyStands, MemberLead, Appendix, UpToClose, AllBlank, Body;
    var b, t := UpToClose(d), MemberLead(d);
    var text := b + (t + Appendix(d, key, value));
    var c := StandsSpelled(text, limit, key, j);
    SpelledInFront(text, limit, key, j, c);
    MemberLeadIs(d);
    assert forall i | |b| <= i < |b| + |t| :: text[i] == t[i - |b|];
  }

  /** At the appended key it is met exactly if the scan is outside quotes and at depth one there. */
  lemma MetAtAdded(d: Doc, key: string, value: string, limit: nat)
    requires PlainKey(key) && limit == |UpToClose(d)| + |MemberLead(d)| + |Quoted(key)| + 4 + |value|
    ensures
      var text := UpToClose(d) + (MemberLead(d) + Appendix(d, key, value));
      && limit <= |text|
      && (Meets(OUTSIDE, text, limit, key, |UpToClose(d)| + |MemberLead(d)|) <==> EndsOutside(d, key))
  {
    hide Quoted, Standing, KeyStands, MemberLead, Appendix, UpToClose, EndsOutside, OutsideQuotesAtDepthOne;
    var b, t, x := UpToClose(d), MemberLead(d), Appendix(d, key, value);
    var text, q := b + (t + x), |b| + |t|;
    AppendixSpells(d, key, value);
    StandingAtAdded(d, key, x);
    assert forall i | q <= i < q + |x| :: text[i] == x[i - q];
    assert text[q..q + |Quoted(key)|] == x[..|Quoted(key)|];
    SpelledStands(text, limit, key, q, q + |Quoted(key)| + 1);
  }

  /** Where nothing was met: the appended member is met if and only if the scan of the object ended outside quotes. */
  lemma MetAfterAppend(d: Doc, key: string, value: Text)
    requires DocOk(d) && PlainKey(key) && !Has(d.members, key) && MeetsNothing(d, key)
    ensures
      var e := Update(d, key, value);
      Has(e.members, key) && (MeetsMember(e, key) <==> EndsOutside(d, key))
  {
    hide Quoted, Meets, MemberLead, Appendix, UpToClose, EndsOutside, PlainKey, DocOk, Has, MeetsNothing, PrintDoc,
         Body, KeyAt, MeetsKey, Print, Update;
    var e := Update(d, key, value);
    AddedBehind(d, key, value);
    KeyAtAdded(d, key, value);
    var text := UpToClose(d) + (MemberLead(d) + Appendix(d, key, Print(value)));
    var limit, q := 1 + |Body(e)|, |UpToClose(d)| + |MemberLead(d)|;
    MetAtAdded(d, key, Print(value), limit);
    MeetsKeyIs(e, key, q, text, limit);
    forall j: nat | j < q ensures !MeetsKey(e, key, j) {
      MeetsKeyIs(e, key, j, text, limit);
      NothingBeforeAdded(d, key, Print(value), limit, j);
    }
  }

  // ---------- When it settles ----------

  /**
   * The scan meets the key right, and where the key is not there yet, it ends outside quotes and
   * at depth one at the object's closing brace.
   */
  ghost predicate Settles(d: Doc, key: string) {
    MeetsRight(d, key) && (Has(d.members, key) || EndsOutside(d, key))
  }

  lemma HasAfterUpdate(d: Doc, key: string, value: Text)
    ensures Has(Update(d, key, value).members, key)
  {
    var e := Update(d, key, value);
    if Has(d.members, key) {
      FrontReplaced(d.members, key, value);
    } else {
      assert e.members[|d.members|].key == key;
    }
  }

  /** One edit keeps it: whatever is written next is written to the same member. */
  lemma SettlesKept(d: Doc, key: string, value: Text)
    requires DocOk(d) && PlainKey(key) && Value(value) && Settles(d, key)
    ensures
      var e := Update(d, key, value);
      DocOk(e) && Has(e.members, key) && Settles(e, key)
  {
    hide MeetsMember, MeetsNothing, EndsOutside, DocOk, PlainKey, Value, Has, Update;
    PlainKeyFits(key);
    UpdateOk(d, key, value);
    if Has(d.members, key) { MetAfterReplace(d, key, value); } else { MetAfterAppend(d, key, value); }
  }

  lemma {:induction false} ReplacedAgain(ms: seq<Member>, key: string, value: Text, other: Text)
    ensures Replace(Replace(ms, key, value), key, other) == Replace(ms, key, other)
  {
    if ms != [] {
      var after := Replace(ms, key, value);
      if ms[0].key == key {
        assert after[1..] == ms[1..] && after[0].key == key;
      } else {
        ReplacedAgain(ms[1..], key, value, other);
        assert after[1..] == Replace(ms[1..], key, value) && after[0] == ms[0];
      }
    }
  }

  lemma {:induction false} ReplacedAdded(ms: seq<Member>, m: Member, other: Text)
    requires !Has(ms, m.key)
    ensures Replace(ms + [m], m.key, other) == ms + [m.(value := other)]
    decreases |ms|
  {
    var after := ms + [m];
    if ms == [] {
      assert after == [m] && after[1..] == [];
    } else {
      assert ms[0].key != m.key;
      assert after[1..] == ms[1..] + [m] && after[0] == ms[0];
      forall i | 0 <= i < |ms[1..]| ensures ms[1..][i].key != m.key { assert ms[1..][i] == ms[i + 1]; }
      ReplacedAdded(ms[1..], m, other);
      assert ms == [ms[0]] + ms[1..];
    }
  }

  /** The later of two updates is the one that counts. */
  lemma UpdatedAgain(d: Doc, key: string, value: Text, other: Text)
    ensures Update(Update(d, key, value), key, other) == Update(d, key, other)
  {
    HasAfterUpdate(d, key, value);
    if Has(d.members, key) {
      ReplacedAgain(d.members, key, value, other);
    } else {
      var m := Update(d, key, value).members[|d.members|];
      ReplacedAdded(d.members, m, other);
    }
  }

  /** Of two edits with a key that settles only the later one counts, and so on for any number. */
  lemma LastEditCounts(d: Doc, key: string, value: Text, other: Text)
    requires DocOk(d) && PlainKey(key) && Value(value) && Value(other) && Settles(d, key)
    ensures
      var once := Edited(PrintDoc(d), key, Print(value));
      Edited(once, key, Print(other)) == Edited(PrintDoc(d), key, Print(other))
  {
    hide *;
    var e := Update(d, key, value);
    PlainKeyFits(key);
    SettledIsRight(d, key);
    UpdatesExactlyWhen(d, key);
    SettlesKept(d, key, value);
    SettledIsRight(e, key);
    UpdatesExactlyWhen(e, key);
    UpdatedAgain(d, key, value, other);
  }

  lemma SettledIsRight(d: Doc, key: string)
    requires Settles(d, key)
    ensures MeetsRight(d, key)
  {
    hide MeetsRight, EndsOutside;
  }

  /** Editing twice is editing once. */
  lemma EditTwice(d: Doc, key: string, value: Text)
    requires DocOk(d) && PlainKey(key) && Value(value) && Settles(d, key)
    ensures
      var once := Edited(PrintDoc(d), key, Print(value));
      Edited(once, key, Print(value)) == once
  {
    hide *;
    LastEditCounts(d, key, value, value);
  }

  // ---------- When it does not ----------

  /** Behind the appended key there is no other place for it. */
  lemma NothingBehindAdded(d: Doc, key: string, limit: nat, j: nat)
    requires PlainKey(key) && limit == |UpToClose(d)| + |MemberLead(d)| + |Quoted(key)| + 5
    requires |UpToClose(d)| + |MemberLead(d)| < j
    ensures
      var text := UpToClose(d) + (MemberLead(d) + Appendix(d, key, "0"));
      limit <= |text| && !Meets(OUTSIDE, text, limit, key, j)
  {
    hide Quoted, TokenAt, Standing, KeyStands, MemberLead, Appendix, UpToClose, OutsideQuotesAtDepthOne;
    var x, q := Appendix(d, key, "0"), |UpToClose(d)| + |MemberLead(d)|;
    var text := UpToClose(d) + (MemberLead(d) + x);
    AppendixSpells(d, key, "0");
    assert forall i | q <= i < q + |x| :: text[i] == x[i - q];
    assert x[|Quoted(key)| + 3..|Quoted(key)| + 4][0] == '0';
    if Meets(OUTSIDE, text, limit, key, j) {
      var c := StandsSpelled(text, limit, key, j);
      TokenQuote(text, key, j);
      TokenBreaks(text, key, j, q + |Quoted(key)| + 4);
    }
  }

  /** Where the scan ends inside quotes, the appended member is not met again, and a second one is appended. */
  lemma EditGrows(d: Doc, key: string)
    requires DocOk(d) && PlainKey(key) && !Has(d.members, key) && MeetsNothing(d, key) && !EndsOutside(d, key)
    ensures
      var once := Edited(PrintDoc(d), key, "0");
      |Edited(once, key, "0")| > |once|
  {
    hide Edited, ValueStart, Appended, PrintDoc, FirstBrace, RootClose, DocOk, Body, Has, MeetsNothing, Meets, Print,
         MemberLead, Appendix, UpToClose, EndsOutside, NoneMetBefore, SearchKey, PlainKey, Update, Quoted;
    var zero := Char('0', End);
    DigitIsValue('0');
    PlainKeyFits(key);
    UpdatesIffUnmet(d, key);
    var e := Update(d, key, zero);
    UpdateOk(d, key, zero);
    var open, close := |e.head|, |e.head| + 1 + |Body(e)|;
    BodyWithin(e);
    BracesOf(e);
    NothingStarts(d, key);
    EditedMissing(PrintDoc(e), key, "0", open, close);
    AppendedIsLonger(PrintDoc(e), key, "0", open, close);
  }

  lemma NothingStarts(d: Doc, key: string)
    requires DocOk(d) && PlainKey(key) && !Has(d.members, key) && MeetsNothing(d, key) && !EndsOutside(d, key)
    ensures
      var e := Update(d, key, Char('0', End));
      && |e.head| + 1 + |Body(e)| < |PrintDoc(e)|
      && ValueStart(PrintDoc(e), key, |e.head|, |e.head| + 1 + |Body(e)|) == None
  {
    hide PrintDoc, DocOk, Body, Has, MeetsNothing, Meets, MemberLead, Appendix, UpToClose, EndsOutside, SearchKey,
         PlainKey, Update, Quoted, NoneMetBefore, Print;
    var zero := Char('0', End);
    var e := Update(d, key, zero);
    DigitIsValue('0');
    AddedBehind(d, key, zero);
    BodyWithin(e);
    var text := UpToClose(d) + (MemberLead(d) + Appendix(d, key, "0"));
    var limit, q := 1 + |Body(e)|, |UpToClose(d)| + |MemberLead(d)|;
    MetAtAdded(d, key, "0", limit);
    if SearchKey(OUTSIDE, text, limit, key).Some? {
      var n := FoundWhereMet(OUTSIDE, text, limit, key);
      if n < q {
        NothingBeforeAdded(d, key, "0", limit, n);
      } else if n > q {
        NothingBehindAdded(d, key, limit, n);
      }
    }
  }

  /**
   * For every object and every key: set_value is the update for all values and a second edit
   * changes nothing, if and only if the scan meets the key right and, where the key is not there
   * yet, ends outside quotes and at depth one.
   */
  lemma SettlesExactlyWhen(d: Doc, key: string)
    requires DocOk(d) && PlainKey(key)
    ensures Settles(d, key) <==>
            forall value | Value(value) ::
              var once := Edited(PrintDoc(d), key, Print(value));
              once == PrintDoc(Update(d, key, value)) && Edited(once, key, Print(value)) == once
  {
    hide MeetsRight, EndsOutside, DocOk, PlainKey, Has, Edited, PrintDoc, Print, Update, Value;
    PlainKeyFits(key);
    UpdatesExactlyWhen(d, key);
    if Settles(d, key) {
      forall value | Value(value)
        ensures
          var once := Edited(PrintDoc(d), key, Print(value));
          Edited(once, key, Print(value)) == once
      {
        EditTwice(d, key, value);
      }
    } else if MeetsRight(d, key) {
      DigitIsValue('0');
      RightIsUnmet(d, key);
      EditGrows(d, key);
      assert Print(Char('0', End)) == "0";
    }
  }

  lemma RightIsUnmet(d: Doc, key: string)
    requires MeetsRight(d, key) && !Has(d.members, key)
    ensures MeetsNothing(d, key)
  {
    hide MeetsNothing;
  }

  /** Without a string that reads like the key it settles. */
  lemma SettlesWithoutStray(d: Doc, key: string)
    requires DocOk(d) && PlainKey(key) && NoStrayBefore(d.members, key)
    ensures Settles(d, key)
  {
    hide *;
    PlainKeyFits(key);
    SettlesExactlyWhen(d, key);
    forall value | Value(value)
      ensures
        var once := Edited(PrintDoc(d), key, Print(value));
        once == PrintDoc(Update(d, key, value)) && Edited(once, key, Print(value)) == once
    {
      EditIsUpdate(d, key, value);
      EditTwiceWithoutStray(d, key, value);
    }
  }
}
