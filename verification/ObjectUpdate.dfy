/** set_value is an update of the object's members, whatever the text around them. */
module ObjectUpdate {
  import opened Wrappers
  import opened JsonScanner
  import opened JsonText
  import opened DriverSettings
  import opened SettingsFile
  import opened MemberEdit

  // ---------- Objects as text ----------

  /** A member with the blanks around its key, colon and value; the key as it stands between its quotes. */
  datatype Member = Member(lead: string, key: string, mid: string, pad: string, value: Text, trail: string)

  /** An object in its text: what precedes its brace, its members, the blanks of an empty one, what follows it. */
  datatype Doc = Doc(head: string, members: seq<Member>, blank: string, tail: string)

  function HeadOf(m: Member): string { m.lead + (Quoted(m.key) + (m.mid + (":" + m.pad))) }

  function PrintMember(m: Member): string { HeadOf(m) + (Print(m.value) + m.trail) }

  function Comma(ms: seq<Member>): string { if |ms| <= 1 then "" else "," }

  function PrintMembers(ms: seq<Member>): string {
    if ms == [] then "" else PrintMember(ms[0]) + (Comma(ms) + PrintMembers(ms[1..]))
  }

  function Body(d: Doc): string { if d.members == [] then d.blank else PrintMembers(d.members) }

  function PrintDoc(d: Doc): string { d.head + ("{" + (Body(d) + ("}" + d.tail))) }

  /** No comma outside strings and groups. */
  predicate Lone(t: Text) {
    match t
    case End => true
    case Char(c, rest) => c != ',' && Lone(rest)
    case Str(_, rest) => Lone(rest)
    case Group(_, _, rest) => Lone(rest)
  }

  /** The blanks of section 2 of RFC 8259 and the two further space characters 11 and 12, by their code points. */
  predicate Space(c: char) { c as int in {9, 10, 11, 12, 13, 32} }

  /** These are the characters that the scanners skip. */
  lemma SpaceIs(c: char)
    ensures IsSpace(c) <==> Space(c)
  {}

  predicate Compact(text: string) {
    text != [] && !Space(text[0]) && !Space(text[|text| - 1])
  }

  /** A single value, with no space before or behind it. */
  predicate Value(t: Text) { WellFormed(t) && Lone(t) && Compact(Print(t)) }

  predicate MemberOk(m: Member) {
    && AllBlank(m.lead) && AllBlank(m.mid) && AllBlank(m.pad) && AllBlank(m.trail)
    && Raw(m.key, false) && Value(m.value)
  }

  predicate MembersOk(ms: seq<Member>) { forall i | 0 <= i < |ms| :: MemberOk(ms[i]) }

  predicate DocOk(d: Doc) {
    (forall i | 0 <= i < |d.head| :: d.head[i] != '{') && AllBlank(d.blank) && MembersOk(d.members)
  }

  /** A string in the value, outside braces, that reads like the key. */
  predicate HasStray(t: Text, key: string) {
    match t
    case End => false
    case Char(_, rest) => HasStray(rest, key)
    case Str(raw, rest) => raw == key || HasStray(rest, key)
    case Group(brace, inner, rest) => (!brace && HasStray(inner, key)) || HasStray(rest, key)
  }

  /** Before the key's first member no value holds a string, at depth one, that equals the key. */
  predicate NoStrayBefore(ms: seq<Member>, key: string) {
    ms == [] || ms[0].key == key || (!HasStray(ms[0].value, key) && NoStrayBefore(ms[1..], key))
  }

  predicate Has(ms: seq<Member>, key: string) { exists i :: 0 <= i < |ms| && ms[i].key == key }

  /** The place of the first member with the key. */
  function IndexOf(ms: seq<Member>, key: string): (i: nat)
    requires Has(ms, key)
    ensures i < |ms| && ms[i].key == key && forall j | 0 <= j < i :: ms[j].key != key
  {
    if ms[0].key == key then 0 else 1 + IndexOf(ms[1..], key)
  }

  // ---------- The update ----------

  /** The first member with the key gets the value. */
  function Replace(ms: seq<Member>, key: string, value: Text): seq<Member> {
    if ms == [] then []
    else if ms[0].key == key then [ms[0].(value := value)] + ms[1..]
    else [ms[0]] + Replace(ms[1..], key, value)
  }

  function Update(d: Doc, key: string, value: Text): Doc {
    if Has(d.members, key) then d.(members := Replace(d.members, key, value))
    else
      var lead := (if d.members == [] then d.blank else "") + "\n      ";
      d.(members := d.members + [Member(lead, key, " ", " ", value, "\n")])
  }

  // ---------- The search passes what is not the key ----------

  lemma OneSearch(s: Scan, c: char, rest: string, limit: nat, key: string)
    requires 0 < limit <= 1 + |rest|
    requires c != '"' || s.quoted || s.depth != 1 || !(Quoted(key) <= [c] + rest)
    ensures SearchKey(s, [c] + rest, limit, key) == Shift(SearchKey(Feed(s, c), rest, limit - 1, key), 1)
  {
    assert ([c] + rest)[1..] == rest;
  }

  lemma {:induction false} PlainSearched(s: Scan, x: string, rest: string, limit: nat, key: string)
    requires Plain(x) && !s.quoted && |x| <= limit <= |x + rest|
    ensures SearchKey(s, x + rest, limit, key) == Shift(SearchKey(s, rest, limit - |x|, key), |x|)
    decreases |x|
  {
    hide SearchKey;
    if x == [] {
      assert x + rest == rest;
    } else {
      assert x + rest == [x[0]] + (x[1..] + rest);
      OneSearch(s, x[0], x[1..] + rest, limit, key);
      PlainSearched(s, x[1..], rest, limit - 1, key);
    }
  }

  lemma {:induction false} RawSearched(s: Scan, raw: string, rest: string, limit: nat, key: string)
    requires s.quoted && Raw(raw, s.escaped) && |raw| <= limit <= |raw + rest|
    ensures SearchKey(s, raw + rest, limit, key) ==
      Shift(SearchKey(s.(escaped := false), rest, limit - |raw|, key), |raw|)
    decreases |raw|
  {
    hide SearchKey;
    if raw == [] {
      assert raw + rest == rest && s == s.(escaped := false);
    } else {
      assert raw + rest == [raw[0]] + (raw[1..] + rest);
      OneSearch(s, raw[0], raw[1..] + rest, limit, key);
      RawSearched(Feed(s, raw[0]), raw[1..], rest, limit - 1, key);
    }
  }

  /** A string literal starts with the quoted key only if it is the key. */
  lemma TokenIsRaw(key: string, raw: string, rest: string)
    requires NoEscapes(key) && Raw(raw, false) && Quoted(key) <= Quoted(raw) + rest
    ensures raw == key
  {
    var text, n := Quoted(raw) + rest, |key|;
    assert forall i | 0 <= i < n :: text[1 + i] == Quoted(key)[1 + i] == key[i];
    assert text[1 + n] == Quoted(key)[1 + n] == '"';
    assert text[1 + |raw|] == '"';
    if n < |raw| {
      assert raw[..n] == key;
      QuoteNeedsEscape(raw, n);
    }
  }

  lemma {:induction false} QuoteNeedsEscape(raw: string, n: nat)
    requires n < |raw| && NoEscapes(raw[..n]) && Raw(raw, false)
    ensures raw[n] != '"'
    decreases n
  {
    if n > 0 {
      assert raw[..n][0] == raw[0] && raw[1..][..n - 1] == raw[..n][1..];
      QuoteNeedsEscape(raw[1..], n - 1);
    }
  }

  lemma QuotedSearched(s: Scan, raw: string, rest: string, limit: nat, key: string)
    requires !s.quoted && !s.escaped && Raw(raw, false) && NoEscapes(key) && (s.depth == 1 ==> raw != key)
    requires |Quoted(raw)| <= limit <= |Quoted(raw) + rest|
    ensures SearchKey(s, Quoted(raw) + rest, limit, key)
         == Shift(SearchKey(s, rest, limit - |Quoted(raw)|, key), |Quoted(raw)|)
  {
    hide SearchKey, Raw, NoEscapes;
    var q := s.(quoted := true);
    assert Quoted(raw) + rest == ['"'] + (raw + (['"'] + rest));
    if Quoted(key) <= Quoted(raw) + rest { TokenIsRaw(key, raw, rest); }
    OneSearch(s, '"', raw + (['"'] + rest), limit, key);
    RawSearched(q, raw, ['"'] + rest, limit - 1, key);
    OneSearch(q, '"', rest, limit - 1 - |raw|, key);
  }

  lemma {:induction false} ValueSearched(s: Scan, t: Text, rest: string, limit: nat, key: string)
    requires WellFormed(t) && !s.quoted && !s.escaped && s.depth >= 1 && NoEscapes(key)
    requires s.depth == 1 ==> !HasStray(t, key)
    requires |Print(t)| <= limit <= |Print(t) + rest|
    ensures SearchKey(s, Print(t) + rest, limit, key) == Shift(SearchKey(s, rest, limit - |Print(t)|, key), |Print(t)|)
    decreases t
  {
    hide SearchKey, Raw, NoEscapes;
    match t {
      case End => assert Print(t) + rest == rest;
      case Char(c, more) =>
        assert Print(t) + rest == [c] + (Print(more) + rest);
        OneSearch(s, c, Print(more) + rest, limit, key);
        ValueSearched(s, more, rest, limit - 1, key);
      case Str(raw, more) =>
        assert Print(t) + rest == Quoted(raw) + (Print(more) + rest);
        QuotedSearched(s, raw, Print(more) + rest, limit, key);
        ValueSearched(s, more, rest, limit - |Quoted(raw)|, key);
      case Group(_, _, _) => GroupSearched(s, t, rest, limit, key);
    }
  }

  lemma {:induction false} GroupSearched(s: Scan, t: Text, rest: string, limit: nat, key: string)
    requires t.Group? && WellFormed(t) && !s.quoted && !s.escaped && s.depth >= 1 && NoEscapes(key)
    requires s.depth == 1 ==> !HasStray(t, key)
    requires |Print(t)| <= limit <= |Print(t) + rest|
    ensures SearchKey(s, Print(t) + rest, limit, key) == Shift(SearchKey(s, rest, limit - |Print(t)|, key), |Print(t)|)
    decreases t, 0
  {
    hide SearchKey, Raw, NoEscapes, Print;
    var u, opening, closing := Feed(s, Opening(t.brace)), Opening(t.brace), Closing(t.brace);
    var behind := [closing] + (Print(t.rest) + rest);
    var inner := Print(t.inner);
    GroupText(t, rest);
    OneSearch(s, opening, inner + behind, limit, key);
    ValueSearched(u, t.inner, behind, limit - 1, key);
    OneSearch(u, closing, Print(t.rest) + rest, limit - 1 - |inner|, key);
    ValueSearched(s, t.rest, rest, limit - 2 - |inner|, key);
  }

  lemma BlankIsPlain(text: string)
    requires AllBlank(text)
    ensures Plain(text) && forall i | 0 <= i < |text| :: IsSpace(text[i])
  {}

  lemma MemberSearched(m: Member, rest: string, limit: nat, key: string)
    requires MemberOk(m) && NoEscapes(key) && m.key != key && !HasStray(m.value, key)
    requires |PrintMember(m)| <= limit <= |PrintMember(m) + rest|
    ensures SearchKey(INSIDE, PrintMember(m) + rest, limit, key)
         == Shift(SearchKey(INSIDE, rest, limit - |PrintMember(m)|, key), |PrintMember(m)|)
  {
    hide SearchKey, Raw, NoEscapes, AllBlank, Print, Plain, Value, Quoted, HasStray;
    BlankIsPlain(m.lead);
    BlankIsPlain(m.mid);
    var t2 := ":" + (m.pad + (Print(m.value) + (m.trail + rest)));
    var t1 := m.mid + t2;
    assert PrintMember(m) + rest == m.lead + (Quoted(m.key) + t1) by { MemberNested(m, rest); }
    PlainSearched(INSIDE, m.lead, Quoted(m.key) + t1, limit, key);
    var n := limit - |m.lead|;
    QuotedSearched(INSIDE, m.key, t1, n, key);
    n := n - |Quoted(m.key)|;
    PlainSearched(INSIDE, m.mid, t2, n, key);
    BehindKeySearched(m, rest, n - |m.mid|, key);
  }

  /** The same from the member's colon on. */
  lemma BehindKeySearched(m: Member, rest: string, limit: nat, key: string)
    requires MemberOk(m) && NoEscapes(key) && !HasStray(m.value, key)
    requires 1 + |m.pad| + |Print(m.value)| + |m.trail| <= limit
    requires limit <= |":" + (m.pad + (Print(m.value) + (m.trail + rest)))|
    ensures
      var n := 1 + |m.pad| + |Print(m.value)| + |m.trail|;
      SearchKey(INSIDE, ":" + (m.pad + (Print(m.value) + (m.trail + rest))), limit, key)
        == Shift(SearchKey(INSIDE, rest, limit - n, key), n)
  {
    hide SearchKey, Raw, NoEscapes, AllBlank, Print, Plain, Value, Quoted, HasStray;
    BlankIsPlain(m.pad);
    BlankIsPlain(m.trail);
    CommaIsPlain([]);
    ValueIsWellFormed(m.value);
    var t5 := m.trail + rest;
    var t4 := Print(m.value) + t5;
    PlainSearched(INSIDE, ":", m.pad + t4, limit, key);
    PlainSearched(INSIDE, m.pad, t4, limit - 1, key);
    var n := limit - 1 - |m.pad|;
    ValueSearched(INSIDE, m.value, t5, n, key);
    PlainSearched(INSIDE, m.trail, rest, n - |Print(m.value)|, key);
  }

  lemma ValueIsWellFormed(t: Text)
    requires Value(t)
    ensures WellFormed(t) && Lone(t) && Compact(Print(t))
  {}

  lemma MemberNested(m: Member, rest: string)
    ensures PrintMember(m) + rest
         == m.lead + (Quoted(m.key) + (m.mid + (":" + (m.pad + (Print(m.value) + (m.trail + rest))))))
  {
    hide Quoted, Print;
  }

  // ---------- The search finds the key ----------

  lemma MemberHit(m: Member, rest: string, limit: nat, key: string)
    requires MemberOk(m) && m.key == key && |PrintMember(m)| <= limit <= |PrintMember(m) + rest|
    ensures SearchKey(INSIDE, PrintMember(m) + rest, limit, key) == Some(|HeadOf(m)|)
  {
    hide SearchKey, Raw, Print, Plain, WellFormed, Lone;
    BlankIsPlain(m.lead);
    BlankIsPlain(m.mid);
    BlankIsPlain(m.pad);
    var t4 := Print(m.value) + (m.trail + rest);
    var t := Quoted(key) + (m.mid + (":" + (m.pad + t4)));
    assert PrintMember(m) + rest == m.lead + t by { MemberNested(m, rest); }
    var n := limit - |m.lead|;
    PlainSearched(INSIDE, m.lead, t, limit, key);
    HeadHit(m, t4, n, key);
  }

  lemma HeadHit(m: Member, t4: string, n: nat, key: string)
    requires AllBlank(m.mid) && AllBlank(m.pad) && t4 != [] && !IsSpace(t4[0])
    requires |Quoted(key)| + |m.mid| + 1 + |m.pad| < n <= |Quoted(key)| + |m.mid| + 1 + |m.pad| + |t4|
    ensures SearchKey(INSIDE, Quoted(key) + (m.mid + (":" + (m.pad + t4))), n, key)
         == Some(|Quoted(key)| + |m.mid| + 1 + |m.pad|)
  {
    hide AllBlank, SkipSpaces;
    HeadLayout(m, t4, n, key);
  }

  /** Behind the key the blanks are passed up to the colon, and then up to the value. */
  lemma HeadLayout(m: Member, t4: string, n: nat, key: string)
    requires AllBlank(m.mid) && AllBlank(m.pad) && t4 != [] && !IsSpace(t4[0])
    requires |Quoted(key)| + |m.mid| + 1 + |m.pad| < n <= |Quoted(key)| + |m.mid| + 1 + |m.pad| + |t4|
    ensures
      var t, colon := Quoted(key) + (m.mid + (":" + (m.pad + t4))), |Quoted(key)| + |m.mid|;
      && Quoted(key) <= t && SkipSpaces(t, |Quoted(key)|, n) == colon && t[colon] == ':'
      && SkipSpaces(t, colon + 1, n) == colon + 1 + |m.pad|
  {
    hide AllBlank;
    var t := Quoted(key) + (m.mid + (":" + (m.pad + t4)));
    BlankIsPlain(m.mid);
    BlankIsPlain(m.pad);
    var k, colon := |Quoted(key)|, |Quoted(key)| + |m.mid|;
    assert forall j | k <= j < colon :: t[j] == m.mid[j - k];
    assert t[colon] == ':';
    assert forall j | colon + 1 <= j < colon + 1 + |m.pad| :: t[j] == m.pad[j - colon - 1];
    assert t[colon + 1 + |m.pad|] == t4[0];
  }

  /** What precedes the key's value among the members, and what follows it. */
  function Front(ms: seq<Member>, key: string): string
    requires Has(ms, key)
  {
    if ms[0].key == key then HeadOf(ms[0]) else PrintMember(ms[0]) + ("," + Front(ms[1..], key))
  }

  function Behind(ms: seq<Member>, key: string): string
    requires Has(ms, key)
  {
    if ms[0].key == key then ms[0].trail + (Comma(ms) + PrintMembers(ms[1..])) else Behind(ms[1..], key)
  }

  function Found(ms: seq<Member>, key: string): (m: Member)
    requires Has(ms, key)
    ensures m.key == key && (MembersOk(ms) ==> MemberOk(m))
  {
    if ms[0].key == key then ms[0] else Found(ms[1..], key)
  }

  lemma {:induction false} AroundFound(ms: seq<Member>, key: string)
    requires Has(ms, key)
    ensures PrintMembers(ms) == Front(ms, key) + (Print(Found(ms, key).value) + Behind(ms, key))
  {
    hide Print, HeadOf;
    if ms[0].key != key { AroundFound(ms[1..], key); }
  }

  lemma {:induction false} AroundReplaced(ms: seq<Member>, key: string, value: Text)
    requires Has(ms, key)
    ensures PrintMembers(Replace(ms, key, value)) == Front(ms, key) + (Print(value) + Behind(ms, key))
  {
    hide Print, HeadOf, PrintMember;
    ReplaceLength(ms, key, value);
    if ms[0].key == key {
      ReplacedFirst(ms, key, value);
    } else {
      AroundReplaced(ms[1..], key, value);
      ReplacedFurther(ms, key, value);
      assert Comma(ms) == ",";
    }
  }

  lemma ReplacedFirst(ms: seq<Member>, key: string, value: Text)
    requires ms != [] && ms[0].key == key
    ensures PrintMembers(Replace(ms, key, value))
         == HeadOf(ms[0]) + (Print(value) + (ms[0].trail + (Comma(ms) + PrintMembers(ms[1..]))))
  {
    hide Print, HeadOf, PrintMember;
    var m := ms[0].(value := value);
    var after := [m] + ms[1..];
    assert after[1..] == ms[1..] && after[0] == m && |after| == |ms|;
    WithValue(ms[0], value);
    Joined(HeadOf(ms[0]), Print(value), ms[0].trail, Comma(ms) + PrintMembers(ms[1..]));
  }

  lemma Joined(a: string, b: string, c: string, d: string)
    ensures (a + (b + c)) + d == a + (b + (c + d))
  {}

  lemma ReplacedFurther(ms: seq<Member>, key: string, value: Text)
    requires ms != [] && ms[0].key != key && |Replace(ms, key, value)| == |ms|
    ensures PrintMembers(Replace(ms, key, value))
         == PrintMember(ms[0]) + (Comma(ms) + PrintMembers(Replace(ms[1..], key, value)))
  {
    hide PrintMember;
    var after := Replace(ms, key, value);
    assert after[1..] == Replace(ms[1..], key, value) && after[0] == ms[0];
  }

  lemma WithValue(m: Member, value: Text)
    ensures PrintMember(m.(value := value)) == HeadOf(m) + (Print(value) + m.trail)
  {}

  lemma {:induction false} ReplaceLength(ms: seq<Member>, key: string, value: Text)
    ensures |Replace(ms, key, value)| == |ms|
  {
    if ms != [] { ReplaceLength(ms[1..], key, value); }
  }

  lemma FirstSearched(ms: seq<Member>, rest: string, key: string)
    requires ms != [] && MemberOk(ms[0]) && NoEscapes(key) && ms[0].key != key && !HasStray(ms[0].value, key)
    ensures SearchKey(INSIDE, PrintMembers(ms) + rest, |PrintMembers(ms)|, key)
         == Shift(SearchKey(INSIDE, PrintMembers(ms[1..]) + rest, |PrintMembers(ms[1..])|, key),
                  |PrintMember(ms[0])| + |Comma(ms)|)
  {
    hide SearchKey, PrintMember, MemberOk, NoEscapes, HasStray, Plain, Comma;
    var limit := |PrintMembers(ms)|;
    var more := PrintMembers(ms[1..]) + rest;
    assert PrintMembers(ms) + rest == PrintMember(ms[0]) + (Comma(ms) + more);
    MemberSearched(ms[0], Comma(ms) + more, limit, key);
    CommaIsPlain(ms);
    PlainSearched(INSIDE, Comma(ms), more, limit - |PrintMember(ms[0])|, key);
  }

  lemma {:induction false} SearchHits(ms: seq<Member>, rest: string, key: string)
    requires MembersOk(ms) && NoEscapes(key) && Has(ms, key) && NoStrayBefore(ms, key)
    ensures SearchKey(INSIDE, PrintMembers(ms) + rest, |PrintMembers(ms)|, key) == Some(|Front(ms, key)|)
  {
    hide SearchKey, PrintMember, MemberOk, NoEscapes, HeadOf;
    if ms[0].key == key {
      var more := Comma(ms) + PrintMembers(ms[1..]);
      assert PrintMembers(ms) + rest == PrintMember(ms[0]) + (more + rest);
      MemberHit(ms[0], more + rest, |PrintMembers(ms)|, key);
    } else {
      FirstSearched(ms, rest, key);
      SearchHits(ms[1..], rest, key);
    }
  }

  lemma {:induction false} SearchMisses(ms: seq<Member>, rest: string, key: string)
    requires MembersOk(ms) && NoEscapes(key) && !Has(ms, key) && NoStrayBefore(ms, key)
    ensures SearchKey(INSIDE, PrintMembers(ms) + rest, |PrintMembers(ms)|, key) == None
  {
    hide SearchKey, PrintMember, MemberOk, NoEscapes, Has, MembersOk, NoStrayBefore, HasStray;
    if ms == [] {
      NothingToSearch(rest, key);
      assert PrintMembers(ms) + rest == rest;
    } else {
      NoneFurther(ms, key);
      FirstSearched(ms, rest, key);
      SearchMisses(ms[1..], rest, key);
    }
  }

  lemma NoneFurther(ms: seq<Member>, key: string)
    requires ms != [] && MembersOk(ms) && !Has(ms, key) && NoStrayBefore(ms, key)
    ensures MemberOk(ms[0]) && MembersOk(ms[1..]) && ms[0].key != key && !Has(ms[1..], key)
    ensures !HasStray(ms[0].value, key) && NoStrayBefore(ms[1..], key)
  {
    hide MemberOk, HasStray;
  }

  lemma CommaIsPlain(ms: seq<Member>)
    ensures Plain(Comma(ms)) && Plain(":")
  {}

  lemma NothingToSearch(rest: string, key: string)
    ensures SearchKey(INSIDE, rest, 0, key) == None
  {}

  // ---------- The value's end ----------

  lemma OneValue(d: Depth, c: char, rest: string, limit: nat)
    requires 0 < limit <= 1 + |rest| && (c != ',' || d.quoted || d.nested != 0)
    ensures ValueLength(d, [c] + rest, limit) == 1 + ValueLength(FeedValue(d, c), rest, limit - 1)
  {
    assert ([c] + rest)[1..] == rest;
  }

  lemma {:induction false} RawMeasured(d: Depth, raw: string, rest: string, limit: nat)
    requires d.quoted && Raw(raw, d.escaped) && |raw| <= limit <= |raw + rest|
    ensures ValueLength(d, raw + rest, limit) == |raw| + ValueLength(d.(escaped := false), rest, limit - |raw|)
    decreases |raw|
  {
    hide ValueLength;
    if raw == [] {
      assert raw + rest == rest && d == d.(escaped := false);
    } else {
      assert raw + rest == [raw[0]] + (raw[1..] + rest);
      OneValue(d, raw[0], raw[1..] + rest, limit);
      RawMeasured(FeedValue(d, raw[0]), raw[1..], rest, limit - 1);
    }
  }

  lemma {:induction false} ValueMeasured(d: Depth, t: Text, rest: string, limit: nat)
    requires WellFormed(t) && !d.quoted && !d.escaped && (d.nested == 0 ==> Lone(t))
    requires |Print(t)| <= limit <= |Print(t) + rest|
    ensures ValueLength(d, Print(t) + rest, limit) == |Print(t)| + ValueLength(d, rest, limit - |Print(t)|)
    decreases t
  {
    hide ValueLength, Raw;
    match t {
      case End => assert Print(t) + rest == rest;
      case Char(c, more) =>
        assert Print(t) + rest == [c] + (Print(more) + rest);
        OneValue(d, c, Print(more) + rest, limit);
        ValueMeasured(d, more, rest, limit - 1);
      case Str(raw, more) =>
        var q, behind := d.(quoted := true), Print(more) + rest;
        assert Print(t) + rest == ['"'] + (raw + (['"'] + behind));
        OneValue(d, '"', raw + (['"'] + behind), limit);
        RawMeasured(q, raw, ['"'] + behind, limit - 1);
        OneValue(q, '"', behind, limit - 1 - |raw|);
        ValueMeasured(d, more, rest, limit - 2 - |raw|);
      case Group(_, _, _) => GroupMeasured(d, t, rest, limit);
    }
  }

  lemma {:induction false} GroupMeasured(d: Depth, t: Text, rest: string, limit: nat)
    requires t.Group? && WellFormed(t) && !d.quoted && !d.escaped && (d.nested == 0 ==> Lone(t))
    requires |Print(t)| <= limit <= |Print(t) + rest|
    ensures ValueLength(d, Print(t) + rest, limit) == |Print(t)| + ValueLength(d, rest, limit - |Print(t)|)
    decreases t, 0
  {
    hide ValueLength, Raw, Print;
    var u, opening, closing := FeedValue(d, Opening(t.brace)), Opening(t.brace), Closing(t.brace);
    var behind := [closing] + (Print(t.rest) + rest);
    var inner := Print(t.inner);
    GroupText(t, rest);
    OneValue(d, opening, inner + behind, limit);
    ValueMeasured(u, t.inner, behind, limit - 1);
    OneValue(u, closing, Print(t.rest) + rest, limit - 1 - |inner|);
    ValueMeasured(d, t.rest, rest, limit - 2 - |inner|);
  }

  /** The value ends where its last character does, though the blanks behind it are passed first. */
  lemma ValueEnds(t: Text, trail: string, more: string, limit: nat)
    requires Value(t) && AllBlank(trail) && |Print(t)| + |trail| <= limit <= |Print(t) + (trail + more)|
    requires limit == |Print(t)| + |trail| || more[0] == ','
    ensures
      var n := ValueLength(AT_VALUE, Print(t) + (trail + more), limit);
      n == |Print(t)| + |trail|
  {
    hide ValueLength, WellFormed, Lone, Print;
    ValueIsWellFormed(t);
    ValueMeasured(AT_VALUE, t, trail + more, limit);
    BlankMeasured(trail, more, limit - |Print(t)|);
    NothingMeasured(more, limit - |Print(t)| - |trail|);
  }

  lemma {:induction false} BlankMeasured(trail: string, more: string, limit: nat)
    requires AllBlank(trail) && |trail| <= limit <= |trail + more|
    ensures ValueLength(AT_VALUE, trail + more, limit) == |trail| + ValueLength(AT_VALUE, more, limit - |trail|)
    decreases |trail|
  {
    hide ValueLength;
    if trail == [] {
      assert trail + more == more;
    } else {
      assert trail + more == [trail[0]] + (trail[1..] + more);
      OneValue(AT_VALUE, trail[0], trail[1..] + more, limit);
      BlankMeasured(trail[1..], more, limit - 1);
    }
  }

  lemma NothingMeasured(more: string, limit: nat)
    requires limit <= |more| && (limit == 0 || more[0] == ',')
    ensures ValueLength(AT_VALUE, more, limit) == 0
  {}

  lemma {:induction false} TrimmedBack(text: string, first: nat, end: nat, last: nat)
    requires first < end <= last <= |text| && !IsSpace(text[end - 1])
    requires forall j | end <= j < last :: IsSpace(text[j])
    ensures Trimmed(text, first, last) == end
    decreases last
  {
    if last > end { TrimmedBack(text, first, end, last - 1); }
  }

  // ---------- The braces of the object ----------

  lemma {:induction false} MembersLevel(ms: seq<Member>)
    requires MembersOk(ms)
    ensures Level(PrintMembers(ms))
    decreases |ms|
  {
    hide Level, MemberOk, PrintMember;
    if ms == [] {
      LevelPlain("");
    } else {
      MemberLevel(ms[0]);
      CommaIsPlain(ms);
      LevelPlain(Comma(ms));
      MembersLevel(ms[1..]);
      LevelSum(Comma(ms), PrintMembers(ms[1..]));
      LevelSum(PrintMember(ms[0]), Comma(ms) + PrintMembers(ms[1..]));
    }
  }

  lemma MemberLevel(m: Member)
    requires MemberOk(m)
    ensures Level(PrintMember(m))
  {
    hide Level, Raw, Print, AllBlank, Plain, Quoted, Value;
    BlankIsPlain(m.lead);
    BlankIsPlain(m.mid);
    BlankIsPlain(m.pad);
    BlankIsPlain(m.trail);
    CommaIsPlain([]);
    LevelPlain(m.lead);
    LevelPlain(m.mid);
    LevelPlain(":");
    LevelPlain(m.pad);
    LevelPlain(m.trail);
    LevelQuoted(m.key);
    LevelValue(m.value);
    LevelSum(":", m.pad);
    LevelSum(m.mid, ":" + m.pad);
    LevelSum(Quoted(m.key), m.mid + (":" + m.pad));
    LevelSum(m.lead, Quoted(m.key) + (m.mid + (":" + m.pad)));
    LevelSum(Print(m.value), m.trail);
    LevelSum(HeadOf(m), Print(m.value) + m.trail);
  }

  lemma LevelValue(t: Text)
    requires Value(t)
    ensures Level(Print(t))
  {
    hide ScanText, FirstClose;
    ValueScans(INSIDE, t);
  }

  lemma BodyLevel(d: Doc)
    requires DocOk(d)
    ensures Level(Body(d))
  {
    hide Level, MembersOk, AllBlank;
    if d.members == [] {
      BlankIsPlain(d.blank);
      LevelPlain(d.blank);
    } else {
      MembersLevel(d.members);
    }
  }

  /** The object's braces are the ones the scanners find. */
  lemma BracesOf(d: Doc)
    requires DocOk(d)
    ensures FirstBrace(PrintDoc(d)) == |d.head| && RootClose(PrintDoc(d)) == Some(|d.head| + 1 + |Body(d)|)
  {
    hide Level, FirstClose, Body, MembersOk;
    BodyLevel(d);
    var text := "{" + (Body(d) + ("}" + d.tail));
    FirstBraceIs(d.head, text);
    BodyCloses(Body(d), d.tail);
    assert PrintDoc(d)[|d.head|..] == text;
    RootCloseIs(PrintDoc(d), |d.head|, 1 + |Body(d)|);
  }

  lemma {:induction false} FirstBraceIs(head: string, text: string)
    requires text != [] && text[0] == '{' && forall i | 0 <= i < |head| :: head[i] != '{'
    ensures FirstBrace(head + text) == |head|
    decreases |head|
  {
    if head == [] {
      assert head + text == text;
    } else {
      assert (head + text)[1..] == head[1..] + text;
      FirstBraceIs(head[1..], text);
    }
  }

  // ---------- set_value is an update ----------

  lemma SearchEnters(body: string, rest: string, limit: nat, key: string)
    requires limit <= |body + rest|
    ensures SearchKey(OUTSIDE, "{" + (body + rest), 1 + limit, key) ==
      Shift(SearchKey(INSIDE, body + rest, limit, key), 1)
  {
    hide SearchKey;
    OneSearch(OUTSIDE, '{', body + rest, 1 + limit, key);
  }

  lemma EditedFound(section: string, key: string, value: string, open: nat, close: nat, first: nat, end: nat)
    requires FirstBrace(section) == open && RootClose(section) == Some(close)
    requires ValueStart(section, key, open, close) == Some(first) && ValueStop(section, first, close) == end
    ensures Edited(section, key, value) == section[..first] + value + section[end..]
  {
    hide FirstBrace, RootClose, ValueStart, ValueStop;
  }

  lemma EditedMissing(section: string, key: string, value: string, open: nat, close: nat)
    requires FirstBrace(section) == open && RootClose(section) == Some(close)
    requires ValueStart(section, key, open, close) == None
    ensures Edited(section, key, value) == Appended(section, key, value, open, close)
  {
    hide FirstBrace, RootClose, ValueStart, Appended;
  }

  lemma Spliced(head: string, front: string, was: string, behind: string, rest: string, value: string)
    ensures
      var section := head + ("{" + ((front + (was + behind)) + rest));
      var first := |head| + 1 + |front|;
      section[..first] + value + section[first + |was|..] == head + ("{" + ((front + (value + behind)) + rest))
  {
    var section := head + ("{" + ((front + (was + behind)) + rest));
    var first := |head| + 1 + |front|;
    assert section[..first] == head + ("{" + front);
    assert section[first + |was|..] == behind + rest;
  }

  lemma StartsAtValue(d: Doc, key: string)
    requires DocOk(d) && NoEscapes(key) && Has(d.members, key) && NoStrayBefore(d.members, key)
    ensures
      var open, close := |d.head|, |d.head| + 1 + |Body(d)|;
      && close <= |PrintDoc(d)|
      && ValueStart(PrintDoc(d), key, open, close) == Some(open + 1 + |Front(d.members, key)|)
  {
    hide SearchKey, PrintMembers, Front, MembersOk, NoEscapes, NoStrayBefore, AllBlank;
    var ms, section, rest := d.members, PrintDoc(d), "}" + d.tail;
    SearchHits(ms, rest, key);
    SearchEnters(PrintMembers(ms), rest, |PrintMembers(ms)|, key);
    assert section[|d.head|..] == "{" + (PrintMembers(ms) + rest);
  }

  /** The search finds the value of the key's first member, or nothing if there is none. */
  ghost predicate StartsRight(d: Doc, key: string) {
    ValueStart(PrintDoc(d), key, |d.head|, |d.head| + 1 + |Body(d)|) ==
      if Has(d.members, key) then Some(|d.head| + 1 + |Front(d.members, key)|) else None
  }

  /** The text of the updated object, where the member is there: only its value is another. */
  lemma UpdatedText(d: Doc, key: string, value: Text)
    requires Has(d.members, key)
    ensures
      var section, first := PrintDoc(d), |d.head| + 1 + |Front(d.members, key)|;
      var end := first + |Print(Found(d.members, key).value)|;
      && end < |section| && PrintDoc(Update(d, key, value)) == section[..first] + Print(value) + section[end..]
  {
    hide PrintMembers, Print, Replace, Front, Behind, Found;
    var ms := d.members;
    AroundFound(ms, key);
    AroundReplaced(ms, key, value);
    ReplaceLength(ms, key, value);
    Spliced(d.head, Front(ms, key), Print(Found(ms, key).value), Behind(ms, key), "}" + d.tail, Print(value));
  }

  /** A member that is there gets its new value, and nothing else changes. */
  lemma ReplacesInText(d: Doc, key: string, value: Text)
    requires DocOk(d) && Has(d.members, key) && StartsRight(d, key)
    ensures Edited(PrintDoc(d), key, Print(value)) == PrintDoc(Update(d, key, value))
  {
    hide Edited, ValueStart, ValueStop, PrintDoc, Print, FirstBrace, RootClose, Front, Found, DocOk, Has, Update, Body;
    var first := |d.head| + 1 + |Front(d.members, key)|;
    BracesOf(d);
    StopsAtValue(d, key);
    UpdatedText(d, key, value);
    EditedFound(PrintDoc(d), key, Print(value), |d.head|, |d.head| + 1 + |Body(d)|, first,
                first + |Print(Found(d.members, key).value)|);
  }

  lemma StopsAtValue(d: Doc, key: string)
    requires DocOk(d) && Has(d.members, key)
    ensures
      var first := |d.head| + 1 + |Front(d.members, key)|;
      var close := |d.head| + 1 + |Body(d)|;
      && first <= close <= |PrintDoc(d)|
      && ValueStop(PrintDoc(d), first, close) == first + |Print(Found(d.members, key).value)|
  {
    hide ValueLength, Trimmed, PrintMembers, Front, Behind, Found, MembersOk, Print, MemberOk, ValueStop;
    var ms := d.members;
    var m, front := Found(ms, key), Front(ms, key);
    var section, rest := PrintDoc(d), "}" + d.tail;
    var first, close := |d.head| + 1 + |front|, |d.head| + 1 + |Body(d)|;
    AroundFound(ms, key);
    var more := BehindIs(ms, key);
    BehindFront(d.head, front, Print(m.value), m.trail, more, rest);
    StopAfterTrail(section, first, close, m, more + rest);
  }

  lemma BehindFront(head: string, front: string, value: string, trail: string, more: string, rest: string)
    ensures
      var section := head + ("{" + ((front + (value + (trail + more))) + rest));
      section[|head| + 1 + |front|..] == value + (trail + (more + rest))
  {}

  /** The text of an object from its brace on, cut in front of a value. */
  lemma CutAtValue(head: string, front: string, was: string, behind: string, rest: string)
    ensures
      var text := head + ("{" + ((front + (was + behind)) + rest));
      text[|head|..] == ("{" + front) + (was + (behind + rest))
  {}

  lemma StopAfterTrail(section: string, first: nat, close: nat, m: Member, more: string)
    requires MemberOk(m) && first <= close <= |section| && section[first..] == Print(m.value) + (m.trail + more)
    requires |Print(m.value)| + |m.trail| <= close - first
    requires close - first == |Print(m.value)| + |m.trail| || more[0] == ','
    ensures ValueStop(section, first, close) == first + |Print(m.value)|
  {
    hide ValueLength, Trimmed, Print, WellFormed, Lone, Raw;
    var value, limit := Print(m.value), close - first;
    ValueEnds(m.value, m.trail, more, limit);
    var end := first + |value|;
    BlankIsPlain(m.trail);
    assert section[end - 1] == section[first..][|value| - 1] == value[|value| - 1];
    forall j | end <= j < end + |m.trail| ensures IsSpace(section[j]) {
      assert section[j] == section[first..][j - first] == m.trail[j - end];
    }
    TrimmedBack(section, first, end, end + |m.trail|);
  }

  /** Behind the found value come its blanks, and then the end or a comma. */
  lemma {:induction false} BehindIs(ms: seq<Member>, key: string) returns (more: string)
    requires MembersOk(ms) && Has(ms, key)
    ensures Behind(ms, key) == Found(ms, key).trail + more && (more == [] || more[0] == ',')
    ensures MemberOk(Found(ms, key))
  {
    hide MemberOk, PrintMember;
    if ms[0].key == key {
      more := Comma(ms) + PrintMembers(ms[1..]);
    } else {
      more := BehindIs(ms[1..], key);
    }
  }

  lemma StartsNowhere(d: Doc, key: string)
    requires DocOk(d) && NoEscapes(key) && !Has(d.members, key) && NoStrayBefore(d.members, key)
    ensures |d.head| + 1 + |Body(d)| <= |PrintDoc(d)|
    ensures ValueStart(PrintDoc(d), key, |d.head|, |d.head| + 1 + |Body(d)|) == None
  {
    hide SearchKey, DocOk, NoEscapes, NoStrayBefore, Has, Body;
    var section, rest := PrintDoc(d), "}" + d.tail;
    BodySearched(d, rest, key);
    SearchEnters(Body(d), rest, |Body(d)|, key);
    assert section[|d.head|..] == "{" + (Body(d) + rest);
  }

  lemma AppendedIs(head: string, body: string, rest: string, key: string, value: string)
    ensures
      var section := head + ("{" + (body + rest));
      var more := (if AllBlank(body) then "\n      " else ",\n      ") + NewMember(key, value);
      Appended(section, key, value, |head|, |head| + 1 + |body|) == head + ("{" + ((body + more) + rest))
  {
    hide AllBlank, NewMember;
    var section := head + ("{" + (body + rest));
    var close := |head| + 1 + |body|;
    assert section[|head| + 1..close] == body;
    assert section[..close] == head + ("{" + body) && section[close..] == rest;
  }

  /** The text of the updated object, where the member is not there. */
  lemma AddedText(d: Doc, key: string, value: Text)
    requires DocOk(d) && !Has(d.members, key)
    ensures PrintDoc(Update(d, key, value)) ==
            Appended(PrintDoc(d), key, Print(value), |d.head|, |d.head| + 1 + |Body(d)|)
  {
    hide Appended, Print, AllBlank, Body, DocOk;
    AppendedIs(d.head, Body(d), "}" + d.tail, key, Print(value));
    if d.members == [] { AppendedToEmpty(d, key, value); } else { AppendedToMembers(d, key, value); }
  }

  /** A member that is not there is added at the end. */
  lemma AppendsToText(d: Doc, key: string, value: Text)
    requires DocOk(d) && !Has(d.members, key) && StartsRight(d, key)
    ensures Edited(PrintDoc(d), key, Print(value)) == PrintDoc(Update(d, key, value))
  {
    hide Edited, ValueStart, Appended, PrintDoc, Print, FirstBrace, RootClose, DocOk, Body, Has, Update;
    BracesOf(d);
    EditedMissing(PrintDoc(d), key, Print(value), |d.head|, |d.head| + 1 + |Body(d)|);
    AddedText(d, key, value);
  }

  lemma BodySearched(d: Doc, rest: string, key: string)
    requires DocOk(d) && NoEscapes(key) && !Has(d.members, key) && NoStrayBefore(d.members, key)
    ensures SearchKey(INSIDE, Body(d) + rest, |Body(d)|, key) == None
  {
    hide SearchKey, AllBlank, MemberOk, NoEscapes;
    if d.members == [] {
      BlankIsPlain(d.blank);
      PlainSearched(INSIDE, d.blank, rest, |d.blank|, key);
      NothingToSearch(rest, key);
    } else {
      SearchMisses(d.members, rest, key);
    }
  }

  lemma AppendedToEmpty(d: Doc, key: string, value: Text)
    requires DocOk(d) && d.members == []
    ensures Body(Update(d, key, value))
         == Body(d) + ((if AllBlank(Body(d)) then "\n      " else ",\n      ") + NewMember(key, Print(value)))
  {
    hide Print, MembersOk, AllBlank, PrintMembers, PrintMember, NewMember;
    var m := Member(d.blank + "\n      ", key, " ", " ", value, "\n");
    assert [] + [m] == [m];
    PrintedOne(m);
    NewMemberIs(d.blank + "\n      ", key, value);
  }

  lemma AppendedToMembers(d: Doc, key: string, value: Text)
    requires DocOk(d) && d.members != [] && !Has(d.members, key)
    ensures Body(Update(d, key, value))
         == Body(d) + ((if AllBlank(Body(d)) then "\n      " else ",\n      ") + NewMember(key, Print(value)))
  {
    hide Print, MembersOk, Has, AllBlank, PrintMembers, PrintMember, NewMember;
    var m := Member("\n      ", key, " ", " ", value, "\n");
    assert "" + "\n      " == "\n      ";
    PrintedMore(d.members, m);
    NewMemberIs("\n      ", key, value);
    NotAllBlank(d.members);
    CommaFirst(NewMember(key, Print(value)));
  }

  lemma CommaFirst(text: string)
    ensures "," + ("\n      " + text) == ",\n      " + text
  {}

  lemma NewMemberIs(lead: string, key: string, value: Text)
    ensures PrintMember(Member(lead, key, " ", " ", value, "\n")) == lead + NewMember(key, Print(value))
  {
    hide Print;
  }

  lemma PrintedOne(m: Member)
    ensures PrintMembers([m]) == PrintMember(m)
  {
    hide PrintMember;
    assert [m][1..] == [];
  }

  lemma {:induction false} PrintedMore(ms: seq<Member>, m: Member)
    requires ms != []
    ensures PrintMembers(ms + [m]) == PrintMembers(ms) + ("," + PrintMember(m))
    decreases |ms|
  {
    hide PrintMember;
    var all := ms + [m];
    assert all[1..] == ms[1..] + [m] && all[0] == ms[0];
    if |ms| == 1 {
      assert ms[1..] + [m] == [m];
      PrintedOne(m);
    } else {
      PrintedMore(ms[1..], m);
    }
  }

  lemma NotAllBlank(ms: seq<Member>)
    requires ms != []
    ensures !AllBlank(PrintMembers(ms))
  {
    var text := PrintMembers(ms);
    var m := ms[0];
    assert text[|m.lead|] == '"' by {
      MemberNested(m, Comma(ms) + PrintMembers(ms[1..]));
    }
  }

  /**
   * set_value is an update of the member list: for every object text, every key that is a plain
   * word, and every value, the edited text is the text of the updated object, if before the key's
   * first member no string at depth one, other than a key, equals the key.
   */
  lemma EditIsUpdate(d: Doc, key: string, value: Text)
    requires DocOk(d) && NoEscapes(key) && NoStrayBefore(d.members, key) && Value(value)
    ensures Edited(PrintDoc(d), key, Print(value)) == PrintDoc(Update(d, key, value))
  {
    hide *;
    StartsRightWithoutStray(d, key);
    if Has(d.members, key) { ReplacesInText(d, key, value); } else { AppendsToText(d, key, value); }
  }

  lemma StartsRightWithoutStray(d: Doc, key: string)
    requires DocOk(d) && NoEscapes(key) && NoStrayBefore(d.members, key)
    ensures StartsRight(d, key)
  {
    hide ValueStart, PrintDoc, DocOk, NoEscapes, NoStrayBefore, Has, Front, Body;
    if Has(d.members, key) { StartsAtValue(d, key); } else { StartsNowhere(d, key); }
  }

  // ---------- What the next edit finds ----------

  /** The value of the first member with the key, spelled so: the one that a next edit exchanges. */
  function Lookup(ms: seq<Member>, key: string): Option<Text> {
    if ms == [] then None else if ms[0].key == key then Some(ms[0].value) else Lookup(ms[1..], key)
  }

  lemma {:induction false} LookupReplaced(ms: seq<Member>, key: string, value: Text, other: string)
    requires Has(ms, key)
    ensures Lookup(Replace(ms, key, value), other) == if other == key then Some(value) else Lookup(ms, other)
  {
    if ms[0].key == key {
      assert Replace(ms, key, value)[1..] == ms[1..];
    } else {
      LookupReplaced(ms[1..], key, value, other);
      assert Replace(ms, key, value)[1..] == Replace(ms[1..], key, value);
    }
  }

  lemma {:induction false} LookupAdded(ms: seq<Member>, m: Member, other: string)
    ensures Lookup(ms + [m], other) ==
      if Lookup(ms, other).Some? then Lookup(ms, other) else if m.key == other then Some(m.value) else None
    decreases |ms|
  {
    if ms == [] {
      assert ms + [m] == [m] && [m][1..] == [];
    } else {
      assert (ms + [m])[1..] == ms[1..] + [m];
      LookupAdded(ms[1..], m, other);
    }
  }

  lemma {:induction false} LookupHas(ms: seq<Member>, key: string)
    ensures Lookup(ms, key).Some? <==> Has(ms, key)
    decreases |ms|
  {
    if ms != [] {
      LookupHas(ms[1..], key);
      if Has(ms[1..], key) {
        var i :| 0 <= i < |ms[1..]| && ms[1..][i].key == key;
        assert ms[i + 1].key == key;
      }
    }
  }

  lemma LookupUpdated(d: Doc, key: string, value: Text, other: string)
    ensures Lookup(Update(d, key, value).members, other) ==
      if other == key then Some(value) else Lookup(d.members, other)
  {
    LookupHas(d.members, key);
    if Has(d.members, key) {
      LookupReplaced(d.members, key, value, other);
    } else {
      LookupAdded(d.members, Update(d, key, value).members[|d.members|], other);
    }
  }

  // ---------- A second edit changes nothing ----------

  lemma {:induction false} ReplacedTwice(ms: seq<Member>, key: string, value: Text)
    requires Has(ms, key) && NoStrayBefore(ms, key) && MembersOk(ms) && Value(value)
    ensures
      var after := Replace(ms, key, value);
      Has(after, key) && NoStrayBefore(after, key) && MembersOk(after) && Replace(after, key, value) == after
  {
    hide Value, HasStray, Raw, AllBlank;
    var after := Replace(ms, key, value);
    if ms[0].key == key {
      assert after[0].key == key;
    } else {
      ReplacedTwice(ms[1..], key, value);
      var rest := Replace(ms[1..], key, value);
      assert after[1..] == rest && after[0] == ms[0];
      var i :| 0 <= i < |rest| && rest[i].key == key;
      assert after[i + 1].key == key;
    }
  }

  lemma {:induction false} AddedTwice(ms: seq<Member>, m: Member)
    requires !Has(ms, m.key) && NoStrayBefore(ms, m.key)
    ensures
      var after := ms + [m];
      Has(after, m.key) && NoStrayBefore(after, m.key) && Replace(after, m.key, m.value) == after
    decreases |ms|
  {
    hide HasStray;
    var after := ms + [m];
    assert after[|ms|].key == m.key;
    if ms != [] {
      assert after[1..] == ms[1..] + [m] && after[0] == ms[0];
      AddedTwice(ms[1..], m);
    }
  }

  lemma UpdatedTwice(d: Doc, key: string, value: Text)
    requires DocOk(d) && NoEscapes(key) && NoStrayBefore(d.members, key) && Value(value)
    ensures
      var after := Update(d, key, value);
      DocOk(after) && NoStrayBefore(after.members, key) && Update(after, key, value) == after
  {
    hide Value, HasStray, NoEscapes;
    var ms := d.members;
    if Has(ms, key) {
      ReplacedTwice(ms, key, value);
    } else {
      var m := Update(d, key, value).members[|ms|];
      NoEscapesRaw(key);
      assert MemberOk(m);
      AddedTwice(ms, m);
    }
  }

  /** Editing twice is editing once, where no string before the key reads like it. */
  lemma EditTwiceWithoutStray(d: Doc, key: string, value: Text)
    requires DocOk(d) && NoEscapes(key) && NoStrayBefore(d.members, key) && Value(value)
    ensures
      var once := Edited(PrintDoc(d), key, Print(value));
      Edited(once, key, Print(value)) == once
  {
    hide *;
    EditIsUpdate(d, key, value);
    UpdatedTwice(d, key, value);
    EditIsUpdate(Update(d, key, value), key, value);
  }
}
