/** A text is the text of one object only, so what is said of texts is said of parsed objects. */
module ObjectParsing {
  import opened Wrappers
  import opened JsonScanner
  import opened JsonText
  import opened JsonStrings
  import opened DriverSettings
  import opened SettingsFile
  import opened MemberEdit
  import opened ObjectUpdate
  import opened EditCondition
  import opened Readers

  // ---------- One reading of strings and values ----------

  lemma {:induction false} RawUnique(raw: string, other: string, escaped: bool, x: string, y: string)
    requires Raw(raw, escaped) && Raw(other, escaped) && raw + (['"'] + x) == other + (['"'] + y)
    ensures raw == other && x == y
    decreases |raw|
  {
    var text, same := raw + (['"'] + x), other + (['"'] + y);
    if raw == [] || other == [] {
      assert text[0] == same[0];
      assert raw == [] && other == [];
      assert text[1..] == x && same[1..] == y;
    } else {
      assert raw[0] == text[0] == same[0] == other[0];
      assert text[1..] == raw[1..] + (['"'] + x) && same[1..] == other[1..] + (['"'] + y);
      RawUnique(raw[1..], other[1..], if escaped then false else raw[0] == '\\', x, y);
      assert raw == [raw[0]] + raw[1..] && other == [other[0]] + other[1..];
    }
  }

  /** Nothing follows, or the end of a group. */
  predicate Stop(x: string) { x == [] || x[0] == '}' || x[0] == ']' }

  lemma FrontOf(t: Text, x: string)
    requires WellFormed(t) && Stop(x)
    ensures
      var text := Print(t) + x;
      match t
      case End => text == x
      case Char(c, rest) => text == [c] + (Print(rest) + x) && Loose(c)
      case Str(raw, rest) => text == ['"'] + (raw + (['"'] + (Print(rest) + x)))
      case Group(brace, inner, rest) =>
        text == [Opening(brace)] + (Print(inner) + ([Closing(brace)] + (Print(rest) + x)))
  {
    hide Raw;
    match t {
      case End =>
      case Char(_, _) =>
      case Str(raw, rest) => Nested(['"'], raw, ['"'], Print(rest), x);
      case Group(_, _, _) => GroupText(t, x);
    }
  }

  lemma {:induction false} TextUnique(t: Text, u: Text, x: string, y: string)
    requires WellFormed(t) && WellFormed(u) && Stop(x) && Stop(y) && Print(t) + x == Print(u) + y
    ensures t == u && x == y
    decreases t
  {
    hide Print, Raw;
    FrontOf(t, x);
    FrontOf(u, y);
    var text := Print(t) + x;
    match t {
      case End =>
      case Char(c, rest) =>
        assert text[0] == c;
        TailsEqual(c, Print(rest) + x, Print(u.rest) + y);
        TextUnique(rest, u.rest, x, y);
      case Str(raw, rest) =>
        assert text[0] == '"';
        TailsEqual('"', raw + (['"'] + (Print(rest) + x)), u.raw + (['"'] + (Print(u.rest) + y)));
        RawUnique(raw, u.raw, false, Print(rest) + x, Print(u.rest) + y);
        TextUnique(rest, u.rest, x, y);
      case Group(brace, inner, rest) =>
        assert text[0] == Opening(brace);
        var closing := [Closing(brace)];
        TailsEqual(Opening(brace), Print(inner) + (closing + (Print(rest) + x)),
                   Print(u.inner) + (closing + (Print(u.rest) + y)));
        TextUnique(inner, u.inner, closing + (Print(rest) + x), closing + (Print(u.rest) + y));
        TailsEqual(Closing(brace), Print(rest) + x, Print(u.rest) + y);
        TextUnique(rest, u.rest, x, y);
    }
  }

  lemma TailsEqual(c: char, a: string, b: string)
    requires [c] + a == [c] + b
    ensures a == b
  {
    assert ([c] + a)[1..] == a && ([c] + b)[1..] == b;
  }

  // ---------- One reading of members ----------

  lemma {:induction false} BlankUnique(a: string, b: string, x: string, y: string)
    requires AllBlank(a) && AllBlank(b) && a + x == b + y
    requires x != [] && y != [] && !IsSpace(x[0]) && !IsSpace(y[0])
    ensures a == b && x == y
  {
    hide AllBlank;
    BlankIsPlain(a);
    BlankIsPlain(b);
    var text := a + x;
    assert text[|a|] == x[0] && text[|b|] == (b + y)[|b|] == y[0];
    assert forall i | 0 <= i < |a| :: text[i] == a[i];
    assert forall i | 0 <= i < |b| :: (b + y)[i] == b[i];
    assert |a| == |b|;
    assert a == text[..|a|] && b == (b + y)[..|b|] && x == text[|a|..] && y == (b + y)[|b|..];
  }

  lemma ValueUnique(v: Text, w: Text, trail: string, other: string, x: string, y: string)
    requires Value(v) && Value(w) && AllBlank(trail) && AllBlank(other)
    requires Print(v) + (trail + x) == Print(w) + (other + y)
    requires (x == [] || x[0] == ',') && (y == [] || y[0] == ',')
    ensures v == w && trail == other && x == y
  {
    hide ValueLength, WellFormed, Lone, Print, AllBlank;
    var text := Print(v) + (trail + x);
    ValueEnds(v, trail, x, |text|);
    ValueEnds(w, other, y, |text|);
    assert |Print(v)| + |trail| == |Print(w)| + |other|;
    SameTrail(Print(v), Print(w), trail, other, x, y);
    assert Print(v) + [] == Print(w) + [];
    TextUnique(v, w, [], []);
  }

  lemma SameTrail(v: string, w: string, trail: string, other: string, x: string, y: string)
    requires v + (trail + x) == w + (other + y) && |v| + |trail| == |w| + |other|
    requires Compact(v) && Compact(w) && AllBlank(trail) && AllBlank(other)
    ensures v == w && trail == other && x == y
  {
    hide AllBlank;
    BlankIsPlain(trail);
    BlankIsPlain(other);
    var text := v + (trail + x);
    assert text[|v| - 1] == v[|v| - 1] && text[|w| - 1] == (w + (other + y))[|w| - 1] == w[|w| - 1];
    assert forall j | |v| <= j < |v| + |trail| :: text[j] == trail[j - |v|];
    assert forall j | |w| <= j < |w| + |other| :: (w + (other + y))[j] == other[j - |w|];
    assert |v| == |w|;
    assert v == text[..|v|] && w == (w + (other + y))[..|w|];
    assert trail + x == text[|v|..] && other + y == (w + (other + y))[|w|..];
    assert trail == (trail + x)[..|trail|] && other == (other + y)[..|other|];
    assert x == (trail + x)[|trail|..] && y == (other + y)[|other|..];
  }

  lemma MemberUnique(m: Member, n: Member, x: string, y: string)
    requires MemberOk(m) && MemberOk(n) && PrintMember(m) + x == PrintMember(n) + y
    requires (x == [] || x[0] == ',') && (y == [] || y[0] == ',')
    ensures m == n && x == y
  {
    hide Raw, Print, AllBlank, Value, PrintMember;
    MemberNested(m, x);
    MemberNested(n, y);
    ValueIsWellFormed(m.value);
    ValueIsWellFormed(n.value);
    var a3, b3 := Print(m.value) + (m.trail + x), Print(n.value) + (n.trail + y);
    var a2, b2 := ":" + (m.pad + a3), ":" + (n.pad + b3);
    var a1, b1 := m.mid + a2, n.mid + b2;
    QuotedFront(m.key, a1);
    QuotedFront(n.key, b1);
    BlankUnique(m.lead, n.lead, Quoted(m.key) + a1, Quoted(n.key) + b1);
    TailsEqual('"', m.key + (['"'] + a1), n.key + (['"'] + b1));
    RawUnique(m.key, n.key, false, a1, b1);
    BlankUnique(m.mid, n.mid, a2, b2);
    TailsEqual(':', m.pad + a3, n.pad + b3);
    BlankUnique(m.pad, n.pad, a3, b3);
    ValueUnique(m.value, n.value, m.trail, n.trail, x, y);
  }

  lemma QuotedFront(key: string, x: string)
    ensures Quoted(key) + x == ['"'] + (key + (['"'] + x))
  {}

  lemma {:induction false} MembersUnique(ms: seq<Member>, ns: seq<Member>)
    requires MembersOk(ms) && MembersOk(ns) && PrintMembers(ms) == PrintMembers(ns)
    ensures ms == ns
    decreases |ms|
  {
    hide MemberOk, PrintMember;
    if ms == [] || ns == [] {
      if ms != [] { NotAllBlank(ms); }
      if ns != [] { NotAllBlank(ns); }
    } else {
      MemberUnique(ms[0], ns[0], Comma(ms) + PrintMembers(ms[1..]), Comma(ns) + PrintMembers(ns[1..]));
      if |ms| > 1 && |ns| > 1 { TailsEqual(',', PrintMembers(ms[1..]), PrintMembers(ns[1..])); }
      MembersUnique(ms[1..], ns[1..]);
      assert ms == [ms[0]] + ms[1..] && ns == [ns[0]] + ns[1..];
    }
  }

  /**
   * A text is the text of at most one object: head, members with all their blanks, and tail are
   * read off it. Only the blank of an object that has members is not part of its text.
   */
  lemma DocUnique(d: Doc, e: Doc)
    requires DocOk(d) && DocOk(e) && PrintDoc(d) == PrintDoc(e)
    ensures d.head == e.head && d.members == e.members && d.tail == e.tail
    ensures d.members == [] ==> d == e
  {
    hide Body, MembersOk, AllBlank, FirstBrace, RootClose;
    BracesOf(d);
    BracesOf(e);
    SameParts(d.head, Body(d), d.tail, e.head, Body(e), e.tail);
    BodyUnique(d, e);
  }

  lemma SameParts(head: string, body: string, tail: string, head': string, body': string, tail': string)
    requires head + ("{" + (body + ("}" + tail))) == head' + ("{" + (body' + ("}" + tail')))
    requires |head| == |head'| && |body| == |body'|
    ensures head == head' && body == body' && tail == tail'
  {
    var text, other := head + ("{" + (body + ("}" + tail))), head' + ("{" + (body' + ("}" + tail')));
    assert head == text[..|head|] && head' == other[..|head|];
    assert body == text[|head| + 1..|head| + 1 + |body|] && body' == other[|head| + 1..|head| + 1 + |body|];
    assert tail == text[|head| + 2 + |body|..] && tail' == other[|head| + 2 + |body|..];
  }

  lemma BodyUnique(d: Doc, e: Doc)
    requires DocOk(d) && DocOk(e) && Body(d) == Body(e)
    ensures d.members == e.members && (d.members == [] ==> d.blank == e.blank)
  {
    hide MemberOk, PrintMembers, AllBlank;
    if d.members == [] || e.members == [] {
      if d.members != [] { NotAllBlank(d.members); }
      if e.members != [] { NotAllBlank(e.members); }
    } else {
      MembersUnique(d.members, e.members);
    }
  }

  // ---------- set_value, read back ----------

  lemma UpdateOk(d: Doc, key: string, value: Text)
    requires DocOk(d) && NoEscapes(key) && Value(value)
    ensures DocOk(Update(d, key, value))
  {
    hide Value, NoEscapes, Raw;
    if Has(d.members, key) {
      ReplaceOk(d.members, key, value);
    } else {
      NoEscapesRaw(key);
      assert MemberOk(Update(d, key, value).members[|d.members|]);
    }
  }

  lemma {:induction false} ReplaceOk(ms: seq<Member>, key: string, value: Text)
    requires MembersOk(ms) && Value(value)
    ensures MembersOk(Replace(ms, key, value))
  {
    hide Value, Raw, AllBlank;
    if ms != [] && ms[0].key != key { ReplaceOk(ms[1..], key, value); }
  }

  /**
   * If the scan meets the key where its first member is, or nowhere if it has none, every reader of
   * the edited text finds under other keys what it found before; and under the key every reader finds
   * the value if and only if at most one member was read as having it, and that one spells it plainly.
   */
  lemma EditedReads(d: Doc, key: string, value: Text, e: Doc)
    requires DocOk(d) && PlainKey(key) && Value(value)
    requires MeetsRight(d, key)
    requires DocOk(e) && PrintDoc(e) == Edited(PrintDoc(d), key, Print(value))
    ensures forall other | other != key :: Values(e.members, other) == Values(d.members, other)
    ensures Values(e.members, key) == [value] <==> Sole(d.members, key)
  {
    hide *;
    PlainHasNoEscapes(key);
    UpdatesExactlyWhen(d, key);
    UpdateOk(d, key, value);
    DocUnique(e, Update(d, key, value));
    UpdateReaches(d, key, value);
  }

  lemma PlainHasNoEscapes(key: string)
    requires PlainKey(key)
    ensures NoEscapes(key)
  {}
}
