/** What readers of an object find: keys as RFC 8259 reads them, and all values under a key. */
module Readers {
  import opened Wrappers
  import opened JsonScanner
  import opened JsonText
  import opened JsonStrings
  import opened ObjectUpdate

  // ---------- Keys as they are read ----------

  /** The key with its escapes taken back; section 7 of RFC 8259. */
  function KeyRead(raw: string): Option<string> {
    match ReadString(Quoted(raw))
    case None => None
    case Some((key, rest)) => if rest == [] then Some(key) else None
  }

  predicate Bears(m: Member, key: string) { KeyRead(m.key) == Some(key) }

  lemma {:induction false} PlainIsRead(key: string, rest: string)
    requires PlainKey(key)
    ensures ReadChars(key + ("\"" + rest)) == Some((key, rest))
  {
    var text := key + ("\"" + rest);
    if key == [] {
      assert text == "\"" + rest && text[1..] == rest;
    } else {
      PlainIsRead(key[1..], rest);
      assert text[0] == key[0] && text[1..] == key[1..] + ("\"" + rest);
      assert [key[0]] + key[1..] == key;
    }
  }

  lemma PlainKeyRead(key: string)
    requires PlainKey(key)
    ensures KeyRead(key) == Some(key)
  {
    hide ReadChars;
    PlainIsRead(key, []);
    assert Quoted(key)[1..] == key + ("\"" + []);
  }

  predicate HasQuote(text: string) { exists i :: 0 <= i < |text| && text[i] == '"' }

  lemma QuoteBehind(c: char, text: string)
    requires HasQuote(text) || c == '"'
    ensures HasQuote([c] + text)
  {
    if c == '"' {
      assert ([c] + text)[0] == '"';
    } else {
      var i :| 0 <= i < |text| && text[i] == '"';
      assert ([c] + text)[i + 1] == '"';
    }
  }

  /** Where a string is read to the end, a quote inside it is read as a quote. */
  lemma {:induction false} QuoteIsRead(text: string, k: nat)
    requires k + 1 < |text| && text[k] == '"' && ReadChars(text).Some? && ReadChars(text).value.1 == []
    ensures HasQuote(ReadChars(text).value.0)
    decreases |text|
  {
    hide Unicode, HasQuote, Simple;
    if text[0] == '\\' && text[1] == 'u' && |text| >= 6 {
      HexHasNoQuote(text);
      QuoteIsRead(text[6..], k - 6);
      QuoteBehind(Unicode(text[2..6]).value, ReadChars(text[6..]).value.0);
    } else if text[0] == '\\' {
      if k > 1 { QuoteIsRead(text[2..], k - 2); } else { QuoteIsSimple(); }
      QuoteBehind(Simple(text[1]).value, ReadChars(text[2..]).value.0);
    } else {
      QuoteIsRead(text[1..], k - 1);
      QuoteBehind(text[0], ReadChars(text[1..]).value.0);
    }
  }

  lemma QuoteIsSimple()
    ensures Simple('"') == Some('"')
  {}

  lemma HexHasNoQuote(text: string)
    requires |text| >= 6 && Unicode(text[2..6]).Some?
    ensures forall k | 2 <= k < 6 :: text[k] != '"'
  {
    var digits := text[2..6];
    assert text[2] == digits[0] && text[3] == digits[1] && text[4] == digits[2] && text[5] == digits[3];
  }

  // ---------- Values under a key ----------

  /**
   * The values of all members whose key is read so, in their order. RFC 8259, section 4, leaves open
   * what a reader makes of several: it may keep the first, the last or all, or refuse the object.
   */
  function Values(ms: seq<Member>, key: string): seq<Text> {
    if ms == [] then [] else (if Bears(ms[0], key) then [ms[0].value] else []) + Values(ms[1..], key)
  }

  /** What is found by a reader that keeps the first. */
  function FirstOf(ms: seq<Member>, key: string): Option<Text> {
    if Values(ms, key) == [] then None else Some(Values(ms, key)[0])
  }

  /** What is found by a reader that keeps the last. */
  function LastOf(ms: seq<Member>, key: string): Option<Text> {
    var found := Values(ms, key);
    if found == [] then None else Some(found[|found| - 1])
  }

  /** At most one member is read as having the key, and that one spells it without escapes. */
  predicate Sole(ms: seq<Member>, key: string) {
    |Values(ms, key)| <= 1 && forall i | 0 <= i < |ms| && Bears(ms[i], key) :: ms[i].key == key
  }

  lemma ValuesBehind(m: Member, ms: seq<Member>, key: string)
    ensures Values([m] + ms, key) == (if Bears(m, key) then [m.value] else []) + Values(ms, key)
  {
    hide Bears;
    assert ([m] + ms)[0] == m && ([m] + ms)[1..] == ms;
  }

  lemma {:induction false} ValuesSum(a: seq<Member>, b: seq<Member>, key: string)
    ensures Values(a + b, key) == Values(a, key) + Values(b, key)
  {
    hide Bears, Values;
    if a == [] {
      NoValues(key);
      assert a + b == b;
      assert [] + Values(b, key) == Values(b, key);
    } else {
      var rest := a[1..];
      ValuesSum(rest, b, key);
      ValuesBehind(a[0], rest, key);
      ValuesBehind(a[0], rest + b, key);
      FrontSplit(a, b);
      SeqGrouped(if Bears(a[0], key) then [a[0].value] else [], Values(rest, key), Values(b, key));
    }
  }

  lemma NoValues(key: string)
    ensures Values([], key) == []
  {}

  lemma FrontSplit(a: seq<Member>, b: seq<Member>)
    requires a != []
    ensures a == [a[0]] + a[1..] && a + b == [a[0]] + (a[1..] + b)
  {}

  lemma SeqGrouped(a: seq<Text>, b: seq<Text>, c: seq<Text>)
    ensures a + (b + c) == (a + b) + c
  {}

  lemma ValuesAdded(ms: seq<Member>, m: Member, key: string)
    ensures Values(ms + [m], key) == Values(ms, key) + if Bears(m, key) then [m.value] else []
  {
    ValuesSum(ms, [m], key);
    assert [m][1..] == [];
  }

  lemma ValuesOfOne(m: Member, key: string)
    requires Bears(m, key)
    ensures Values([m], key) == [m.value]
  {
    hide KeyRead;
    assert [m][1..] == [];
  }

  lemma ValuesOfTwo(m: Member, n: Member, key: string)
    requires Bears(m, key) && Bears(n, key)
    ensures Values([m, n], key) == [m.value, n.value]
  {
    hide KeyRead, Values;
    ValuesOfOne(m, key);
    ValuesOfOne(n, key);
    ValuesSum([m], [n], key);
    assert [m] + [n] == [m, n];
  }

  /** How many members in front of the i-th are read as having the key. */
  function Rank(ms: seq<Member>, i: nat, key: string): nat
    requires i <= |ms|
  {
    |Values(ms[..i], key)|
  }

  /** The values around a member. */
  lemma ValuesAround(ms: seq<Member>, i: nat, key: string)
    requires i < |ms|
    ensures Values(ms, key)
         == Values(ms[..i], key) + ((if Bears(ms[i], key) then [ms[i].value] else []) + Values(ms[i + 1..], key))
  {
    assert ms == ms[..i] + ms[i..] && ms[i..][1..] == ms[i + 1..];
    ValuesSum(ms[..i], ms[i..], key);
  }

  /** A member whose key stays has its value exchanged: for readers of its key so is that value, for others nothing. */
  lemma ValuesPut(ms: seq<Member>, i: nat, m: Member, key: string)
    requires i < |ms| && m.key == ms[i].key
    ensures Bears(m, key) ==> Rank(ms, i, key) < |Values(ms, key)|
    ensures Values(ms[i := m], key)
         == if Bears(m, key) then Values(ms, key)[Rank(ms, i, key) := m.value] else Values(ms, key)
  {
    hide Values;
    var ns := ms[i := m];
    ValuesAround(ms, i, key);
    ValuesAround(ns, i, key);
    assert ns[..i] == ms[..i] && ns[i + 1..] == ms[i + 1..];
  }

  lemma {:induction false} NoneBears(ms: seq<Member>, key: string)
    ensures Values(ms, key) == [] <==> forall i | 0 <= i < |ms| :: !Bears(ms[i], key)
  {
    if ms != [] {
      NoneBears(ms[1..], key);
      if forall i | 0 <= i < |ms| :: !Bears(ms[i], key) {
        forall i | 0 <= i < |ms[1..]| ensures !Bears(ms[1..][i], key) { assert ms[1..][i] == ms[i + 1]; }
      } else {
        var i :| 0 <= i < |ms| && Bears(ms[i], key);
        if i > 0 { assert ms[1..][i - 1] == ms[i]; }
      }
    }
  }

  /** Where at most one member has the key all readers find the same. */
  lemma ReadersAgree(ms: seq<Member>, key: string)
    ensures |Values(ms, key)| <= 1 ==> FirstOf(ms, key) == LastOf(ms, key)
  {}

  // ---------- set_value, as readers see it ----------

  lemma {:induction false} ReplaceAt(ms: seq<Member>, key: string, value: Text)
    requires Has(ms, key)
    ensures var i := IndexOf(ms, key); Replace(ms, key, value) == ms[i := ms[i].(value := value)]
  {
    if ms[0].key == key {
      assert ms[0 := ms[0].(value := value)] == [ms[0].(value := value)] + ms[1..];
    } else {
      ReplaceAt(ms[1..], key, value);
    }
  }

  /** Where a member is written: what stood under other keys stays, and its own key has one value changed or added. */
  ghost predicate OneWritten(ms: seq<Member>, ns: seq<Member>, key: string, value: Text) {
    && (forall other | other != key :: Values(ns, other) == Values(ms, other))
    && (if Has(ms, key) then
          var n := Rank(ms, IndexOf(ms, key), key);
          n < |Values(ms, key)| && Values(ns, key) == Values(ms, key)[n := value]
        else Values(ns, key) == Values(ms, key) + [value])
    && (forall i | 0 <= i < |ms| :: i < |ns| && ns[i].key == ms[i].key)
    && (forall i | |ms| <= i < |ns| :: ns[i].key == key)
  }

  lemma PutIsWritten(ms: seq<Member>, m: Member)
    requires PlainKey(m.key) && Has(ms, m.key)
    ensures OneWritten(ms, ms[IndexOf(ms, m.key) := m], m.key, m.value)
  {
    hide Values, Rank, KeyRead, PlainKey;
    PlainKeyRead(m.key);
    var i := IndexOf(ms, m.key);
    forall other ensures other != m.key ==> Values(ms[i := m], other) == Values(ms, other) {
      ValuesPut(ms, i, m, other);
    }
    ValuesPut(ms, i, m, m.key);
  }

  lemma AddedIsWritten(ms: seq<Member>, m: Member)
    requires PlainKey(m.key) && !Has(ms, m.key)
    ensures OneWritten(ms, ms + [m], m.key, m.value)
  {
    hide Values, Rank, KeyRead, PlainKey;
    PlainKeyRead(m.key);
    forall other ensures other != m.key ==> Values(ms + [m], other) == Values(ms, other) {
      ValuesAdded(ms, m, other);
    }
    ValuesAdded(ms, m, m.key);
  }

  /** The member update, as readers see it. */
  lemma UpdateIsWritten(d: Doc, key: string, value: Text)
    requires PlainKey(key)
    ensures OneWritten(d.members, Update(d, key, value).members, key, value)
  {
    hide OneWritten, PlainKey, Has;
    if Has(d.members, key) {
      ReplaceAt(d.members, key, value);
      PutIsWritten(d.members, d.members[IndexOf(d.members, key)].(value := value));
    } else {
      AddedIsWritten(d.members, Update(d, key, value).members[|d.members|]);
    }
  }

  lemma SpelledHas(ms: seq<Member>, key: string)
    requires PlainKey(key)
    ensures Has(ms, key) ==> |Values(ms, key)| > 0
    ensures !Has(ms, key) && Sole(ms, key) ==> Values(ms, key) == []
  {
    hide Values, KeyRead, PlainKey;
    PlainKeyRead(key);
    NoneBears(ms, key);
  }

  lemma OneBears(ms: seq<Member>, key: string, i: nat)
    requires i < |ms| && Bears(ms[i], key) && |Values(ms, key)| <= 1
    ensures forall j | 0 <= j < |ms| && Bears(ms[j], key) :: j == i
  {
    hide Values;
    ValuesAround(ms, i, key);
    NoneBears(ms[..i], key);
    NoneBears(ms[i + 1..], key);
    assert forall j | 0 <= j < i :: ms[..i][j] == ms[j];
    assert forall j | i < j < |ms| :: ms[i + 1..][j - i - 1] == ms[j];
  }

  /** Where a member is written every reader finds the value if and only if at most one had the key, spelled plainly. */
  lemma WrittenReaches(ms: seq<Member>, ns: seq<Member>, key: string, value: Text)
    requires PlainKey(key) && OneWritten(ms, ns, key, value)
    ensures Values(ns, key) == [value] <==> Sole(ms, key)
    ensures forall other | other != key :: Sole(ms, other) <==> Sole(ns, other)
    ensures Sole(ms, key) ==> Sole(ns, key)
  {
    hide Values, KeyRead, Rank;
    PlainKeyRead(key);
    SpelledHas(ms, key);
    NoneBears(ms, key);
    if Has(ms, key) && |Values(ms, key)| <= 1 { OneBears(ms, key, IndexOf(ms, key)); }
  }

  /** Where the first and the last are found to be what is written, for two values, there was no other. */
  lemma FirstAndLastReach(ms: seq<Member>, ns: seq<Member>, os: seq<Member>, key: string, value: Text, other: Text)
    requires PlainKey(key) && OneWritten(ms, ns, key, value) && OneWritten(ms, os, key, other) && value != other
    requires FirstOf(ns, key) == LastOf(ns, key) == Some(value) && FirstOf(os, key) == LastOf(os, key) == Some(other)
    ensures Sole(ms, key)
  {
    hide Values, Rank, Sole, PlainKey;
    WrittenReaches(ms, ns, key, value);
    if |Values(ns, key)| == 1 { assert Values(ns, key) == [value]; }
  }

  lemma DigitIsValue(c: char)
    requires '0' <= c <= '9'
    ensures Value(Char(c, End))
  {
    assert Print(Char(c, End)) == [c];
  }

  /**
   * After the update every reader finds under other keys what it found before. Under the key itself
   * every reader finds the value if and only if at most one member was read as having it and that one
   * spells it so; and those that keep the first and those that keep the last find it, for all values,
   * in no other case.
   */
  lemma UpdateReaches(d: Doc, key: string, value: Text)
    requires PlainKey(key)
    ensures forall other | other != key :: Values(Update(d, key, value).members, other) == Values(d.members, other)
    ensures Values(Update(d, key, value).members, key) == [value] <==> Sole(d.members, key)
    ensures Sole(d.members, key) <==>
            forall v | Value(v) ::
              FirstOf(Update(d, key, v).members, key) == LastOf(Update(d, key, v).members, key) == Some(v)
  {
    hide Values, Sole, Update, Rank, PlainKey, Value;
    UpdateIsWritten(d, key, value);
    WrittenReaches(d.members, Update(d, key, value).members, key, value);
    if Sole(d.members, key) {
      forall v ensures Values(Update(d, key, v).members, key) == [v] {
        UpdateIsWritten(d, key, v);
        WrittenReaches(d.members, Update(d, key, v).members, key, v);
      }
    }
    if forall v | Value(v) ::
      FirstOf(Update(d, key, v).members, key) == LastOf(Update(d, key, v).members, key) == Some(v)
    {
      var v, w := Char('0', End), Char('1', End);
      DigitIsValue('0');
      DigitIsValue('1');
      UpdateIsWritten(d, key, v);
      UpdateIsWritten(d, key, w);
      FirstAndLastReach(d.members, Update(d, key, v).members, Update(d, key, w).members, key, v, w);
    }
  }
}
