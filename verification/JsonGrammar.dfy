/**
 * The grammar of RFC 8259, sections 2 to 7: what set_value does to any JSON text, told without the
 * scanners' own notions of blanks, values and strings.
 */
module JsonGrammar {
  import opened Wrappers
  import opened JsonScanner
  import opened JsonText
  import opened JsonStrings
  import opened DriverSettings
  import opened SettingsFile
  import opened MemberEdit
  import opened ObjectUpdate
  import opened EditCondition
  import opened SettingsWrite
  import opened DriverUpdate

  // ---------- The grammar ----------

  /** A value as it is written; numbers in the parts of section 6, strings as they stand between their quotes. */
  datatype Json = Null
                | True
                | False
                | Number(sign: string, whole: string, fraction: string, exponent: string)
                | String(chars: string)
                | Array(blank: string, items: Items)
                | Object(blank: string, pairs: Pairs)

  /** Elements with the blanks around them. */
  datatype Items = NoItem | Item(lead: string, value: Json, trail: string, rest: Items)

  /** Members with the blanks around key, colon and value. */
  datatype Pairs = NoPair
                 | Pair(lead: string, key: string, mid: string, pad: string, value: Json, trail: string, rest: Pairs)

  /** ws of section 2: space, tab, line feed and carriage return. */
  predicate White(s: string) { forall i | 0 <= i < |s| :: s[i] as int in {0x20, 0x09, 0x0A, 0x0D} }

  predicate AllDigits(s: string) { s != [] && forall i | 0 <= i < |s| :: '0' <= s[i] <= '9' }

  /** An exponent: e or E, perhaps a sign, digits. */
  predicate ExponentOk(s: string) {
    || s == []
    || ((s[0] == 'e' || s[0] == 'E') &&
        (AllDigits(s[1..]) || (|s| > 1 && (s[1] == '+' || s[1] == '-') && AllDigits(s[2..]))))
  }

  predicate Hex(c: char) { '0' <= c <= '9' || 'a' <= c <= 'f' || 'A' <= c <= 'F' }

  /** The characters of a string, section 7. */
  predicate CharsOk(s: string)
    decreases |s|
  {
    if s == [] then true
    else if s[0] == '\\' then
      if |s| >= 6 && s[1] == 'u' then Hex(s[2]) && Hex(s[3]) && Hex(s[4]) && Hex(s[5]) && CharsOk(s[6..])
      else |s| >= 2 && s[1] in ['"', '\\', '/', 'b', 'f', 'n', 'r', 't'] && CharsOk(s[2..])
    else s[0] != '"' && s[0] as int >= 0x20 && CharsOk(s[1..])
  }

  predicate Ok(j: Json) {
    match j
    case Number(sign, whole, fraction, exponent) =>
      && (sign == [] || sign == "-")
      && AllDigits(whole) && (whole[0] == '0' ==> |whole| == 1)
      && (fraction == [] || (fraction[0] == '.' && AllDigits(fraction[1..])))
      && ExponentOk(exponent)
    case String(chars) => CharsOk(chars)
    case Array(blank, items) => White(blank) && ItemsOk(items)
    case Object(blank, pairs) => White(blank) && PairsOk(pairs)
    case _ => true
  }

  predicate ItemsOk(xs: Items) {
    xs.Item? ==> White(xs.lead) && Ok(xs.value) && White(xs.trail) && ItemsOk(xs.rest)
  }

  predicate PairsOk(ps: Pairs) {
    ps.Pair? ==>
      && White(ps.lead) && CharsOk(ps.key) && White(ps.mid) && White(ps.pad) && Ok(ps.value) && White(ps.trail)
      && PairsOk(ps.rest)
  }

  /** The text. */
  function TextOf(j: Json): string {
    match j
    case Null => "null"
    case True => "true"
    case False => "false"
    case Number(sign, whole, fraction, exponent) => sign + (whole + (fraction + exponent))
    case String(chars) => "\"" + chars + "\""
    case Array(blank, items) => "[" + ((if items.NoItem? then blank else ItemsTextOf(items)) + "]")
    case Object(blank, pairs) => "{" + ((if pairs.NoPair? then blank else PairsTextOf(pairs)) + "}")
  }

  function ItemsTextOf(xs: Items): string {
    match xs
    case NoItem => ""
    case Item(lead, value, trail, rest) =>
      lead + (TextOf(value) + (trail + if rest.NoItem? then "" else "," + ItemsTextOf(rest)))
  }

  function PairsTextOf(ps: Pairs): string {
    match ps
    case NoPair => ""
    case Pair(lead, key, mid, pad, value, trail, rest) =>
      (lead + (("\"" + key + "\"") + (mid + (":" + pad))) + (TextOf(value) + trail))
      + if rest.NoPair? then "" else "," + PairsTextOf(rest)
  }

  // ---------- Any of it is a value of the model ----------

  function AsText(j: Json): Text {
    match j
    case String(chars) => Str(chars, End)
    case Array(blank, items) => Group(false, if items.NoItem? then Chars(blank) else ItemsText(items), End)
    case Object(blank, pairs) => ObjectText(Doc("", MembersOf(pairs), blank, ""))
    case _ => Chars(TextOf(j))
  }

  function ItemsText(xs: Items): Text {
    match xs
    case NoItem => End
    case Item(lead, value, trail, rest) =>
      var more := if rest.NoItem? then End else Char(',', ItemsText(rest));
      Then(Chars(lead), Then(AsText(value), Then(Chars(trail), more)))
  }

  function MembersOf(ps: Pairs): (ms: seq<Member>)
    ensures ms == [] <==> ps.NoPair?
  {
    match ps
    case NoPair => []
    case Pair(lead, key, mid, pad, value, trail, rest) =>
      [Member(lead, key, mid, pad, AsText(value), trail)] + MembersOf(rest)
  }

  lemma WhiteIsBlank(s: string)
    requires White(s)
    ensures AllBlank(s)
  {}

  lemma {:induction false} CharsAreRaw(s: string)
    requires CharsOk(s)
    ensures Raw(s, false)
    decreases |s|
  {
    if s != [] {
      if s[0] != '\\' {
        CharsAreRaw(s[1..]);
      } else if |s| >= 6 && s[1] == 'u' {
        CharsAreRaw(s[6..]);
        HexIsRaw(s[2..], 4);
        assert s[1..][1..] == s[2..];
      } else {
        CharsAreRaw(s[2..]);
        assert s[1..][1..] == s[2..];
      }
    }
  }

  lemma {:induction false} HexIsRaw(s: string, n: nat)
    requires n <= |s| && (forall i | 0 <= i < n :: Hex(s[i])) && Raw(s[n..], false)
    ensures Raw(s, false)
    decreases n
  {
    if n > 0 {
      assert s[1..][n - 1..] == s[n..];
      HexIsRaw(s[1..], n - 1);
    }
  }

  /** A character of a number or a literal. */
  predicate InWord(c: char) { Digital(c) || 'a' <= c <= 'z' }

  lemma InWordIsLoose(c: char)
    requires InWord(c)
    ensures Loose(c) && c != ',' && !Space(c)
  {}

  lemma WordIsText(s: string)
    requires s != [] && forall i | 0 <= i < |s| :: InWord(s[i])
    ensures Value(Chars(s)) && Print(Chars(s)) == s
  {
    hide InWord, Loose, Space, Print, Lone, WellFormed, Chars;
    forall i | 0 <= i < |s| ensures Loose(s[i]) && s[i] != ',' && !Space(s[i]) { InWordIsLoose(s[i]); }
    CharsPrint(s);
  }

  predicate Digital(c: char) { '0' <= c <= '9' || c == '-' || c == '+' || c == '.' || c == 'e' || c == 'E' }

  lemma DigitsAreDigital(s: string)
    requires AllDigits(s)
    ensures forall i | 0 <= i < |s| :: Digital(s[i])
  {}

  lemma SignsAreDigital()
    ensures Digital('-') && Digital('.')
  {}

  lemma NumberIsWord(j: Json)
    requires j.Number? && Ok(j)
    ensures TextOf(j) != [] && forall i | 0 <= i < |TextOf(j)| :: Digital(TextOf(j)[i])
  {
    hide Digital, ExponentOk;
    SignsAreDigital();
    DigitsAreDigital(j.whole);
    if j.fraction != [] {
      DigitsAreDigital(j.fraction[1..]);
      assert forall i | 1 <= i < |j.fraction| :: j.fraction[i] == j.fraction[1..][i - 1];
    }
    ExponentIsWord(j.exponent);
    var tail := j.fraction + j.exponent;
    assert forall i | 0 <= i < |tail| :: Digital(tail[i]);
    var number := j.whole + tail;
    assert forall i | 0 <= i < |number| :: Digital(number[i]);
  }

  lemma ExponentIsWord(s: string)
    requires ExponentOk(s)
    ensures forall i | 0 <= i < |s| :: Digital(s[i])
  {
    if s != [] {
      if AllDigits(s[1..]) {
        assert forall i | 1 <= i < |s| :: s[i] == s[1..][i - 1];
      } else {
        assert forall i | 2 <= i < |s| :: s[i] == s[2..][i - 2];
      }
    }
  }

  /** Every JSON value in its text is a value of the model with that text. */
  lemma {:induction false} JsonIsValue(j: Json)
    requires Ok(j)
    ensures Value(AsText(j)) && Print(AsText(j)) == TextOf(j)
    decreases j
  {
    hide Value, Print, Compact, Lone, WellFormed;
    match j {
      case Null => WordIsText("null");
      case True => WordIsText("true");
      case False => WordIsText("false");
      case Number(_, _, _, _) => NumberIsWord(j); WordIsText(TextOf(j));
      case String(chars) => StringIsValue(chars);
      case Array(blank, items) =>
        ItemsAreText(items);
        ArrayIsValue(blank, items);
      case Object(blank, pairs) =>
        PairsAreMembers(pairs);
        WhiteIsBlank(blank);
        ObjectIsValue(Doc("", MembersOf(pairs), blank, ""));
    }
  }

  lemma StringIsValue(chars: string)
    requires CharsOk(chars)
    ensures Value(Str(chars, End)) && Print(Str(chars, End)) == "\"" + chars + "\""
  {
    CharsAreRaw(chars);
    var text := Print(Str(chars, End));
    assert Print(Text.End) == [] && text == Quoted(chars);
    assert text[0] == '"' && text[|text| - 1] == '"';
  }

  lemma ArrayIsValue(blank: string, items: Items)
    requires White(blank) && WellFormed(ItemsText(items)) && Print(ItemsText(items)) == ItemsTextOf(items)
    ensures Value(AsText(Array(blank, items))) && Print(AsText(Array(blank, items))) == TextOf(Array(blank, items))
  {
    WhiteIsBlank(blank);
    BlankIsLoose(blank);
    var t := AsText(Array(blank, items));
    GroupText(t, []);
    assert Print(Text.End) == [] && WellFormed(Text.End) && Lone(Text.End);
    assert Print(t) + [] == Print(t);
    var text := Print(t);
    assert text[0] == '[' && text[|text| - 1] == ']';
  }

  lemma {:induction false} ItemsAreText(xs: Items)
    requires ItemsOk(xs)
    ensures WellFormed(ItemsText(xs)) && Print(ItemsText(xs)) == ItemsTextOf(xs)
    decreases xs
  {
    hide AsText, TextOf, AllBlank, White, Ok;
    if xs.Item? {
      JsonIsValue(xs.value);
      ItemsAreText(xs.rest);
      WhiteIsBlank(xs.lead);
      WhiteIsBlank(xs.trail);
      BlankIsLoose(xs.lead);
      BlankIsLoose(xs.trail);
      ValueIsWellFormed(AsText(xs.value));
      var more := if xs.rest.NoItem? then Text.End else Char(',', ItemsText(xs.rest));
      assert Print(more) == (if xs.rest.NoItem? then "" else "," + ItemsTextOf(xs.rest)) && WellFormed(more);
      ThenPrints(Chars(xs.trail), more);
      ThenPrints(AsText(xs.value), Then(Chars(xs.trail), more));
      ThenPrints(Chars(xs.lead), Then(AsText(xs.value), Then(Chars(xs.trail), more)));
    }
  }

  lemma {:induction false} PairsAreMembers(ps: Pairs)
    requires PairsOk(ps)
    ensures MembersOk(MembersOf(ps)) && PrintMembers(MembersOf(ps)) == PairsTextOf(ps)
    decreases ps
  {
    hide AsText, TextOf, AllBlank, White, Ok, CharsOk, Raw, Value, Print;
    if ps.Pair? {
      JsonIsValue(ps.value);
      PairsAreMembers(ps.rest);
      CharsAreRaw(ps.key);
      WhiteIsBlank(ps.lead);
      WhiteIsBlank(ps.mid);
      WhiteIsBlank(ps.pad);
      WhiteIsBlank(ps.trail);
      var ms := MembersOf(ps);
      assert ms[1..] == MembersOf(ps.rest);
      assert PrintMember(ms[0]) ==
        ps.lead + (("\"" + ps.key + "\"") + (ps.mid + (":" + ps.pad))) + (TextOf(ps.value) + ps.trail);
    }
  }

  // ---------- Any JSON object is an object of the model ----------

  function DocOf(head: string, j: Json, tail: string): Doc
    requires j.Object?
  {
    Doc(head, MembersOf(j.pairs), j.blank, tail)
  }

  predicate NoBrace(head: string) { forall i | 0 <= i < |head| :: head[i] != '{' }

  /** Every JSON object, behind text without a brace and in front of any text, is one that the theorems are about. */
  lemma JsonIsDoc(head: string, j: Json, tail: string)
    requires j.Object? && Ok(j) && NoBrace(head)
    ensures DocOk(DocOf(head, j, tail)) && PrintDoc(DocOf(head, j, tail)) == head + (TextOf(j) + tail)
  {
    hide MembersOk, PrintMembers, PairsTextOf, AllBlank, White;
    PairsAreMembers(j.pairs);
    WhiteIsBlank(j.blank);
    var d := DocOf(head, j, tail);
    assert ("{" + (Body(d) + "}")) + tail == "{" + (Body(d) + ("}" + tail));
  }

  // ---------- set_value on JSON ----------

  predicate HasKey(ps: Pairs, key: string) { ps.Pair? && (ps.key == key || HasKey(ps.rest, key)) }

  /** The first member with the key gets the value. */
  function Exchanged(ps: Pairs, key: string, value: Json): Pairs {
    match ps
    case NoPair => NoPair
    case Pair(_, k, _, _, _, _, rest) =>
      if k == key then ps.(value := value) else ps.(rest := Exchanged(rest, key, value))
  }

  function Appending(ps: Pairs, last: Pairs): Pairs {
    match ps
    case NoPair => last
    case Pair(_, _, _, _, _, _, rest) => ps.(rest := Appending(rest, last))
  }

  /** The object with the key set: its value exchanged, or a member on a line of its own behind all others. */
  function WithMember(j: Json, key: string, value: Json): (r: Json)
    requires j.Object?
    ensures r.Object?
  {
    if HasKey(j.pairs, key) then j.(pairs := Exchanged(j.pairs, key, value))
    else
      var lead := (if j.pairs.NoPair? then j.blank else "") + "\n      ";
      j.(pairs := Appending(j.pairs, Pair(lead, key, " ", " ", value, "\n", NoPair)))
  }

  lemma {:induction false} HasIsHasKey(ps: Pairs, key: string)
    ensures Has(MembersOf(ps), key) <==> HasKey(ps, key)
  {
    if ps.Pair? {
      HasIsHasKey(ps.rest, key);
      var ms := MembersOf(ps);
      assert ms[0].key == ps.key && ms[1..] == MembersOf(ps.rest);
      HasFirstOrLater(ms, key);
    }
  }

  lemma HasFirstOrLater(ms: seq<Member>, key: string)
    requires ms != []
    ensures Has(ms, key) <==> ms[0].key == key || Has(ms[1..], key)
  {
    if i :| 0 <= i < |ms[1..]| && ms[1..][i].key == key { assert ms[i + 1].key == key; }
    if i :| 0 < i < |ms| && ms[i].key == key { assert ms[1..][i - 1].key == key; }
  }

  lemma {:induction false} ExchangedIs(ps: Pairs, key: string, value: Json)
    ensures MembersOf(Exchanged(ps, key, value)) == Replace(MembersOf(ps), key, AsText(value))
    ensures PairsOk(ps) && Ok(value) ==> PairsOk(Exchanged(ps, key, value))
  {
    hide AsText, Ok, White, CharsOk;
    if ps.Pair? {
      ExchangedIs(ps.rest, key, value);
      assert MembersOf(ps)[1..] == MembersOf(ps.rest);
    }
  }

  lemma {:induction false} AppendingIs(ps: Pairs, last: Pairs)
    ensures MembersOf(Appending(ps, last)) == MembersOf(ps) + MembersOf(last)
    ensures PairsOk(ps) && PairsOk(last) ==> PairsOk(Appending(ps, last))
  {
    hide AsText, Ok, White, CharsOk;
    if ps.Pair? { AppendingIs(ps.rest, last); }
  }

  lemma NewLineIsWhite(blank: string)
    ensures White(" ") && White("\n") && White("" + "\n      ") && (White(blank) ==> White(blank + "\n      "))
  {
    var lead := "\n      ";
    assert forall i | 0 <= i < |lead| :: lead[i] == '\n' || lead[i] == ' ';
    assert "" + lead == lead;
  }

  /** On members, setting a key is the update; and the outcome is JSON again. */
  lemma WithMemberIs(head: string, j: Json, tail: string, key: string, value: Json)
    requires j.Object? && Ok(j) && Ok(value) && CharsOk(key)
    ensures DocOf(head, WithMember(j, key, value), tail) == Update(DocOf(head, j, tail), key, AsText(value))
    ensures Ok(WithMember(j, key, value))
  {
    hide AsText, CharsOk, Has, HasKey;
    HasIsHasKey(j.pairs, key);
    if HasKey(j.pairs, key) {
      ExchangedIs(j.pairs, key, value);
    } else {
      var lead := (if j.pairs.NoPair? then j.blank else "") + "\n      ";
      var last := Pair(lead, key, " ", " ", value, "\n", NoPair);
      assert MembersOf(last) == [Member(lead, key, " ", " ", AsText(value), "\n")];
      assert PairsOk(last) by { NewLineIsWhite(j.blank); }
      AppendingIs(j.pairs, last);
    }
  }

  lemma {:induction false} PlainKeyIsJson(key: string)
    requires PlainKey(key)
    ensures CharsOk(key) && NoEscapes(key)
    decreases |key|
  {
    if key != [] { PlainKeyIsJson(key[1..]); }
  }

  /** In the text of a JSON object, set_value sets the key to the value, and leaves every other character. */
  ghost predicate SetsKey(head: string, j: Json, tail: string, key: string, value: Json)
    requires j.Object?
  {
    Edited(head + (TextOf(j) + tail), key, TextOf(value)) == head + (TextOf(WithMember(j, key, value)) + tail)
  }

  lemma SetsKeyIs(head: string, j: Json, tail: string, key: string, value: Json)
    requires j.Object? && Ok(j) && NoBrace(head) && PlainKey(key) && Ok(value)
    ensures
      var d := DocOf(head, j, tail);
      SetsKey(head, j, tail, key, value) <==>
      Edited(PrintDoc(d), key, Print(AsText(value))) == PrintDoc(Update(d, key, AsText(value)))
    ensures Ok(WithMember(j, key, value)) && Value(AsText(value)) && DocOk(DocOf(head, j, tail)) && NoEscapes(key)
  {
    hide DocOf, Ok, TextOf, WithMember, Edited, PrintDoc, Print, Update, AsText, NoBrace, PlainKey, CharsOk, DocOk,
         Value;
    PlainKeyIsJson(key);
    JsonIsDoc(head, j, tail);
    JsonIsValue(value);
    WithMemberIs(head, j, tail, key, value);
    JsonIsDoc(head, WithMember(j, key, value), tail);
  }

  function DigitJson(c: char): Json { Number("", [c], "", "") }

  lemma DigitJsonIs(c: char)
    requires c == '0' || c == '1'
    ensures Ok(DigitJson(c)) && AsText(DigitJson(c)) == Char(c, End)
  {
    assert TextOf(DigitJson(c)) == [c];
    assert [c][1..] == [];
  }

  /**
   * For every JSON object and every plain key: set_value sets the key to each JSON value, as JSON
   * again, if and only if its scan meets the key first at the key's first member, or nowhere where
   * the object has no such member.
   */
  lemma SetsJsonExactlyWhen(head: string, j: Json, tail: string, key: string)
    requires j.Object? && Ok(j) && NoBrace(head) && PlainKey(key)
    ensures MeetsRight(DocOf(head, j, tail), key) <==> forall value | Ok(value) :: SetsKey(head, j, tail, key, value)
    ensures forall value | Ok(value) :: Ok(WithMember(j, key, value))
  {
    hide DocOf, MeetsRight, Ok, SetsKey, WithMember, PrintDoc, Print, Update, AsText, NoBrace, PlainKey, DocOk, Value,
         Edited, NoEscapes;
    var d := DocOf(head, j, tail);
    forall value | Ok(value)
      ensures Ok(WithMember(j, key, value)) && (MeetsRight(d, key) ==> SetsKey(head, j, tail, key, value))
    {
      SetsKeyIs(head, j, tail, key, value);
      UpdatesExactlyWhen(d, key);
    }
    if !MeetsRight(d, key) {
      DigitJsonIs('0');
      SetsKeyIs(head, j, tail, key, DigitJson('0'));
      var t := WrongDigitIsSeen(d, key);
      DigitJsonIs(t.c);
      SetsKeyIs(head, j, tail, key, DigitJson(t.c));
    }
  }

  // ---------- Strings that read like the key ----------

  /** A string equal to the key, as the value itself or in arrays. */
  predicate HoldsString(j: Json, key: string) {
    match j
    case String(chars) => chars == key
    case Array(_, items) => ItemsHold(items, key)
    case _ => false
  }

  predicate ItemsHold(xs: Items, key: string) { xs.Item? && (HoldsString(xs.value, key) || ItemsHold(xs.rest, key)) }

  /** No value before the key's first member holds such a string. */
  predicate NoneHolds(ps: Pairs, key: string) {
    ps.Pair? && ps.key != key ==> !HoldsString(ps.value, key) && NoneHolds(ps.rest, key)
  }

  lemma {:induction false} StrayThen(t: Text, u: Text, key: string)
    ensures HasStray(Then(t, u), key) <==> HasStray(t, key) || HasStray(u, key)
    decreases t
  {
    if !t.End? { StrayThen(t.rest, u, key); }
  }

  lemma {:induction false} StrayChars(s: string, key: string)
    ensures !HasStray(Chars(s), key)
  {
    if s != [] { StrayChars(s[1..], key); }
  }

  lemma {:induction false} StrayIs(j: Json, key: string)
    ensures HasStray(AsText(j), key) <==> HoldsString(j, key)
    decreases j
  {
    hide Chars, TextOf;
    match j {
      case Array(blank, items) => ItemsStray(items, key); StrayChars(blank, key);
      case String(_) =>
      case Object(_, _) =>
      case _ => StrayChars(TextOf(j), key);
    }
  }

  lemma {:induction false} ItemsStray(xs: Items, key: string)
    ensures HasStray(ItemsText(xs), key) <==> ItemsHold(xs, key)
    decreases xs
  {
    hide Chars, Then, AsText, HoldsString;
    if xs.Item? {
      var more := if xs.rest.NoItem? then Text.End else Char(',', ItemsText(xs.rest));
      StrayIs(xs.value, key);
      ItemsStray(xs.rest, key);
      StrayChars(xs.lead, key);
      StrayChars(xs.trail, key);
      StrayThen(Chars(xs.trail), more, key);
      StrayThen(AsText(xs.value), Then(Chars(xs.trail), more), key);
      StrayThen(Chars(xs.lead), Then(AsText(xs.value), Then(Chars(xs.trail), more)), key);
    }
  }

  lemma {:induction false} NoneHoldsIs(ps: Pairs, key: string)
    ensures NoStrayBefore(MembersOf(ps), key) <==> NoneHolds(ps, key)
  {
    hide AsText, HasStray, HoldsString;
    if ps.Pair? {
      StrayIs(ps.value, key);
      NoneHoldsIs(ps.rest, key);
      assert MembersOf(ps)[1..] == MembersOf(ps.rest);
    }
  }

  /** So it does for every JSON value if no string equal to the key is a value, or in an array, before its member. */
  lemma SetsJson(head: string, j: Json, tail: string, key: string, value: Json)
    requires j.Object? && Ok(j) && NoBrace(head) && PlainKey(key) && Ok(value) && NoneHolds(j.pairs, key)
    ensures SetsKey(head, j, tail, key, value) && Ok(WithMember(j, key, value))
  {
    hide Ok, SetsKey, WithMember, PrintDoc, Print, Update, AsText, NoBrace, PlainKey, DocOk, Value, Edited, NoEscapes;
    SetsKeyIs(head, j, tail, key, value);
    NoneHoldsIs(j.pairs, key);
    EditIsUpdate(DocOf(head, j, tail), key, AsText(value));
  }
}
