/** The two regular expressions with which write_steamvr_settings repairs an old section. */
module Repairs {
  import opened Wrappers
  import opened SettingsFile

  // ---------- regex_replace with the two patterns ----------

  predicate IsTab(c: char) { c == ' ' || c == '\t' }

  function SkipTabs(text: string, i: nat): (k: nat)
    requires i <= |text|
    ensures i <= k <= |text| && (forall j | i <= j < k :: IsTab(text[j])) && (k < |text| ==> !IsTab(text[k]))
    decreases |text| - i
  {
    if i < |text| && IsTab(text[i]) then SkipTabs(text, i + 1) else i
  }

  function SkipBlanks(text: string, i: nat): (k: nat)
    requires i <= |text|
    ensures i <= k <= |text| && (forall j | i <= j < k :: IsBlank(text[j])) && (k < |text| ==> !IsBlank(text[k]))
    decreases |text| - i
  {
    if i < |text| && IsBlank(text[i]) then SkipBlanks(text, i + 1) else i
  }

  /** The length of a match of the first pattern where the text starts: a line break, .0, and the blanks about it. */
  function ZeroMatch(text: string): (n: Option<nat>)
    ensures n.Some? ==> 0 < n.value <= |text|
  {
    if text == [] || text[0] != '\n' then None
    else
      var k := SkipTabs(text, 1);
      if k + 2 <= |text| && text[k] == '.' && text[k + 1] == '0' then Some(SkipTabs(text, k + 2)) else None
  }

  function RemoveZeros(text: string): string
    decreases |text|
  {
    if text == [] then []
    else
      var n := ZeroMatch(text);
      if n.Some? then RemoveZeros(text[n.value..]) else [text[0]] + RemoveZeros(text[1..])
  }

  /** The length of a match of the second: two commas with nothing but blanks between. */
  function CommaMatch(text: string): (n: Option<nat>)
    ensures n.Some? ==> 0 < n.value <= |text|
  {
    if text == [] || text[0] != ',' then None
    else
      var k := SkipBlanks(text, 1);
      if k < |text| && text[k] == ',' then Some(k + 1) else None
  }

  function CollapseCommas(text: string): string
    decreases |text|
  {
    if text == [] then []
    else
      var n := CommaMatch(text);
      if n.Some? then "," + CollapseCommas(text[n.value..]) else [text[0]] + CollapseCommas(text[1..])
  }

  function Repair(text: string): string { CollapseCommas(RemoveZeros(text)) }

  // ---------- Text with nothing to repair ----------

  ghost predicate Clean(text: string) {
    forall i | 0 <= i < |text| :: ZeroMatch(text[i..]).None? && CommaMatch(text[i..]).None?
  }

  lemma {:induction false} CleanIsKept(text: string)
    requires Clean(text)
    ensures RemoveZeros(text) == text && CollapseCommas(text) == text
    decreases |text|
  {
    hide ZeroMatch, CommaMatch;
    if text != [] {
      assert text[0..] == text;
      forall i | 0 <= i < |text[1..]| ensures ZeroMatch(text[1..][i..]).None? && CommaMatch(text[1..][i..]).None? {
        assert text[1..][i..] == text[i + 1..];
      }
      CleanIsKept(text[1..]);
      assert [text[0]] + text[1..] == text;
    }
  }

  lemma CleanStays(text: string)
    requires Clean(text)
    ensures Repair(text) == text
  {
    CleanIsKept(text);
  }

  /** One pass is not always enough: of three commas in a row two are left. */
  lemma CommasNeedTwoPasses()
    ensures CollapseCommas(",,,") == ",," && CollapseCommas(",,") == ","
  {
    var three, two: string := ",,,", ",,";
    assert three[2..] == "," && two[2..] == [];
    assert SkipBlanks(three, 1) == 1 && SkipBlanks(two, 1) == 1;
    assert CollapseCommas([]) == [];
    var one: string := ",";
    assert one[1..] == [] && CommaMatch(one) == None;
    assert CollapseCommas(one) == ",";
  }

  /** Nor is it for the first expression: what stands around a match can close up to another one. */
  lemma ZerosNeedTwoPasses()
    ensures RemoveZeros("\n\n.0.0") == "\n.0" && RemoveZeros("\n.0") == []
  {
    var two, one: string := "\n\n.0.0", "\n.0";
    assert SkipTabs(two, 1) == 1 && ZeroMatch(two).None?;
    var rest := two[1..];
    assert rest == "\n.0.0" && SkipTabs(rest, 1) == 1 && SkipTabs(rest, 3) == 3 && rest[3..] == ".0";
    assert SkipTabs(one, 1) == 1 && SkipTabs(one, 3) == 3 && one[3..] == [];
    PointIsKept(".0");
  }

  lemma PointIsKept(text: string)
    requires text == ".0"
    ensures RemoveZeros(text) == text
  {
    assert text[1..] == "0" && text[1..][1..] == [];
    assert RemoveZeros(text[1..]) == ['0'] + RemoveZeros([]);
  }

  // ---------- Matches, by positions ----------

  /** A match of the first pattern at i, its point at k. */
  predicate ZeroAt(text: string, i: nat, k: nat) {
    && i < k && k + 1 < |text| && text[i] == '\n' && text[k] == '.' && text[k + 1] == '0'
    && forall j | i < j < k :: text[j] == ' ' || text[j] == '\t'
  }

  /** A match of the second at i, its other comma at k. */
  predicate CommasAt(text: string, i: nat, k: nat) {
    i < k < |text| && text[i] == ',' && text[k] == ',' && forall j | i < j < k :: text[j] in " \t\r\n"
  }

  lemma ZeroFound(text: string, i: nat) returns (k: nat)
    requires i < |text| && ZeroMatch(text[i..]).Some?
    ensures ZeroAt(text, i, k)
  {
    var rest := text[i..];
    k := i + SkipTabs(rest, 1);
    forall j | i < j < k ensures IsTab(text[j]) { assert rest[j - i] == text[j]; }
  }

  lemma CommasFound(text: string, i: nat) returns (k: nat)
    requires i < |text| && CommaMatch(text[i..]).Some?
    ensures CommasAt(text, i, k)
  {
    var rest := text[i..];
    k := i + SkipBlanks(rest, 1);
    forall j | i < j < k ensures IsBlank(text[j]) { assert rest[j - i] == text[j]; }
  }

  lemma ZeroShows(text: string, i: nat, k: nat)
    requires ZeroAt(text, i, k)
    ensures !Clean(text)
  {
    hide CommaMatch;
    var rest := text[i..];
    TabsUpTo(rest, 1, k - i);
    assert ZeroMatch(rest).Some?;
  }

  lemma {:induction false} TabsUpTo(text: string, i: nat, k: nat)
    requires i <= k < |text| && !IsTab(text[k]) && forall j | i <= j < k :: IsTab(text[j])
    ensures SkipTabs(text, i) == k
    decreases k - i
  {
    if i < k { TabsUpTo(text, i + 1, k); }
  }

  lemma CommasShow(text: string, i: nat, k: nat)
    requires CommasAt(text, i, k)
    ensures !Clean(text)
  {
    hide ZeroMatch;
    var rest := text[i..];
    BlanksUpTo(rest, 1, k - i);
    assert CommaMatch(rest).Some?;
  }

  lemma {:induction false} BlanksUpTo(text: string, i: nat, k: nat)
    requires i <= k < |text| && !IsBlank(text[k]) && forall j | i <= j < k :: IsBlank(text[j])
    ensures SkipBlanks(text, i) == k
    decreases k - i
  {
    if i < k { BlanksUpTo(text, i + 1, k); }
  }

  ghost predicate NoMatch(text: string) {
    forall i: nat, k: nat :: !ZeroAt(text, i, k) && !CommasAt(text, i, k)
  }

  lemma CleanIs(text: string)
    ensures Clean(text) <==> NoMatch(text)
  {
    hide ZeroAt, CommasAt, ZeroMatch, CommaMatch;
    if Clean(text) {
      forall i: nat, k: nat ensures !ZeroAt(text, i, k) && !CommasAt(text, i, k) {
        if ZeroAt(text, i, k) { ZeroShows(text, i, k); }
        if CommasAt(text, i, k) { CommasShow(text, i, k); }
      }
    }
    if NoMatch(text) {
      forall i | 0 <= i < |text| ensures ZeroMatch(text[i..]).None? && CommaMatch(text[i..]).None? {
        if ZeroMatch(text[i..]).Some? { var k := ZeroFound(text, i); }
        if CommaMatch(text[i..]).Some? { var k := CommasFound(text, i); }
      }
    }
  }

  // ---------- What becomes of a match ----------

  /** No match begins at any of the first i characters. */
  ghost predicate ZeroFree(text: string, i: nat) {
    i <= |text| && forall j | 0 <= j < i :: ZeroMatch(text[j..]).None?
  }

  ghost predicate CommaFree(text: string, i: nat) {
    i <= |text| && forall j | 0 <= j < i :: CommaMatch(text[j..]).None?
  }

  lemma FreeFurther(text: string, i: nat)
    requires 0 < i <= |text|
    ensures ZeroFree(text, i) ==> ZeroMatch(text).None? && ZeroFree(text[1..], i - 1)
    ensures CommaFree(text, i) ==> CommaMatch(text).None? && CommaFree(text[1..], i - 1)
  {
    hide ZeroMatch, CommaMatch;
    assert text[0..] == text;
    forall j | 0 <= j < i - 1 ensures text[1..][j..] == text[j + 1..] {}
  }

  lemma OneFurther(text: string, i: nat)
    requires 0 < i <= |text|
    ensures text[1..][i - 1..] == text[i..] && [text[0]] + text[1..][..i - 1] == text[..i]
  {}

  lemma KeepsOne(text: string)
    requires text != []
    ensures ZeroMatch(text).None? ==> RemoveZeros(text) == [text[0]] + RemoveZeros(text[1..])
    ensures CommaMatch(text).None? ==> CollapseCommas(text) == [text[0]] + CollapseCommas(text[1..])
  {
    hide ZeroMatch, CommaMatch;
  }

  lemma AtOnce(text: string)
    ensures text[..0] + RemoveZeros(text[0..]) == RemoveZeros(text)
    ensures text[..0] + CollapseCommas(text[0..]) == CollapseCommas(text)
  {
    hide RemoveZeros, CollapseCommas;
    assert text[0..] == text;
  }

  lemma Joins(c: char, a: string, b: string)
    ensures [c] + (a + b) == ([c] + a) + b
  {}

  lemma {:induction false} KeptUpTo(text: string, i: nat)
    requires ZeroFree(text, i)
    ensures i <= |text| && RemoveZeros(text) == text[..i] + RemoveZeros(text[i..])
    decreases i
  {
    hide ZeroMatch, RemoveZeros;
    if i == 0 {
      AtOnce(text);
    } else {
      FreeFurther(text, i);
      hide ZeroFree;
      OneFurther(text, i);
      KeptUpTo(text[1..], i - 1);
      KeepsOne(text);
      Joins(text[0], text[1..][..i - 1], RemoveZeros(text[i..]));
    }
  }

  lemma {:induction false} CommasKeptUpTo(text: string, i: nat)
    requires CommaFree(text, i)
    ensures i <= |text| && CollapseCommas(text) == text[..i] + CollapseCommas(text[i..])
    decreases i
  {
    hide CommaMatch, CollapseCommas;
    if i == 0 {
      AtOnce(text);
    } else {
      FreeFurther(text, i);
      hide CommaFree;
      OneFurther(text, i);
      CommasKeptUpTo(text[1..], i - 1);
      KeepsOne(text);
      Joins(text[0], text[1..][..i - 1], CollapseCommas(text[i..]));
    }
  }

  lemma {:induction false} AllTabs(text: string, i: nat, k: nat)
    requires i <= k <= |text| && (k < |text| ==> !IsTab(text[k])) && forall j | i <= j < k :: IsTab(text[j])
    ensures SkipTabs(text, i) == k
    decreases k - i
  {
    if i < k { AllTabs(text, i + 1, k); }
  }

  /** No match of the first pattern begins in front of i, or of the second. */
  ghost predicate NoZeroBefore(text: string, i: nat) { forall j: nat, m: nat | j < i :: !ZeroAt(text, j, m) }

  ghost predicate NoCommasBefore(text: string, i: nat) { forall j: nat, m: nat | j < i :: !CommasAt(text, j, m) }

  /** The blanks behind the first pattern, to their end. */
  ghost predicate TabsEnd(text: string, from: nat, end: nat) {
    && from <= end <= |text| && (forall j | from <= j < end :: text[j] == ' ' || text[j] == '\t')
    && (end < |text| ==> text[end] != ' ' && text[end] != '\t')
  }

  /** The first match of the first pattern is cut out, with all blanks behind it; the search goes on behind them. */
  lemma FirstZeroIsCut(text: string, i: nat, k: nat, end: nat)
    requires ZeroAt(text, i, k) && NoZeroBefore(text, i) && TabsEnd(text, k + 2, end)
    ensures RemoveZeros(text) == text[..i] + RemoveZeros(text[end..])
  {
    hide RemoveZeros, ZeroMatch, NoZeroBefore, ZeroFree;
    ZeroLength(text, i, k, end);
    NoZeroUpTo(text, i);
    KeptUpTo(text, i);
    CutsOne(text[i..], end - i);
    CutTwice(text, i, end);
  }

  lemma CutTwice(text: string, i: nat, end: nat)
    requires i <= end <= |text|
    ensures text[i..][end - i..] == text[end..]
  {}

  lemma NoZeroUpTo(text: string, i: nat)
    requires i <= |text| && NoZeroBefore(text, i)
    ensures ZeroFree(text, i)
  {
    hide ZeroMatch, ZeroAt;
    forall j | 0 <= j < i ensures ZeroMatch(text[j..]).None? {
      if ZeroMatch(text[j..]).Some? { var m := ZeroFound(text, j); }
    }
  }

  lemma ZeroLength(text: string, i: nat, k: nat, end: nat)
    requires ZeroAt(text, i, k) && TabsEnd(text, k + 2, end)
    ensures ZeroMatch(text[i..]) == Some(end - i)
  {
    var rest := text[i..];
    assert forall j | 0 <= j < |rest| :: rest[j] == text[i + j];
    TabsUpTo(rest, 1, k - i);
    AllTabs(rest, k - i + 2, end - i);
  }

  lemma CutsOne(text: string, n: nat)
    requires ZeroMatch(text) == Some(n)
    ensures RemoveZeros(text) == RemoveZeros(text[n..])
  {}

  lemma CollapsesOne(text: string, n: nat)
    requires CommaMatch(text) == Some(n)
    ensures CollapseCommas(text) == "," + CollapseCommas(text[n..])
  {}

  /** The first match of the second pattern becomes one comma; the search goes on behind it. */
  lemma FirstCommasAreOne(text: string, i: nat, k: nat)
    requires CommasAt(text, i, k) && NoCommasBefore(text, i)
    ensures CollapseCommas(text) == text[..i] + ("," + CollapseCommas(text[k + 1..]))
  {
    hide CollapseCommas, CommaMatch, NoCommasBefore, CommaFree;
    CommasLength(text, i, k);
    NoCommasUpTo(text, i);
    CommasKeptUpTo(text, i);
    CollapsesOne(text[i..], k - i + 1);
    CutTwice(text, i, k + 1);
  }

  lemma NoCommasUpTo(text: string, i: nat)
    requires i <= |text| && NoCommasBefore(text, i)
    ensures CommaFree(text, i)
  {
    hide CommaMatch, CommasAt;
    forall j | 0 <= j < i ensures CommaMatch(text[j..]).None? {
      if CommaMatch(text[j..]).Some? { var m := CommasFound(text, j); }
    }
  }

  lemma CommasLength(text: string, i: nat, k: nat)
    requires CommasAt(text, i, k)
    ensures CommaMatch(text[i..]) == Some(k - i + 1)
  {
    BlanksUpTo(text[i..], 1, k - i);
  }

  lemma NothingLeft(text: string)
    ensures text[|text|..] == [] && text[..|text|] == text && RemoveZeros([]) == [] && CollapseCommas([]) == []
  {}

  /** A match of the first pattern with no other behind it leaves what stands before it and what stands behind it. */
  lemma OnlyZeroIsCut(text: string, i: nat, k: nat, end: nat)
    requires ZeroAt(text, i, k) && NoZeroBefore(text, i) && TabsEnd(text, k + 2, end)
    requires NoZeroBefore(text[end..], |text| - end)
    ensures RemoveZeros(text) == text[..i] + text[end..]
  {
    hide RemoveZeros, ZeroMatch, NoZeroBefore, ZeroFree;
    FirstZeroIsCut(text, i, k, end);
    var rest := text[end..];
    NoZeroUpTo(rest, |rest|);
    KeptUpTo(rest, |rest|);
    NothingLeft(rest);
  }

  /** A match of the second with no other behind it leaves one comma between them. */
  lemma OnlyCommasAreOne(text: string, i: nat, k: nat)
    requires CommasAt(text, i, k) && NoCommasBefore(text, i)
    requires NoCommasBefore(text[k + 1..], |text| - k - 1)
    ensures CollapseCommas(text) == text[..i] + ("," + text[k + 1..])
  {
    hide CollapseCommas, CommaMatch, NoCommasBefore, CommaFree;
    FirstCommasAreOne(text, i, k);
    var rest := text[k + 1..];
    NoCommasUpTo(rest, |rest|);
    CommasKeptUpTo(rest, |rest|);
    NothingLeft(rest);
  }

  lemma BugCutAt(x: string, y: string)
    ensures
      var text := x + (",\n.0," + y);
      && text[..|x| + 1] == x + "," && text[|x| + 4..] == "," + y && ZeroAt(text, |x| + 1, |x| + 2)
      && TabsEnd(text, |x| + 4, |x| + 4)
    ensures
      var text := x + (",," + y);
      text[..|x|] == x && text[|x| + 2..] == y && CommasAt(text, |x|, |x| + 1)
  {
    var text := x + (",\n.0," + y);
    assert text[..|x| + 1] == x + ",";
    assert text[|x| + 4..] == "," + y;
  }

  lemma NothingElse(x: string, y: string)
    requires NoMatch(x + ("," + y))
    ensures NoZeroBefore(x + (",\n.0," + y), |x| + 1) && NoZeroBefore("," + y, 1 + |y|)
    ensures NoCommasBefore(x + (",," + y), |x|) && NoCommasBefore(y, |y|)
  {
    hide NoMatch;
    var clean, bug, two := x + ("," + y), x + (",\n.0," + y), x + (",," + y);
    forall j: nat, m: nat | j < |x| + 1 ensures !ZeroAt(bug, j, m) {
      if ZeroAt(bug, j, m) {
        assert bug[|x|] == ',';
        assert m + 1 < |x|;
        MatchInFront(x, ",\n.0," + y, "," + y, j, m);
        NotThere(clean, j, m);
      }
    }
    forall j: nat, m: nat ensures !ZeroAt("," + y, j, m) {
      MatchBehind(x, "," + y, j, m);
      NotThere(clean, |x| + j, |x| + m);
    }
    forall j: nat, m: nat | j < |x| ensures !CommasAt(two, j, m) {
      if CommasAt(two, j, m) {
        assert two[|x|] == ',' && m <= |x|;
        assert (x + ",") + ("," + y) == two && (x + ",") + y == clean;
        MatchInFront(x + ",", "," + y, y, j, m);
        NotThere(clean, j, m);
      }
    }
    forall j: nat, m: nat ensures !CommasAt(y, j, m) {
      assert (x + ",") + y == clean;
      MatchBehind(x + ",", y, j, m);
      NotThere(clean, |x| + 1 + j, |x| + 1 + m);
    }
  }

  lemma NotThere(text: string, i: nat, k: nat)
    requires NoMatch(text)
    ensures !ZeroAt(text, i, k) && !CommasAt(text, i, k)
  {}

  /** What the two together are for: a line with .0 that an older version left between two members is taken out. */
  lemma OldBugIsRepaired(x: string, y: string)
    requires Clean(x + ("," + y))
    ensures Repair(x + (",\n.0," + y)) == x + ("," + y)
  {
    hide Clean, RemoveZeros, CollapseCommas, ZeroAt, CommasAt, NoMatch, NoZeroBefore, NoCommasBefore, TabsEnd;
    CleanIs(x + ("," + y));
    NothingElse(x, y);
    BugCutAt(x, y);
    OnlyZeroIsCut(x + (",\n.0," + y), |x| + 1, |x| + 2, |x| + 4);
    assert (x + ",") + ("," + y) == x + (",," + y);
    OnlyCommasAreOne(x + (",," + y), |x|, |x| + 1);
  }

  // ---------- A part of the text is exchanged ----------

  /** What stands in the front, in the rest, or in neither. */
  lemma MatchInFront(p: string, x: string, y: string, i: nat, k: nat)
    requires k < |p|
    ensures CommasAt(p + x, i, k) == CommasAt(p + y, i, k)
    ensures k + 1 < |p| ==> ZeroAt(p + x, i, k) == ZeroAt(p + y, i, k)
  {
    assert forall j | 0 <= j < |p| :: (p + x)[j] == p[j] == (p + y)[j];
  }

  lemma MatchBehind(x: string, q: string, i: nat, k: nat)
    ensures CommasAt(x + q, |x| + i, |x| + k) == CommasAt(q, i, k)
    ensures ZeroAt(x + q, |x| + i, |x| + k) == ZeroAt(q, i, k)
  {
    assert forall j | 0 <= j < |q| :: (x + q)[|x| + j] == q[j];
    assert forall j | |x| <= j < |x| + |q| :: (x + q)[j] == q[j - |x|];
  }

  /** A word that holds no comma and no line break, and does not begin like the end of a match. */
  predicate Word(v: string) {
    && v != [] && !IsBlank(v[0]) && v[0] != '.'
    && forall i | 0 <= i < |v| :: v[i] != ',' && v[i] != '\n'
  }

  /** A word in the place of another text brings nothing to repair. */
  lemma WordExchanged(p: string, was: string, v: string, q: string)
    requires Clean(p + (was + q)) && Word(v) && (p != [] ==> p[|p| - 1] != '.')
    ensures Clean(p + (v + q))
  {
    hide Clean, ZeroAt, CommasAt;
    CleanIs(p + (was + q));
    CleanIs(p + (v + q));
    forall i: nat, k: nat ensures !ZeroAt(p + (v + q), i, k) && !CommasAt(p + (v + q), i, k) {
      if ZeroAt(p + (v + q), i, k) || CommasAt(p + (v + q), i, k) { WordHasNone(p, was, v, q, i, k); }
    }
  }

  lemma WordHasNone(p: string, was: string, v: string, q: string, i: nat, k: nat)
    requires NoMatch(p + (was + q)) && Word(v) && (p != [] ==> p[|p| - 1] != '.')
    ensures !ZeroAt(p + (v + q), i, k) && !CommasAt(p + (v + q), i, k)
  {
    var text := p + (v + q);
    assert forall j | |p| <= j < |p| + |v| :: text[j] == v[j - |p|];
    assert forall j | 0 <= j < |p| :: text[j] == p[j];
    if k < |p| {
      MatchInFront(p, v + q, was + q, i, k);
    } else if i >= |p| + |v| {
      hide ZeroAt, CommasAt;
      var from, to := i - |p| - |v|, k - |p| - |v|;
      if i < k {
        assert text == (p + v) + q && p + (was + q) == (p + was) + q;
        MatchBehind(p + v, q, from, to);
        MatchBehind(p + was, q, from, to);
      } else {
        NotBackwards(text, i, k);
      }
    } else if i < |p| {
      assert text[|p|] == v[0];
    }
  }

  lemma NotBackwards(text: string, i: nat, k: nat)
    requires k <= i
    ensures !ZeroAt(text, i, k) && !CommasAt(text, i, k)
  {}

  /** A line that is added: it begins with a comma or a line break and ends with one. */
  predicate Line(n: string) {
    |n| > 1 && (n[0] == ',' || n[0] == '\n') && n[|n| - 1] == '\n'
  }

  /** A line put in front of a closing brace brings nothing to repair, if no comma waits in front of it. */
  lemma LineInserted(p: string, n: string, q: string)
    requires Clean(p + q) && Clean(n) && Line(n) && q != [] && q[0] == '}'
    requires forall i | 0 <= i < |p| && p[i] == ',' :: exists j | i < j < |p| :: !IsBlank(p[j])
    ensures Clean(p + (n + q))
  {
    hide Clean, ZeroAt, CommasAt;
    CleanIs(p + q);
    CleanIs(n);
    CleanIs(p + (n + q));
    forall i: nat, k: nat ensures !ZeroAt(p + (n + q), i, k) && !CommasAt(p + (n + q), i, k) {
      if ZeroAt(p + (n + q), i, k) || CommasAt(p + (n + q), i, k) { LineHasNone(p, n, q, i, k); }
    }
  }

  lemma LineHasNone(p: string, n: string, q: string, i: nat, k: nat)
    requires NoMatch(p + q) && NoMatch(n) && Line(n) && q != [] && q[0] == '}'
    requires forall i | 0 <= i < |p| && p[i] == ',' :: exists j | i < j < |p| :: !IsBlank(p[j])
    ensures !ZeroAt(p + (n + q), i, k) && !CommasAt(p + (n + q), i, k)
  {
    var text := p + (n + q);
    assert forall j | 0 <= j < |p| :: text[j] == p[j];
    assert text[|p|] == n[0] && text[|p| + |n|] == q[0] && text[|p| + |n| - 1] == n[|n| - 1];
    if k <= i {
    } else if k < |p| {
      MatchInFront(p, n + q, q, i, k);
    } else if i < |p| {
      if p[i] == ',' { var j :| i < j < |p| && !IsBlank(p[j]); assert !IsBlank(text[j]); }
    } else if k < |p| + |n| {
      LineWithin(p, n, q, i - |p|, k - |p|);
    } else if i >= |p| + |n| {
      assert text == (p + n) + q;
      MatchBehind(p + n, q, i - |p| - |n|, k - |p| - |n|);
      MatchBehind(p, q, i - |p| - |n|, k - |p| - |n|);
    } else {
      assert !IsBlank('}') && !IsTab('}');
    }
  }

  lemma LineWithin(p: string, n: string, q: string, i: nat, k: nat)
    requires NoMatch(n) && Line(n) && k < |n|
    ensures !ZeroAt(p + (n + q), |p| + i, |p| + k) && !CommasAt(p + (n + q), |p| + i, |p| + k)
  {
    MatchBehind(p, n + q, i, k);
    MatchInFront(n, q, [], i, k);
    assert n + [] == n;
    assert (n + q)[|n| - 1] == n[|n| - 1];
  }
}
