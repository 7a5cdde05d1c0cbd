/** Exactly when one pass of the two regular expressions leaves nothing to repair. */
module RepairOnce {
  import opened Wrappers
  import opened JsonScanner
  import opened SettingsFile
  import opened Repairs

  // ---------- A property of every suffix ----------

  ghost predicate Everywhere(text: string, p: string -> bool) {
    forall i | 0 <= i < |text| :: p(text[i..])
  }

  lemma OneOn(text: string, p: string -> bool)
    requires text != []
    ensures Everywhere(text, p) <==> p(text) && Everywhere(text[1..], p)
  {
    assert text[0..] == text;
    forall i | 0 <= i < |text[1..]| ensures text[1..][i..] == text[i + 1..] {}
    if p(text) && Everywhere(text[1..], p) {
      forall i | 0 <= i < |text| ensures p(text[i..]) {
        if i > 0 { assert text[i..] == text[1..][i - 1..]; }
      }
    }
  }

  lemma {:induction false} SeveralOn(text: string, n: nat, p: string -> bool)
    requires n <= |text| && forall i | 0 <= i < n :: p(text[i..])
    ensures Everywhere(text, p) <==> Everywhere(text[n..], p)
    decreases n
  {
    if n == 0 {
      assert text[0..] == text;
    } else {
      OneOn(text, p);
      assert text[0..] == text;
      forall i | 0 <= i < n - 1 ensures p(text[1..][i..]) { assert text[1..][i..] == text[i + 1..]; }
      SeveralOn(text[1..], n - 1, p);
      assert text[1..][n - 1..] == text[n..];
    }
  }

  predicate NoZeroHere(text: string) { ZeroMatch(text).None? }

  predicate NoCommasHere(text: string) { CommaMatch(text).None? }

  lemma CleanEverywhere(text: string)
    ensures Clean(text) <==> Everywhere(text, NoZeroHere) && Everywhere(text, NoCommasHere)
  {
    hide ZeroMatch, CommaMatch;
    if Everywhere(text, NoZeroHere) && Everywhere(text, NoCommasHere) {
      forall i | 0 <= i < |text| ensures ZeroMatch(text[i..]).None? && CommaMatch(text[i..]).None? {
        assert NoZeroHere(text[i..]) && NoCommasHere(text[i..]);
      }
    }
  }

  // ---------- Commas ----------

  /** Behind blanks comes a comma. */
  predicate Leads(text: string) {
    var k := SkipBlanks(text, 0);
    k < |text| && text[k] == ','
  }

  lemma {:induction false} BlanksBehind(c: char, text: string, i: nat)
    requires i <= |text|
    ensures SkipBlanks([c] + text, 1 + i) == 1 + SkipBlanks(text, i)
    decreases |text| - i
  {
    if i < |text| && IsBlank(text[i]) { BlanksBehind(c, text, i + 1); }
  }

  lemma LeadsStep(c: char, text: string)
    ensures Leads([c] + text) == (c == ',' || (IsBlank(c) && Leads(text)))
    ensures IsBlank(c) ==> SkipBlanks([c] + text, 0) == 1 + SkipBlanks(text, 0)
    ensures !IsBlank(c) ==> SkipBlanks([c] + text, 0) == 0
  {
    BlanksBehind(c, text, 0);
  }

  lemma CommasStep(c: char, text: string)
    ensures CommaMatch([c] + text) ==
      if c == ',' && Leads(text) then Some(2 + SkipBlanks(text, 0)) else None
  {
    BlanksBehind(c, text, 0);
  }

  lemma Cut(text: string)
    requires text != []
    ensures text == [text[0]] + text[1..]
  {}

  lemma CollapseStep(text: string)
    requires text != []
    ensures CollapseCommas(text) ==
      if CommaMatch(text).Some? then "," + CollapseCommas(text[CommaMatch(text).value..])
      else [text[0]] + CollapseCommas(text[1..])
    ensures CollapseCommas(text) != [] && CollapseCommas(text)[0] == text[0]
    ensures CommaMatch(text).Some? ==> text[0] == ','
  {}

  lemma {:induction false} LeadsKept(text: string)
    ensures Leads(CollapseCommas(text)) == Leads(text)
    decreases |text|
  {
    hide CollapseCommas, CommaMatch, Leads, SkipBlanks;
    if text == [] {
      EmptyLeaves();
    } else {
      var c, rest, out := text[0], text[1..], CollapseCommas(text);
      Cut(text);
      CollapseStep(text);
      Cut(out);
      LeadsStep(c, rest);
      LeadsStep(c, out[1..]);
      if c != ',' {
        assert out[1..] == CollapseCommas(rest);
        LeadsKept(rest);
      }
    }
  }

  lemma EmptyLeaves()
    ensures CollapseCommas([]) == [] && RemoveZeros([]) == [] && !Leads([])
  {}

  /** A comma, blanks, a comma, blanks and a comma begin here. */
  predicate ThreeHere(text: string) { CommaMatch(text).Some? && Leads(text[CommaMatch(text).value..]) }

  predicate NotThreeHere(text: string) { !ThreeHere(text) }

  lemma {:induction false} CollapsedEverywhere(text: string)
    ensures Everywhere(CollapseCommas(text), NoCommasHere) <==> Everywhere(text, NotThreeHere)
    decreases |text|
  {
    hide CollapseCommas, CommaMatch, Leads, SkipBlanks, Everywhere;
    if text == [] {
      EmptyLeaves();
      NothingEverywhere(NoCommasHere);
      NothingEverywhere(NotThreeHere);
    } else {
      var out := CollapseCommas(text);
      var n := if CommaMatch(text).Some? then CommaMatch(text).value else 1;
      var rest := text[n..];
      Cut(text);
      CollapseStep(text);
      assert out == [text[0]] + CollapseCommas(rest);
      OneOn(out, NoCommasHere);
      CommasStep(text[0], CollapseCommas(rest));
      LeadsKept(rest);
      CollapsedEverywhere(rest);
      OneOn(text, NotThreeHere);
      CommasStep(text[0], text[1..]);
      if CommaMatch(text).Some? { PairPassed(text, n); }
    }
  }

  lemma NothingEverywhere(p: string -> bool)
    ensures Everywhere([], p)
  {}

  /** Behind the first two of no more than two commas nothing of them is left to find. */
  lemma PairPassed(text: string, n: nat)
    requires CommaMatch(text) == Some(n)
    ensures Everywhere(text, NotThreeHere) <==> !Leads(text[n..]) && Everywhere(text[n..], NotThreeHere)
  {
    hide CollapseCommas, Everywhere, Leads;
    if !Leads(text[n..]) {
      forall i | 0 <= i < n ensures NotThreeHere(text[i..]) {
        assert text[i..][0] == text[i];
        if i == 0 {
          assert text[0..] == text;
        } else if i == n - 1 {
          Cut(text[i..]);
          assert text[i..][1..] == text[n..];
          CommasStep(',', text[n..]);
        } else {
          assert IsBlank(text[i]);
        }
      }
      SeveralOn(text, n, NotThreeHere);
    } else {
      OneOn(text, NotThreeHere);
    }
  }

  /** No two commas with only blanks between them; no three. */
  ghost predicate NoTwoCommas(text: string) { forall i: nat, k: nat :: !CommasAt(text, i, k) }

  ghost predicate NoThreeCommas(text: string) {
    forall i: nat, j: nat, k: nat :: !(CommasAt(text, i, j) && CommasAt(text, j, k))
  }

  lemma CommasFoundAt(text: string, i: nat)
    requires i < |text| && CommaMatch(text[i..]).Some?
    ensures CommaMatch(text[i..]).value > 1 && CommasAt(text, i, i + CommaMatch(text[i..]).value - 1)
  {
    var rest := text[i..];
    var k := i + SkipBlanks(rest, 1);
    forall j | i < j < k ensures IsBlank(text[j]) { assert rest[j - i] == text[j]; }
  }

  lemma CommasFoundHere(text: string, i: nat, k: nat)
    requires CommasAt(text, i, k)
    ensures CommaMatch(text[i..]) == Some(k - i + 1) && Leads(text[i + 1..])
  {
    hide Leads;
    CommasLength(text, i, k);
    Cut(text[i..]);
    assert text[i..][1..] == text[i + 1..];
    CommasStep(text[i], text[i + 1..]);
  }

  lemma NoTwoIs(text: string)
    ensures NoTwoCommas(text) <==> Everywhere(text, NoCommasHere)
  {
    hide CommaMatch, CommasAt, Leads;
    if NoTwoCommas(text) {
      forall i | 0 <= i < |text| ensures NoCommasHere(text[i..]) {
        if CommaMatch(text[i..]).Some? { CommasFoundAt(text, i); }
      }
    }
    if Everywhere(text, NoCommasHere) {
      forall i: nat, k: nat ensures !CommasAt(text, i, k) {
        if CommasAt(text, i, k) {
          CommasWithin(text, i, k);
          CommasFoundHere(text, i, k);
        }
      }
    }
  }

  lemma CommasWithin(text: string, i: nat, k: nat)
    requires CommasAt(text, i, k)
    ensures i < k < |text| && text[i] == ',' && text[k] == ','
  {}

  lemma ThreeFound(text: string, i: nat) returns (j: nat, k: nat)
    requires i < |text| && ThreeHere(text[i..])
    ensures CommasAt(text, i, j) && CommasAt(text, j, k)
  {
    hide CommaMatch, CommasAt, Leads, SkipBlanks;
    j := i + CommaMatch(text[i..]).value - 1;
    CommasFoundAt(text, i);
    CommasWithin(text, i, j);
    assert text[i..][CommaMatch(text[i..]).value..] == text[j + 1..];
    Cut(text[j..]);
    assert text[j..][1..] == text[j + 1..];
    CommasStep(',', text[j + 1..]);
    CommasFoundAt(text, j);
    k := j + CommaMatch(text[j..]).value - 1;
  }

  lemma ThreeSeen(text: string, i: nat, j: nat, k: nat)
    requires CommasAt(text, i, j) && CommasAt(text, j, k)
    ensures i < |text| && ThreeHere(text[i..])
  {
    hide CommaMatch, CommasAt, Leads, SkipBlanks;
    CommasWithin(text, i, j);
    CommasFoundHere(text, i, j);
    CommasFoundHere(text, j, k);
    assert text[i..][j - i + 1..] == text[j + 1..];
  }

  lemma NoThreeIs(text: string)
    ensures NoThreeCommas(text) <==> Everywhere(text, NotThreeHere)
  {
    hide ThreeHere, CommasAt;
    if NoThreeCommas(text) {
      forall i | 0 <= i < |text| ensures NotThreeHere(text[i..]) {
        if ThreeHere(text[i..]) { var j, k := ThreeFound(text, i); }
      }
    }
    if Everywhere(text, NotThreeHere) {
      forall i: nat, j: nat, k: nat ensures !(CommasAt(text, i, j) && CommasAt(text, j, k)) {
        if CommasAt(text, i, j) && CommasAt(text, j, k) { ThreeSeen(text, i, j, k); }
      }
    }
  }

  /** The second expression leaves no two commas side by side if and only if there were no three. */
  lemma CollapsedExactly(text: string)
    ensures NoTwoCommas(CollapseCommas(text)) <==> NoThreeCommas(text)
  {
    hide *;
    NoTwoIs(CollapseCommas(text));
    NoThreeIs(text);
    CollapsedEverywhere(text);
  }

  // ---------- Lines with .0 ----------

  /** Blanks of one line and then .0: what makes a line break before it a match. */
  predicate StartsZero(text: string) {
    var k := SkipTabs(text, 0);
    k + 1 < |text| && text[k] == '.' && text[k + 1] == '0'
  }

  predicate StartsNought(text: string) { text != [] && text[0] == '0' }

  lemma {:induction false} TabsBehind(c: char, text: string, i: nat)
    requires i <= |text|
    ensures SkipTabs([c] + text, 1 + i) == 1 + SkipTabs(text, i)
    decreases |text| - i
  {
    if i < |text| && IsTab(text[i]) { TabsBehind(c, text, i + 1); }
  }

  lemma ZeroStep(c: char, text: string)
    ensures ZeroMatch([c] + text).Some? <==> c == '\n' && StartsZero(text)
    ensures StartsZero([c] + text) <==> if IsTab(c) then StartsZero(text) else c == '.' && StartsNought(text)
  {
    TabsBehind(c, text, 0);
  }

  /** What stands here, once the matches of the first pattern are cut out, starts with a nought. */
  predicate Nought(text: string)
    decreases |text|
  {
    text != [] &&
    if ZeroMatch(text).Some? then Nought(text[ZeroMatch(text).value..]) else text[0] == '0'
  }

  /** It starts with blanks and .0. */
  predicate Dotted(text: string)
    decreases |text|
  {
    text != [] &&
    if ZeroMatch(text).Some? then Dotted(text[ZeroMatch(text).value..])
    else if IsTab(text[0]) then Dotted(text[1..])
    else text[0] == '.' && Nought(text[1..])
  }

  lemma RemoveStep(text: string)
    requires text != []
    ensures RemoveZeros(text) ==
      if ZeroMatch(text).Some? then RemoveZeros(text[ZeroMatch(text).value..]) else [text[0]] + RemoveZeros(text[1..])
  {}

  lemma {:induction false} NoughtIs(text: string)
    ensures Nought(text) <==> StartsNought(RemoveZeros(text))
    decreases |text|
  {
    hide RemoveZeros, ZeroMatch;
    if text == [] {
      EmptyLeaves();
    } else {
      RemoveStep(text);
      if ZeroMatch(text).Some? { NoughtIs(text[ZeroMatch(text).value..]); }
    }
  }

  lemma {:induction false} DottedIs(text: string)
    ensures Dotted(text) <==> StartsZero(RemoveZeros(text))
    decreases |text|
  {
    hide RemoveZeros, ZeroMatch, StartsZero, StartsNought, Nought, IsTab;
    if text == [] {
      EmptyLeaves();
      NothingStarts();
    } else {
      RemoveStep(text);
      if ZeroMatch(text).Some? {
        DottedIs(text[ZeroMatch(text).value..]);
      } else {
        ZeroStep(text[0], RemoveZeros(text[1..]));
        DottedIs(text[1..]);
        NoughtIs(text[1..]);
      }
    }
  }

  lemma NothingStarts()
    ensures !StartsZero([]) && !StartsNought([])
  {}

  /** A line break that begins no match, and before which the matches behind it close up to a new one. */
  predicate ZeroLeftHere(text: string) {
    text != [] && text[0] == '\n' && ZeroMatch(text).None? && Dotted(text[1..])
  }

  predicate NoZeroLeftHere(text: string) { !ZeroLeftHere(text) }

  /** Behind the first character of a match there is no line break and no comma in it. */
  lemma InsideMatch(text: string, i: nat)
    requires ZeroMatch(text).Some? && 0 < i < ZeroMatch(text).value
    ensures text[i] != '\n' && text[i] != ','
  {
    var k := SkipTabs(text, 1);
    if i < k { assert IsTab(text[i]); } else if i > k + 1 { assert IsTab(text[i]); }
  }

  lemma {:induction false} RemovedEverywhere(text: string)
    ensures Everywhere(RemoveZeros(text), NoZeroHere) <==> Everywhere(text, NoZeroLeftHere)
    decreases |text|
  {
    hide RemoveZeros, ZeroMatch, StartsZero, Dotted, Everywhere;
    if text == [] {
      EmptyLeaves();
      NothingEverywhere(NoZeroHere);
      NothingEverywhere(NoZeroLeftHere);
    } else if ZeroMatch(text).Some? {
      var n := ZeroMatch(text).value;
      RemoveStep(text);
      RemovedEverywhere(text[n..]);
      forall i | 0 <= i < n ensures NoZeroLeftHere(text[i..]) {
        if i == 0 { assert text[0..] == text; } else { InsideMatch(text, i); }
      }
      SeveralOn(text, n, NoZeroLeftHere);
    } else {
      var rest := RemoveZeros(text[1..]);
      RemoveStep(text);
      RemovedEverywhere(text[1..]);
      OneOn(text, NoZeroLeftHere);
      OneOn([text[0]] + rest, NoZeroHere);
      ZeroStep(text[0], rest);
      DottedIs(text[1..]);
    }
  }

  /** Behind blanks and whole matches of the first pattern, the place behind the next comma, if one comes next. */
  function NextComma(text: string): (n: Option<nat>)
    ensures n.Some? ==> 0 < n.value <= |text|
    decreases |text|
  {
    if text == [] then None
    else if ZeroMatch(text).Some? then
      Shift(NextComma(text[ZeroMatch(text).value..]), ZeroMatch(text).value)
    else if IsBlank(text[0]) then Shift(NextComma(text[1..]), 1)
    else if text[0] == ',' then Some(1)
    else None
  }

  /** Two commas more, with nothing but blanks and such matches before each. */
  predicate TwoMore(text: string) { NextComma(text).Some? && NextComma(text[NextComma(text).value..]).Some? }

  lemma {:induction false} NextIs(text: string)
    ensures
      var out := RemoveZeros(text);
      if NextComma(text).None? then !Leads(out)
      else Leads(out) && out[SkipBlanks(out, 0) + 1..] == RemoveZeros(text[NextComma(text).value..])
    decreases |text|
  {
    hide RemoveZeros, ZeroMatch, Leads, SkipBlanks, IsBlank;
    if text == [] {
      EmptyLeaves();
    } else {
      RemoveStep(text);
      LeadsWithin(RemoveZeros(text));
      if ZeroMatch(text).Some? {
        var n := ZeroMatch(text).value;
        NextIs(text[n..]);
        if NextComma(text[n..]).Some? {
          assert text[n..][NextComma(text[n..]).value..] == text[NextComma(text).value..];
        }
      } else {
        var c, rest := text[0], RemoveZeros(text[1..]);
        LeadsStep(c, rest);
        CommaIsNoBlank();
        LeadsWithin(rest);
        if IsBlank(c) {
          NextIs(text[1..]);
          if NextComma(text[1..]).Some? {
            assert text[1..][NextComma(text[1..]).value..] == text[NextComma(text).value..];
            assert ([c] + rest)[1 + SkipBlanks(rest, 0) + 1..] == rest[SkipBlanks(rest, 0) + 1..];
          }
        } else {
          assert ([c] + rest)[1..] == rest;
        }
      }
    }
  }

  lemma CommaIsNoBlank()
    ensures !IsBlank(',')
  {}

  lemma LeadsWithin(text: string)
    ensures Leads(text) ==> SkipBlanks(text, 0) < |text|
  {}

  predicate NoThreeLeftHere(text: string) { !(text != [] && text[0] == ',' && TwoMore(text[1..])) }

  lemma {:induction false} JoinedEverywhere(text: string)
    ensures Everywhere(RemoveZeros(text), NotThreeHere) <==> Everywhere(text, NoThreeLeftHere)
    decreases |text|
  {
    hide RemoveZeros, ZeroMatch, NextComma, Everywhere, Leads, CommaMatch;
    if text == [] {
      EmptyLeaves();
      NothingEverywhere(NotThreeHere);
      NothingEverywhere(NoThreeLeftHere);
    } else if ZeroMatch(text).Some? {
      var n := ZeroMatch(text).value;
      RemoveStep(text);
      JoinedEverywhere(text[n..]);
      forall i | 0 <= i < n ensures NoThreeLeftHere(text[i..]) {
        if i == 0 { ZeroStep(text[0], text[1..]); Cut(text); } else { InsideMatch(text, i); }
      }
      SeveralOn(text, n, NoThreeLeftHere);
    } else {
      RemoveStep(text);
      JoinedEverywhere(text[1..]);
      OneOn(text, NoThreeLeftHere);
      OneOn([text[0]] + RemoveZeros(text[1..]), NotThreeHere);
      ThreeLeftIs(text[0], text[1..]);
    }
  }

  lemma ThreeLeftIs(c: char, text: string)
    ensures ThreeHere([c] + RemoveZeros(text)) <==> c == ',' && TwoMore(text)
  {
    hide RemoveZeros, NextComma, Leads, CommaMatch, SkipBlanks;
    var out := RemoveZeros(text);
    CommasStep(c, out);
    NextIs(text);
    LeadsWithin(out);
    if c == ',' && Leads(out) {
      assert ([c] + out)[2 + SkipBlanks(out, 0)..] == out[SkipBlanks(out, 0) + 1..];
      NextIs(text[NextComma(text).value..]);
    }
  }

  // ---------- The second expression makes no match of the first ----------

  lemma {:induction false} StartsKept(text: string)
    ensures StartsZero(CollapseCommas(text)) <==> StartsZero(text)
    decreases |text|
  {
    hide CollapseCommas, CommaMatch, StartsZero, SkipBlanks;
    if text == [] {
      EmptyLeaves();
    } else {
      var out := CollapseCommas(text);
      Cut(text);
      CollapseStep(text);
      Cut(out);
      ZeroStep(text[0], text[1..]);
      ZeroStep(text[0], out[1..]);
      if text[0] != ',' {
        assert out[1..] == CollapseCommas(text[1..]);
        StartsKept(text[1..]);
        NoughtKept(text[1..]);
      }
    }
  }

  lemma NoughtKept(text: string)
    ensures StartsNought(CollapseCommas(text)) <==> StartsNought(text)
  {
    hide CollapseCommas;
    if text == [] { EmptyLeaves(); } else { CollapseStep(text); }
  }

  /** In a pair of commas and the blanks between them no line with .0 begins. */
  lemma {:induction false} NoneInPair(text: string, k: nat)
    requires k < |text| && text[k] == ',' && forall j | 0 <= j < k :: IsBlank(text[j])
    ensures !StartsZero(text) && NoZeroHere(text)
    decreases k
  {
    hide StartsZero, ZeroMatch;
    Cut(text);
    ZeroStep(text[0], text[1..]);
    if k > 0 { NoneInPair(text[1..], k - 1); }
  }

  lemma PairHasNone(text: string, n: nat)
    requires CommaMatch(text) == Some(n)
    ensures forall i | 0 <= i < n :: NoZeroHere(text[i..])
  {
    hide ZeroMatch;
    forall i | 0 <= i < n ensures NoZeroHere(text[i..]) {
      if i == 0 {
        Cut(text);
        assert text[0..] == text;
        ZeroStep(text[0], text[1..]);
      } else {
        assert forall j | 0 <= j < n - 1 - i :: text[i..][j] == text[i + j];
        NoneInPair(text[i..], n - 1 - i);
      }
    }
  }

  lemma {:induction false} ZerosKept(text: string)
    ensures Everywhere(CollapseCommas(text), NoZeroHere) <==> Everywhere(text, NoZeroHere)
    decreases |text|
  {
    hide CollapseCommas, CommaMatch, ZeroMatch, StartsZero, Everywhere;
    if text == [] {
      EmptyLeaves();
    } else {
      var n := if CommaMatch(text).Some? then CommaMatch(text).value else 1;
      var rest := CollapseCommas(text[n..]);
      Cut(text);
      CollapseStep(text);
      ZerosKept(text[n..]);
      OneOn([text[0]] + rest, NoZeroHere);
      ZeroStep(text[0], rest);
      if CommaMatch(text).Some? {
        PairHasNone(text, n);
        SeveralOn(text, n, NoZeroHere);
      } else {
        OneOn(text, NoZeroHere);
        ZeroStep(text[0], text[1..]);
        StartsKept(text[1..]);
      }
    }
  }

  // ---------- One pass ----------

  /** No line break that begins no match has behind it, once all matches are cut out there, blanks and .0. */
  ghost predicate ZerosGoAtOnce(text: string) {
    forall i | 0 <= i < |text| && text[i] == '\n' && (forall k: nat :: !ZeroAt(text, i, k)) :: !Dotted(text[i + 1..])
  }

  /** No comma has two more behind it, with nothing but blanks and such matches between. */
  ghost predicate CommasGoAtOnce(text: string) {
    forall i | 0 <= i < |text| && text[i] == ',' :: !TwoMore(text[i + 1..])
  }

  lemma ZeroAtIs(text: string, i: nat)
    requires i < |text|
    ensures ZeroMatch(text[i..]).Some? <==> exists k: nat :: ZeroAt(text, i, k)
  {
    hide ZeroAt, ZeroMatch;
    if ZeroMatch(text[i..]).Some? { var k := ZeroFound(text, i); }
    if k: nat :| ZeroAt(text, i, k) { ZeroSeen(text, i, k); }
  }

  lemma ZeroSeen(text: string, i: nat, k: nat)
    requires ZeroAt(text, i, k)
    ensures ZeroMatch(text[i..]).Some?
  {
    TabsUpTo(text[i..], 1, k - i);
  }

  lemma ZerosGoIs(text: string)
    ensures ZerosGoAtOnce(text) <==> Everywhere(text, NoZeroLeftHere)
  {
    hide ZeroAt, ZeroMatch, Dotted;
    forall i | 0 <= i < |text|
      ensures NoZeroLeftHere(text[i..]) <==>
              !(text[i] == '\n' && (forall k: nat :: !ZeroAt(text, i, k)) && Dotted(text[i + 1..]))
    {
      ZeroAtIs(text, i);
      assert text[i..][1..] == text[i + 1..];
    }
  }

  lemma CommasGoIs(text: string)
    ensures CommasGoAtOnce(text) <==> Everywhere(text, NoThreeLeftHere)
  {
    hide TwoMore;
    forall i | 0 <= i < |text| ensures NoThreeLeftHere(text[i..]) <==> !(text[i] == ',' && TwoMore(text[i + 1..])) {
      assert text[i..][1..] == text[i + 1..];
    }
  }

  /** The first expression leaves no match of its own if and only if the text is so. */
  lemma RemovedExactly(text: string)
    ensures (forall i: nat, k: nat :: !ZeroAt(RemoveZeros(text), i, k)) <==> ZerosGoAtOnce(text)
  {
    hide ZeroAt, ZerosGoAtOnce, RemoveZeros, Everywhere;
    RemovedEverywhere(text);
    NoZerosIs(RemoveZeros(text));
    ZerosGoIs(text);
  }

  /** One pass of both leaves nothing to repair if and only if the text is so in both ways. */
  lemma RepairedExactly(text: string)
    ensures Clean(Repair(text)) <==> ZerosGoAtOnce(text) && CommasGoAtOnce(text)
  {
    hide ZerosGoAtOnce, CommasGoAtOnce, Clean, Everywhere, RemoveZeros, CollapseCommas;
    var cut := RemoveZeros(text);
    CleanEverywhere(Repair(text));
    ZerosGoIs(text);
    CommasGoIs(text);
    ZerosKept(cut);
    RemovedEverywhere(text);
    CollapsedEverywhere(cut);
    JoinedEverywhere(text);
  }

  lemma NoZerosIs(text: string)
    ensures Everywhere(text, NoZeroHere) <==> forall i: nat, k: nat :: !ZeroAt(text, i, k)
  {
    hide ZeroAt, ZeroMatch;
    if Everywhere(text, NoZeroHere) {
      forall i: nat, k: nat ensures !ZeroAt(text, i, k) {
        if ZeroAt(text, i, k) {
          ZeroWithin(text, i, k);
          ZeroSeen(text, i, k);
        }
      }
    }
    if forall i: nat, k: nat :: !ZeroAt(text, i, k) {
      forall i | 0 <= i < |text| ensures NoZeroHere(text[i..]) { ZeroAtIs(text, i); }
    }
  }

  lemma ZeroWithin(text: string, i: nat, k: nat)
    requires ZeroAt(text, i, k)
    ensures i < k < |text|
  {}

  // ---------- A plain condition ----------

  /** What closes up has a match in it, behind blanks or behind blanks and a point. */
  lemma {:induction false} DottedHasMatch(text: string) returns (j: nat)
    requires Dotted(text) && !StartsZero(text)
    ensures j < |text| && ZeroMatch(text[j..]).Some?
    ensures forall i | 0 <= i < j :: IsTab(text[i]) || (i == j - 1 && text[i] == '.')
    decreases |text|
  {
    hide ZeroMatch, StartsZero;
    if ZeroMatch(text).Some? {
      j := 0;
      assert text[0..] == text;
    } else {
      Cut(text);
      ZeroStep(text[0], text[1..]);
      if IsTab(text[0]) {
        var k := DottedHasMatch(text[1..]);
        j := 1 + k;
        assert text[1..][k..] == text[j..];
        forall i | 0 <= i < j ensures IsTab(text[i]) || (i == j - 1 && text[i] == '.') {
          if i > 0 { assert text[1..][i - 1] == text[i]; }
        }
      } else {
        j := 1;
      }
    }
  }

  /** A match begins behind a line break, with only blanks or blanks and a point between. */
  ghost predicate OnBareLine(text: string, i: nat, j: nat) {
    && i < j < |text| && text[i] == '\n' && (exists k: nat :: ZeroAt(text, j, k))
    && forall m | i < m < j :: IsTab(text[m]) || (m == j - 1 && text[m] == '.')
  }

  /** It is enough that no line in front of a line with .0 is blank or holds nothing but a point. */
  lemma NoBareLineIsEnough(text: string)
    requires forall i: nat, j: nat :: !OnBareLine(text, i, j)
    ensures forall i: nat, k: nat :: !ZeroAt(RemoveZeros(text), i, k)
  {
    hide ZeroAt, Dotted, RemoveZeros;
    RemovedExactly(text);
    forall i | 0 <= i < |text| && text[i] == '\n' && (forall k: nat :: !ZeroAt(text, i, k))
      ensures !Dotted(text[i + 1..])
    {
      if Dotted(text[i + 1..]) { ClosesOnBareLine(text, i); }
    }
  }

  lemma ClosesOnBareLine(text: string, i: nat)
    requires i < |text| && text[i] == '\n' && (forall k: nat :: !ZeroAt(text, i, k)) && Dotted(text[i + 1..])
    ensures exists j: nat :: OnBareLine(text, i, j)
  {
    hide ZeroAt, ZeroMatch, Dotted, StartsZero;
    var rest := text[i + 1..];
    Cut(text[i..]);
    assert text[i..][1..] == rest;
    ZeroStep('\n', rest);
    ZeroAtIs(text, i);
    var m := DottedHasMatch(rest);
    assert rest[m..] == text[i + 1 + m..];
    ZeroAtIs(text, i + 1 + m);
    forall n | i < n < i + 1 + m ensures IsTab(text[n]) || (n == i + m && text[n] == '.') {
      assert rest[n - i - 1] == text[n];
    }
    assert OnBareLine(text, i, i + 1 + m);
  }
}
