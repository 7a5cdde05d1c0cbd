/** set_value of utility/config.cpp: one member of an object, edited in its text. */
module MemberEdit {
  import opened Wrappers
  import opened JsonScanner
  import opened SettingsFile

  // ---------- The edit ----------

  /**
   * Where the value of the key starts, looking at no more than the given length. A quoted key at
   * depth one without a colon behind it is passed without entering its quotes.
   */
  function SearchKey(s: Scan, text: string, limit: nat, key: string): (first: Option<nat>)
    requires limit <= |text|
    ensures first.Some? ==> first.value <= limit
    decreases limit
  {
    if limit == 0 then None
    else if !s.quoted && text[0] == '"' && s.depth == 1 && Quoted(key) <= text then
      var colon := SkipSpaces(text, |Quoted(key)|, limit);
      if colon >= limit || text[colon] != ':' then Shift(SearchKey(s, text[1..], limit - 1, key), 1)
      else Some(SkipSpaces(text, colon + 1, limit))
    else Shift(SearchKey(Feed(s, text[0]), text[1..], limit - 1, key), 1)
  }

  datatype Depth = Depth(nested: nat, quoted: bool, escaped: bool)

  function FeedValue(d: Depth, c: char): Depth {
    if d.quoted then
      if d.escaped then d.(escaped := false)
      else if c == '\\' then d.(escaped := true)
      else if c == '"' then d.(quoted := false)
      else d
    else if c == '"' then d.(quoted := true)
    else if c == '{' || c == '[' then d.(nested := d.nested + 1)
    else if c == '}' || c == ']' then (if d.nested > 0 then d.(nested := d.nested - 1) else d)
    else d
  }

  /** The length of the value: up to a comma outside quotes and groups, or the limit. */
  function ValueLength(d: Depth, text: string, limit: nat): (n: nat)
    requires limit <= |text|
    ensures n <= limit
    decreases limit
  {
    if limit == 0 || (!d.quoted && d.nested == 0 && text[0] == ',') then 0
    else 1 + ValueLength(FeedValue(d, text[0]), text[1..], limit - 1)
  }

  /** The end of the value without the spaces behind it. */
  function Trimmed(text: string, first: nat, last: nat): (end: nat)
    requires first <= last <= |text|
    ensures first <= end <= last
  {
    if last > first && IsSpace(text[last - 1]) then Trimmed(text, first, last - 1) else last
  }

  const AT_VALUE: Depth := Depth(0, false, false)

  function NewMember(key: string, value: string): string { "\"" + key + "\" : " + value + "\n" }

  /** Where the edited value starts in the section, if the key is found in its object. */
  function ValueStart(section: string, key: string, open: nat, close: nat): (first: Option<nat>)
    requires open <= close <= |section|
    ensures first.Some? ==> open <= first.value <= close
  {
    Shift(SearchKey(OUTSIDE, section[open..], close - open, key), open)
  }

  /** Where it ends. */
  function ValueStop(section: string, first: nat, close: nat): (end: nat)
    requires first <= close <= |section|
    ensures first <= end <= close
  {
    Trimmed(section, first, first + ValueLength(AT_VALUE, section[first..], close - first))
  }

  function Appended(section: string, key: string, value: string, open: nat, close: nat): string
    requires open < close <= |section|
  {
    section[..close]
    + ((if AllBlank(section[open + 1..close]) then "\n      " else ",\n      ") + NewMember(key, value))
    + section[close..]
  }

  function Edited(section: string, key: string, value: string): string {
    var open, matched := FirstBrace(section), RootClose(section);
    if matched.None? then section
    else
      var first := ValueStart(section, key, open, matched.value);
      if first.Some? then
        section[..first.value] + value + section[ValueStop(section, first.value, matched.value)..]
      else Appended(section, key, value, open, matched.value)
  }

  // ---------- The loops ----------

  lemma SearchStep(s: Scan, text: string, i: nat, close: nat, key: string)
    requires i <= close <= |text|
    ensures SearchKey(s, text[i..], close - i, key) ==
      if i == close then None
      else if !s.quoted && text[i] == '"' && s.depth == 1 && TokenAt(text, key, i) then
        var colon := SkipSpaces(text, i + |Quoted(key)|, close);
        if colon >= close || text[colon] != ':' then Shift(SearchKey(s, text[i + 1..], close - i - 1, key), 1)
        else Some(SkipSpaces(text, colon + 1, close) - i)
      else Shift(SearchKey(Feed(s, text[i]), text[i + 1..], close - i - 1, key), 1)
  {
    hide SkipSpaces, Quoted, TokenAt;
    if i < close {
      assert text[i..][1..] == text[i + 1..];
      TokenIsPrefix(text, key, i);
    }
  }

  /** The main loop of set_value: where the value of the key starts. */
  method FindValue(section: string, key: string, open: nat, close: nat) returns (first: Option<nat>)
    requires open <= close <= |section|
    ensures first == ValueStart(section, key, open, close)
  {
    hide SearchKey, SkipSpaces, Quoted, TokenAt;
    var quoted, escaped, depth := false, false, 0;
    for i := open to close
      invariant Shift(SearchKey(OUTSIDE, section[open..], close - open, key), open)
             == Shift(SearchKey(Scan(depth, quoted, escaped), section[i..], close - i, key), i)
    {
      hide SearchKey, SkipSpaces, Quoted, TokenAt;
      SearchStep(Scan(depth, quoted, escaped), section, i, close, key);
      var ch := section[i];
      if quoted {
        if escaped { escaped := false; }
        else if ch == '\\' { escaped := true; }
        else if ch == '"' { quoted := false; }
        continue;
      }
      if ch == '"' {
        if depth == 1 && TokenAt(section, key, i) {
          var colon := PassSpaces(section, i + |Quoted(key)|, close);
          if colon >= close || section[colon] != ':' { continue; }
          var value := PassSpaces(section, colon + 1, close);
          return Some(value);
        }
        quoted := true;
      } else if ch == '{' {
        depth := depth + 1;
      } else if ch == '}' {
        depth := depth - 1;
      }
    }
    SearchStep(Scan(depth, quoted, escaped), section, close, close, key);
    first := None;
  }

  lemma ValueStep(d: Depth, text: string, i: nat, close: nat)
    requires i <= close <= |text|
    ensures ValueLength(d, text[i..], close - i) ==
      if i == close || (!d.quoted && d.nested == 0 && text[i] == ',') then 0
      else 1 + ValueLength(FeedValue(d, text[i]), text[i + 1..], close - i - 1)
  {
    if i < close { assert text[i..][1..] == text[i + 1..]; }
  }

  /** The inner loop of set_value, and the trimming behind it: where the value ends. */
  method FindValueEnd(section: string, first: nat, close: nat) returns (end: nat)
    requires first <= close <= |section|
    ensures end == ValueStop(section, first, close)
  {
    hide ValueLength;
    var last, quoted, escaped := first, false, false;
    var nested: nat := 0;
    while last < close
      invariant first <= last <= close
      invariant first + ValueLength(AT_VALUE, section[first..], close - first)
             == last + ValueLength(Depth(nested, quoted, escaped), section[last..], close - last)
    {
      hide ValueLength;
      ValueStep(Depth(nested, quoted, escaped), section, last, close);
      var ch := section[last];
      if quoted {
        if escaped { escaped := false; }
        else if ch == '\\' { escaped := true; }
        else if ch == '"' { quoted := false; }
      } else if ch == '"' {
        quoted := true;
      } else if ch == '{' || ch == '[' {
        nested := nested + 1;
      } else if ch == '}' || ch == ']' {
        if nested > 0 { nested := nested - 1; }
      } else if nested == 0 && ch == ',' {
        break;
      }
      last := last + 1;
    }
    ValueStep(Depth(nested, quoted, escaped), section, last, close);
    end := last;
    while end > first && IsSpace(section[end - 1])
      invariant first <= end <= last && Trimmed(section, first, last) == Trimmed(section, first, end)
    {
      end := end - 1;
    }
  }

  /** set_value */
  method SetValue(section: string, key: string, value: string) returns (edited: string)
    ensures edited == Edited(section, key, value)
  {
    hide ValueStart, ValueStop, FirstClose, AllBlank, FirstBrace;
    var open := FirstBrace(section);
    if open == |section| { return section; }
    var matched := MatchingBrace(section, open);
    if matched.None? { return section; }
    var close := matched.value;
    var first := FindValue(section, key, open, close);
    if first.Some? {
      var end := FindValueEnd(section, first.value, close);
      return section[..first.value] + value + section[end..];
    }
    var content := ContentEnd(section[..close]);
    BlankToTheRoot(section, open, close);
    var separator := if content == 0 || content == open + 1 then "\n      " else ",\n      ";
    edited := section[..close] + (separator + NewMember(key, value)) + section[close..];
  }

  /** A section whose first brace is not matched, or that has none, is left alone. */
  lemma UnmatchedIsKept(section: string, key: string, value: string)
    requires Unmatched(section)
    ensures Edited(section, key, value) == section
  {
    hide RootClose, Unmatched;
    UnmatchedIs(section);
  }
}
