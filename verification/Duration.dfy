/** The grammar of durations such as `4h 3minutes`, in ASCII text. */
module Duration {
  import opened Wrappers
  import opened Text
  import opened Decimal

  /** Weeks, days, hours, minutes and seconds, in this order. */
  const GROUPS: nat := 5

  function Names(i: nat): seq<string> {
    if i == 0 then ["weeks", "week", "w"]
    else if i == 1 then ["days", "day", "d"]
    else if i == 2 then ["hours", "hour", "hr", "h"]
    else if i == 3 then ["minutes", "minute", "mins", "min", "m"]
    else if i == 4 then ["seconds", "second", "secs", "sec", "s"]
    else []
  }

  /** The first group from i on that has this unit; GROUPS if none has. */
  function UnitFrom(i: nat, unit: string): (g: nat)
    ensures g <= GROUPS && (g < GROUPS ==> unit in Names(g))
    decreases GROUPS - i
  {
    if i >= GROUPS then GROUPS else if unit in Names(i) then i else UnitFrom(i + 1, unit)
  }

  function UnitGroup(unit: string): nat { UnitFrom(0, unit) }

  // ---- The pattern, declaratively

  /** What one group of the pattern has matched. */
  datatype Group = Absent | Present(digits: string, gap: string, unit: string)

  /** One way in which the pattern from some group on can match: what each group has taken
    and the space after it. */
  datatype Match = End | Next(group: Group, sep: string, rest: Match)

  ghost predicate FitsGroup(i: nat, g: Group) {
    g.Present? ==> g.digits != "" && AllDigits(g.digits) && AllSpace(g.gap) && i < GROUPS && UnitGroup(g.unit) == i
  }

  /** The pattern from group i on allows this match. */
  ghost predicate Fits(i: nat, m: Match)
    decreases m
  {
    if m.End? then i == GROUPS
    else
      && i < GROUPS && FitsGroup(i, m.group)
      && AllSpace(m.sep) && (i == GROUPS - 1 ==> m.sep == "")
      && Fits(i + 1, m.rest)
  }

  function Before(g: Group, text: string): string {
    if g.Absent? then text else g.digits + (g.gap + (g.unit + text))
  }

  /** The text that is matched. */
  function Matched(m: Match): string {
    if m.End? then "" else Before(m.group, m.sep + Matched(m.rest))
  }

  function Number(g: Group): Option<nat> {
    if g.Absent? then None else Value(g.digits)
  }

  function Numbers(m: Match): seq<Option<nat>> {
    if m.End? then [] else [Number(m.group)] + Numbers(m.rest)
  }

  // ---- A parser without choices

  function DigitRun(s: string): (n: nat)
    ensures n <= |s| && AllDigits(s[..n]) && (n < |s| ==> !IsDigit(s[n]))
  {
    if s == "" || !IsDigit(s[0]) then 0 else 1 + DigitRun(s[1..])
  }

  predicate IsWordChar(c: char) { !IsDigit(c) && !IsSpace(c) }

  function WordRun(s: string): (n: nat)
    ensures n <= |s| && (forall k :: 0 <= k < n ==> IsWordChar(s[k])) && (n < |s| ==> !IsWordChar(s[n]))
  {
    if s == "" || !IsWordChar(s[0]) then 0 else 1 + WordRun(s[1..])
  }

  /** A number and the word behind it, if the text starts with one. */
  function TakeNumber(s: string): Option<(nat, string, string)> {
    var d := DigitRun(s);
    if d == 0 || Value(s[..d]).None? then None else
    var r := SkipSpace(s[d..]);
    Some((Value(s[..d]).value, r[..WordRun(r)], r[WordRun(r)..]))
  }

  function TakeGroup(i: nat, s: string): Option<(nat, string)> {
    var t := TakeNumber(s);
    if t.Some? && i < GROUPS && UnitGroup(t.value.1) == i then Some((t.value.0, t.value.2)) else None
  }

  function SkipBetween(i: nat, s: string): string { if i < GROUPS - 1 then SkipSpace(s) else s }

  function Read(i: nat, s: string): Option<nat> {
    var t := TakeGroup(i, s);
    if t.Some? then Some(t.value.0) else None
  }

  function After(i: nat, s: string): string {
    var t := TakeGroup(i, s);
    SkipBetween(i, if t.Some? then t.value.1 else s)
  }

  function ParseFrom(i: nat, s: string): (values: Option<seq<Option<nat>>>)
    requires i <= GROUPS
    ensures values.Some? ==> |values.value| == GROUPS - i
    decreases GROUPS - i
  {
    if i == GROUPS then (if s == "" then Some([]) else None)
    else
      var later := ParseFrom(i + 1, After(i, s));
      if later.None? then None else Some([Read(i, s)] + later.value)
  }

  // ---- Reading off a group

  lemma {:induction false} DigitRunOf(digits: string, rest: string)
    requires AllDigits(digits) && (rest != "" ==> !IsDigit(rest[0]))
    ensures DigitRun(digits + rest) == |digits|
  {
    if digits == "" {
      assert digits + rest == rest;
    } else {
      assert (digits + rest)[1..] == digits[1..] + rest;
      DigitRunOf(digits[1..], rest);
    }
  }

  lemma {:induction false} WordRunOf(word: string, rest: string)
    requires (forall k :: 0 <= k < |word| ==> IsWordChar(word[k])) && (rest != "" ==> !IsWordChar(rest[0]))
    ensures WordRun(word + rest) == |word|
  {
    if word == "" {
      assert word + rest == rest;
    } else {
      assert (word + rest)[1..] == word[1..] + rest;
      WordRunOf(word[1..], rest);
    }
  }

  lemma {:induction false} SkipSpaceConcat(sep: string, rest: string)
    requires AllSpace(sep)
    ensures SkipSpace(sep + rest) == SkipSpace(rest)
  {
    if sep == "" {
      assert sep + rest == rest;
    } else {
      assert (sep + rest)[1..] == sep[1..] + rest;
      SkipSpaceConcat(sep[1..], rest);
    }
  }

  lemma {:induction false} SkipSpaceNone(s: string)
    requires s == "" || !IsSpace(s[0])
    ensures SkipSpace(s) == s
  {}

  lemma {:induction false} LetterIsWordChar(c: char)
    requires 'a' <= c <= 'z'
    ensures IsWordChar(c)
  {}

  lemma {:induction false} UnitIsLetters(i: nat, unit: string)
    requires unit in Names(i)
    ensures unit != "" && forall k :: 0 <= k < |unit| ==> 'a' <= unit[k] <= 'z'
  {}

  lemma {:induction false} UnitIsWord(unit: string)
    requires UnitGroup(unit) < GROUPS
    ensures unit != "" && forall k :: 0 <= k < |unit| ==> IsWordChar(unit[k])
  {
    UnitIsLetters(UnitGroup(unit), unit);
    forall k | 0 <= k < |unit| ensures IsWordChar(unit[k]) {
      LetterIsWordChar(unit[k]);
    }
  }

  lemma {:induction false} DigitsHaveValue(digits: string)
    requires AllDigits(digits)
    ensures Value(digits).Some?
  {
    if digits != "" {
      DigitsHaveValue(digits[..|digits| - 1]);
    }
  }

  /** What the pattern calls a group is read as this number and this unit, provided that
    no further letter follows. */
  lemma {:induction false} TakeNumberOf(i: nat, g: Group, rest: string)
    requires g.Present? && FitsGroup(i, g)
    requires rest != "" ==> !IsWordChar(rest[0])
    ensures Number(g).Some? && TakeNumber(Before(g, rest)) == Some((Number(g).value, g.unit, rest))
  {
    UnitIsWord(g.unit);
    DigitsHaveValue(g.digits);
    var tail := g.unit + rest;
    assert tail[0] == g.unit[0];
    var s := g.digits + (g.gap + tail);
    assert g.gap != "" ==> (g.gap + tail)[0] == g.gap[0];
    assert g.gap == "" ==> g.gap + tail == tail;
    DigitRunOf(g.digits, g.gap + tail);
    assert s[..|g.digits|] == g.digits && s[|g.digits|..] == g.gap + tail;
    SkipSpaceConcat(g.gap, tail);
    SkipSpaceNone(tail);
    WordRunOf(g.unit, rest);
    assert tail[..|g.unit|] == g.unit && tail[|g.unit|..] == rest;
  }

  lemma {:induction false} StartsWithDigit(i: nat, g: Group, rest: string)
    requires g.Present? && FitsGroup(i, g)
    ensures Before(g, rest) != "" && IsDigit(Before(g, rest)[0])
  {}

  lemma {:induction false} StartOfConcat(a: string, b: string)
    ensures a == "" ==> a + b == b
    ensures a != "" ==> a + b != "" && (a + b)[0] == a[0]
  {}

  /** A text that the pattern matches begins with a digit or a space, or it is empty. */
  lemma {:induction false} FirstCharacter(i: nat, m: Match)
    requires Fits(i, m)
    ensures Matched(m) != "" ==> !IsWordChar(Matched(m)[0])
    decreases m
  {
    if m.Next? {
      FirstCharacter(i + 1, m.rest);
      StartOfConcat(m.sep, Matched(m.rest));
      if m.group.Present? {
        StartsWithDigit(i, m.group, m.sep + Matched(m.rest));
      }
    }
  }

  /** The group that comes first is taken whole, whatever comes next. */
  lemma {:induction false} GroupIsTaken(i: nat, m: Match)
    requires m.Next? && m.group.Present? && Fits(i, m)
    ensures Number(m.group).Some?
    ensures TakeNumber(Matched(m)) == Some((Number(m.group).value, m.group.unit, m.sep + Matched(m.rest)))
  {
    FirstCharacter(i + 1, m.rest);
    StartOfConcat(m.sep, Matched(m.rest));
    TakeNumberOf(i, m.group, m.sep + Matched(m.rest));
  }

  /** If the text begins with a digit, the unit behind the number is of group i or later. */
  lemma {:induction false} FirstUnit(i: nat, m: Match)
    requires Fits(i, m)
    ensures TakeNumber(Matched(m)).Some? ==> i <= UnitGroup(TakeNumber(Matched(m)).value.1)
    decreases m
  {
    if m.End? {
      assert DigitRun("") == 0;
    } else if m.group.Present? {
      GroupIsTaken(i, m);
    } else if m.sep == "" {
      StartOfConcat(m.sep, Matched(m.rest));
      FirstUnit(i + 1, m.rest);
    } else {
      StartOfConcat(m.sep, Matched(m.rest));
      assert DigitRun(Matched(m)) == 0;
    }
  }

  lemma {:induction false} AbsentIsSkipped(i: nat, m: Match)
    requires m.Next? && m.group.Absent? && Fits(i, m)
    ensures TakeGroup(i, Matched(m)) == None
  {
    StartOfConcat(m.sep, Matched(m.rest));
    if m.sep == "" {
      FirstUnit(i + 1, m.rest);
    } else {
      assert DigitRun(Matched(m)) == 0;
    }
  }

  /** Space in front can as well be taken by the separator before. */
  function Bare(m: Match): Match {
    if m.Next? && m.group.Absent? then Next(Absent, "", Bare(m.rest)) else m
  }

  lemma {:induction false} BareMatch(i: nat, m: Match)
    requires Fits(i, m)
    ensures Fits(i, Bare(m)) && Numbers(Bare(m)) == Numbers(m) && Matched(Bare(m)) == SkipSpace(Matched(m))
    decreases m
  {
    if m.Next? {
      if m.group.Absent? {
        BareMatch(i + 1, m.rest);
        SkipSpaceConcat(m.sep, Matched(m.rest));
        StartOfConcat("", Matched(Bare(m.rest)));
      } else {
        StartsWithDigit(i, m.group, m.sep + Matched(m.rest));
        SkipSpaceNone(Matched(m));
      }
    }
  }

  // ---- The parser finds what the pattern can match, and nothing else

  /** What a group leaves to the parser is matched by the rest of the pattern. */
  lemma {:induction false} GroupIsRead(i: nat, m: Match)
    requires m.Next? && Fits(i, m)
    ensures Read(i, Matched(m)) == Number(m.group)
    ensures After(i, Matched(m)) == SkipBetween(i, m.sep + Matched(m.rest))
  {
    if m.group.Present? {
      GroupIsTaken(i, m);
    } else {
      AbsentIsSkipped(i, m);
    }
  }

  lemma {:induction false} RestIsMatched(i: nat, m: Match) returns (later: Match)
    requires m.Next? && Fits(i, m)
    ensures Fits(i + 1, later) && Numbers(later) == Numbers(m.rest)
    ensures Matched(later) == SkipBetween(i, m.sep + Matched(m.rest))
  {
    if i < GROUPS - 1 {
      SkipSpaceConcat(m.sep, Matched(m.rest));
      BareMatch(i + 1, m.rest);
      later := Bare(m.rest);
    } else {
      StartOfConcat(m.sep, Matched(m.rest));
      later := m.rest;
    }
  }

  /** However the pattern matches, the parser finds the same numbers. */
  lemma {:induction false} MatchIsParsed(i: nat, m: Match)
    requires Fits(i, m)
    ensures i <= GROUPS && ParseFrom(i, Matched(m)) == Some(Numbers(m))
    decreases GROUPS - i
  {
    if m.Next? {
      GroupIsRead(i, m);
      var later := RestIsMatched(i, m);
      MatchIsParsed(i + 1, later);
      OneMoreIsParsed(i, Matched(m), Numbers(m.rest));
    } else {
      EndIsParsed(i);
    }
  }

  lemma {:induction false} OneMoreIsParsed(i: nat, s: string, later: seq<Option<nat>>)
    requires i < GROUPS && ParseFrom(i + 1, After(i, s)) == Some(later)
    ensures ParseFrom(i, s) == Some([Read(i, s)] + later)
  {}

  lemma {:induction false} EndIsParsed(i: nat)
    requires i == GROUPS
    ensures ParseFrom(i, "") == Some([])
  {}

  lemma {:induction false} Pieces(s: string, d: nat, gap: string, r: string, w: nat)
    requires d <= |s| && w <= |r| && s[d..] == gap + r
    ensures s == s[..d] + (gap + (r[..w] + r[w..]))
  {}

  lemma {:induction false} NumberIsThere(s: string) returns (g: Group)
    requires TakeNumber(s).Some?
    ensures g.Present? && g.digits != "" && AllDigits(g.digits) && AllSpace(g.gap)
    ensures Number(g) == Some(TakeNumber(s).value.0) && g.unit == TakeNumber(s).value.1
    ensures s == Before(g, TakeNumber(s).value.2)
  {
    var d := DigitRun(s);
    var gap := SkipSpaceSplits(s[d..]);
    var r := SkipSpace(s[d..]);
    var w := WordRun(r);
    Pieces(s, d, gap, r, w);
    g := Present(s[..d], gap, r[..w]);
  }

  lemma {:induction false} ReadIsMatched(i: nat, s: string) returns (g: Group, rest: string)
    requires i < GROUPS
    ensures FitsGroup(i, g) && Number(g) == Read(i, s) && s == Before(g, rest)
    ensures rest == if TakeGroup(i, s).Some? then TakeGroup(i, s).value.1 else s
  {
    if TakeGroup(i, s).Some? {
      g := NumberIsThere(s);
      rest := TakeNumber(s).value.2;
    } else {
      g, rest := Absent, s;
    }
  }

  /** What is left of a text, split into the space that is skipped and the rest. */
  lemma {:induction false} SkipSplits(i: nat, s: string) returns (sep: string)
    ensures AllSpace(sep) && s == sep + SkipBetween(i, s) && (i == GROUPS - 1 ==> sep == "")
  {
    sep := "";
    if i < GROUPS - 1 {
      sep := SkipSpaceSplits(s);
    } else {
      assert s == "" + s;
    }
  }

  /** What the parser finds is a match of the pattern. */
  lemma {:induction false} ParsedIsMatched(i: nat, s: string) returns (m: Match)
    requires i <= GROUPS && ParseFrom(i, s).Some?
    ensures Fits(i, m) && Matched(m) == s && Some(Numbers(m)) == ParseFrom(i, s)
    decreases GROUPS - i
  {
    if i == GROUPS {
      m := End;
    } else {
      var later := ParsedIsMatched(i + 1, After(i, s));
      var g, rest := ReadIsMatched(i, s);
      var sep := SkipSplits(i, rest);
      m := Next(g, sep, later);
    }
  }

  /** The pattern matches a text and gives these numbers if and only if the parser finds
    them. So all ways in which it can match the same text give the same numbers. */
  lemma {:induction false} Unambiguous(s: string, numbers: seq<Option<nat>>)
    ensures (exists m :: Fits(0, m) && Matched(m) == s && Numbers(m) == numbers) <==> ParseFrom(0, s) == Some(numbers)
  {
    if m :| Fits(0, m) && Matched(m) == s && Numbers(m) == numbers {
      MatchIsParsed(0, m);
    }
    if ParseFrom(0, s) == Some(numbers) {
      var m := ParsedIsMatched(0, s);
    }
  }

  // ---- Parsing

  function Or0(n: Option<nat>): nat { if n.Some? then n.value else 0 }

  /** In seconds. */
  function Total(v: seq<Option<nat>>): nat
    requires |v| == GROUPS
  {
    (((Or0(v[0]) * 7 + Or0(v[1])) * 24 + Or0(v[2])) * 60 + Or0(v[3])) * 60 + Or0(v[4])
  }

  /** `parse_timedelta`: None stands for `ValueError`. */
  function ParseTimedelta(text: string): Option<nat> {
    var numbers := ParseFrom(0, Strip(text));
    if numbers.None? then None else Some(Total(numbers.value))
  }

  /** A text is accepted if and only if the pattern can match what is left when the space
    around it is removed. */
  lemma {:induction false} AcceptedIff(text: string)
    ensures ParseTimedelta(text).Some? <==> exists m :: Fits(0, m) && Matched(m) == Strip(text)
  {
    if m :| Fits(0, m) && Matched(m) == Strip(text) {
      MatchIsParsed(0, m);
    }
    if ParseFrom(0, Strip(text)).Some? {
      var m := ParsedIsMatched(0, Strip(text));
    }
  }

  /** In whatever way the pattern matches, the result is the sum of these numbers. */
  lemma {:induction false} MeansTheSum(text: string, m: Match)
    requires Fits(0, m) && Matched(m) == Strip(text)
    ensures |Numbers(m)| == GROUPS && ParseTimedelta(text) == Some(Total(Numbers(m)))
  {
    MatchIsParsed(0, m);
  }

  function Short(i: nat): (unit: string)
    requires i < GROUPS
    ensures UnitGroup(unit) == i
  {
    if i == 0 then "w" else if i == 1 then "d" else if i == 2 then "h" else if i == 3 then "m" else "s"
  }

  /** The match that spells these numbers in the shortest way. */
  function Shortest(i: nat, values: seq<Option<nat>>): Match
    requires i + |values| == GROUPS
    decreases |values|
  {
    if values == [] then End
    else
      var group := if values[0].Some? then Present(PrintNat(values[0].value), "", Short(i)) else Absent;
      Next(group, "", Shortest(i + 1, values[1..]))
  }

  lemma {:induction false} ShortestFits(i: nat, values: seq<Option<nat>>)
    requires i + |values| == GROUPS
    ensures Fits(i, Shortest(i, values)) && Numbers(Shortest(i, values)) == values
    decreases |values|
  {
    if values != [] {
      ShortestFits(i + 1, values[1..]);
      if values[0].Some? {
        ValueOfPrint(values[0].value);
      }
      assert values == [values[0]] + values[1..];
    }
  }

  /** Any five optional numbers are read back from their shortest spelling. */
  lemma {:induction false} ShortestRoundTrip(values: seq<Option<nat>>)
    requires |values| == GROUPS
    ensures ParseFrom(0, Matched(Shortest(0, values))) == Some(values)
  {
    ShortestFits(0, values);
    MatchIsParsed(0, Shortest(0, values));
  }

  /** The empty text is accepted, and so is any blank one; they mean no time at all. */
  lemma {:induction false} BlankIsZero(text: string)
    requires Strip(text) == ""
    ensures ParseTimedelta(text) == Some(0)
  {}
}
