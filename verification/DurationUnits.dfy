/** What the unit words of durations mean, and the order that they must come in. */
module DurationUnits {
  import opened Wrappers
  import opened Text
  import opened Decimal
  import opened Duration

  /** The length of a unit in seconds. */
  function Seconds(unit: string): Option<nat> {
    if unit in ["weeks", "week", "w"] then Some(604800)
    else if unit in ["days", "day", "d"] then Some(86400)
    else if unit in ["hours", "hour", "hr", "h"] then Some(3600)
    else if unit in ["minutes", "minute", "mins", "min", "m"] then Some(60)
    else if unit in ["seconds", "second", "secs", "sec", "s"] then Some(1)
    else None
  }

  /** A number, a word, and the space behind each of them. */
  datatype Term = Term(n: nat, gap: string, unit: string, sep: string)

  ghost predicate IsTerm(t: Term) {
    && AllSpace(t.gap) && AllSpace(t.sep)
    && t.unit != "" && forall k :: 0 <= k < |t.unit| ==> IsWordChar(t.unit[k])
  }

  ghost predicate AreTerms(terms: seq<Term>) {
    && (forall i :: 0 <= i < |terms| ==> IsTerm(terms[i]))
    && (terms != [] ==> terms[|terms| - 1].sep == "")
  }

  function Spell(t: Term, rest: string): string { PrintNat(t.n) + (t.gap + (t.unit + rest)) }

  function SpellAll(terms: seq<Term>): string {
    if terms == [] then "" else Spell(terms[0], terms[0].sep + SpellAll(terms[1..]))
  }

  // ---- One term

  lemma {:induction false} SpellStarts(t: Term, rest: string)
    ensures Spell(t, rest) != "" && IsDigit(Spell(t, rest)[0])
  {}

  lemma {:induction false} TermsStart(terms: seq<Term>)
    ensures SpellAll(terms) != "" <==> terms != []
    ensures terms != [] ==> IsDigit(SpellAll(terms)[0])
  {
    if terms != [] {
      SpellStarts(terms[0], terms[0].sep + SpellAll(terms[1..]));
    }
  }

  /** A digit or a space ends the word. */
  lemma {:induction false} TakeTerm(t: Term, rest: string)
    requires IsTerm(t) && (rest != "" ==> !IsWordChar(rest[0]))
    ensures TakeNumber(Spell(t, rest)) == Some((t.n, t.unit, rest))
  {
    ValueOfPrint(t.n);
    var digits, tail := PrintNat(t.n), t.unit + rest;
    var s := digits + (t.gap + tail);
    StartOfConcat(t.gap, tail);
    StartOfConcat(t.unit, rest);
    DigitRunOf(digits, t.gap + tail);
    assert s[..|digits|] == digits && s[|digits|..] == t.gap + tail;
    SkipSpaceConcat(t.gap, tail);
    SkipSpaceNone(tail);
    WordRunOf(t.unit, rest);
    assert tail[..|t.unit|] == t.unit && tail[|t.unit|..] == rest;
  }

  // ---- The sum

  function UnitSeconds(g: nat): nat {
    if g == 0 then 604800 else if g == 1 then 86400 else if g == 2 then 3600 else if g == 3 then 60 else 1
  }

  lemma {:induction false} SecondsOfGroup(unit: string)
    ensures Seconds(unit) == if UnitGroup(unit) < GROUPS then Some(UnitSeconds(UnitGroup(unit))) else None
  {
    assert UnitFrom(5, unit) == GROUPS;
    assert UnitFrom(4, unit) == if unit in Names(4) then 4 else GROUPS;
    assert UnitFrom(3, unit) == if unit in Names(3) then 3 else UnitFrom(4, unit);
    assert UnitFrom(2, unit) == if unit in Names(2) then 2 else UnitFrom(3, unit);
    assert UnitFrom(1, unit) == if unit in Names(1) then 1 else UnitFrom(2, unit);
  }

  /** So many units of group g, in seconds. */
  function Amount(n: nat, g: nat): nat {
    if g == 0 then n * 604800
    else if g == 1 then n * 86400
    else if g == 2 then n * 3600
    else if g == 3 then n * 60
    else n
  }

  function SumFrom(i: nat, values: seq<Option<nat>>): nat
    decreases |values|
  {
    if values == [] then 0 else Amount(Or0(values[0]), i) + SumFrom(i + 1, values[1..])
  }

  lemma {:induction false} TotalIsSum(v: seq<Option<nat>>)
    requires |v| == GROUPS
    ensures Total(v) == SumFrom(0, v)
  {
    assert SumFrom(5, v[1..][1..][1..][1..][1..]) == 0;
    assert SumFrom(4, v[1..][1..][1..][1..]) == Or0(v[4]);
    assert SumFrom(3, v[1..][1..][1..]) == Or0(v[3]) * 60 + Or0(v[4]);
    assert SumFrom(2, v[1..][1..]) == Or0(v[2]) * 3600 + (Or0(v[3]) * 60 + Or0(v[4]));
    assert SumFrom(1, v[1..]) == Or0(v[1]) * 86400 + (Or0(v[2]) * 3600 + (Or0(v[3]) * 60 + Or0(v[4])));
  }

  function Plus(n: nat, sum: Option<nat>): Option<nat> {
    if sum.None? then None else Some(n + sum.value)
  }

  /** What the groups from i on make of a text, in seconds. */
  function Sum(i: nat, s: string): Option<nat>
    requires i <= GROUPS
    decreases GROUPS - i
  {
    if i == GROUPS then (if s == "" then Some(0) else None)
    else Plus(Amount(Or0(Read(i, s)), i), Sum(i + 1, After(i, s)))
  }

  lemma {:induction false} SumOfValues(i: nat, first: Option<nat>, later: Option<seq<Option<nat>>>)
    ensures later.Some? ==> SumFrom(i, [first] + later.value) == Amount(Or0(first), i) + SumFrom(i + 1, later.value)
  {
    if later.Some? {
      assert ([first] + later.value)[1..] == later.value;
    }
  }

  lemma {:induction false} ParseNext(i: nat, s: string)
    requires i < GROUPS
    ensures var later := ParseFrom(i + 1, After(i, s));
            ParseFrom(i, s) == if later.None? then None else Some([Read(i, s)] + later.value)
    ensures Sum(i, s) == Plus(Amount(Or0(Read(i, s)), i), Sum(i + 1, After(i, s)))
  {}

  lemma {:induction false} SumIsParsed(i: nat, s: string)
    requires i <= GROUPS
    ensures ParseFrom(i, s).Some? <==> Sum(i, s).Some?
    ensures Sum(i, s).Some? ==> Sum(i, s).value == SumFrom(i, ParseFrom(i, s).value)
    decreases GROUPS - i
  {
    if i < GROUPS {
      ParseNext(i, s);
      SumIsParsed(i + 1, After(i, s));
      SumOfValues(i, Read(i, s), ParseFrom(i + 1, After(i, s)));
    }
  }

  // ---- A text that begins with a number and a word

  lemma {:induction false} OwnGroup(i: nat, s: string, n: nat, unit: string, rest: string)
    requires i < GROUPS && TakeNumber(s) == Some((n, unit, rest)) && UnitGroup(unit) == i
    ensures Read(i, s) == Some(n) && After(i, s) == SkipBetween(i, rest)
  {}

  lemma {:induction false} OtherGroup(i: nat, s: string, n: nat, unit: string, rest: string)
    requires i < GROUPS && TakeNumber(s) == Some((n, unit, rest)) && UnitGroup(unit) != i
    requires s != "" && IsDigit(s[0])
    ensures Read(i, s) == None && After(i, s) == s
  {
    SkipSpaceNone(s);
  }

  lemma {:induction false} SumOwn(i: nat, s: string, n: nat, unit: string, rest: string)
    requires i < GROUPS && TakeNumber(s) == Some((n, unit, rest)) && UnitGroup(unit) == i
    ensures Sum(i, s) == Plus(Amount(n, i), Sum(i + 1, SkipBetween(i, rest)))
  {
    ParseNext(i, s);
    OwnGroup(i, s, n, unit, rest);
  }

  lemma {:induction false} SumOther(i: nat, s: string, n: nat, unit: string, rest: string)
    requires i < GROUPS && TakeNumber(s) == Some((n, unit, rest)) && UnitGroup(unit) != i
    requires s != "" && IsDigit(s[0])
    ensures Sum(i, s) == Sum(i + 1, s)
  {
    ParseNext(i, s);
    OtherGroup(i, s, n, unit, rest);
  }

  lemma {:induction false} SumRefused(i: nat, s: string, n: nat, unit: string, rest: string)
    requires i <= GROUPS && s != "" && IsDigit(s[0]) && TakeNumber(s) == Some((n, unit, rest))
    requires UnitGroup(unit) < i || UnitGroup(unit) == GROUPS
    ensures Sum(i, s) == None
    decreases GROUPS - i
  {
    if i < GROUPS {
      SumOther(i, s, n, unit, rest);
      SumRefused(i + 1, s, n, unit, rest);
    }
  }

  /** It is only read by the group of the word. */
  lemma {:induction false} SumRead(i: nat, g: nat, s: string, n: nat, unit: string, rest: string)
    requires i <= g < GROUPS && s != "" && IsDigit(s[0]) && TakeNumber(s) == Some((n, unit, rest))
    requires UnitGroup(unit) == g
    ensures Sum(i, s) == Plus(Amount(n, g), Sum(g + 1, SkipBetween(g, rest)))
    decreases g - i
  {
    if i == g {
      SumOwn(i, s, n, unit, rest);
    } else {
      SumOther(i, s, n, unit, rest);
      SumRead(i + 1, g, s, n, unit, rest);
    }
  }

  // ---- All terms

  /** The units are known, and each one is longer than the next. */
  ghost predicate Descends(terms: seq<Term>) {
    && (forall i :: 0 <= i < |terms| ==> Seconds(terms[i].unit).Some?)
    && forall i :: 0 <= i < |terms| - 1 ==> Seconds(terms[i].unit).value > Seconds(terms[i + 1].unit).value
  }

  function Meant(terms: seq<Term>): nat {
    if terms == [] then 0
    else terms[0].n * Or0(Seconds(terms[0].unit)) + Meant(terms[1..])
  }

  lemma {:induction false} DescendsFrom(terms: seq<Term>)
    requires terms != []
    ensures Descends(terms) <==>
              && Seconds(terms[0].unit).Some? && Descends(terms[1..])
              && (|terms| > 1 ==> Seconds(terms[0].unit).value > Seconds(terms[1].unit).value)
  {
    var rest := terms[1..];
    assert forall i :: 0 <= i < |rest| ==> rest[i] == terms[i + 1];
    if Descends(rest) && Seconds(terms[0].unit).Some?
       && (|terms| > 1 ==> Seconds(terms[0].unit).value > Seconds(terms[1].unit).value) {
      forall i | 0 <= i < |terms| ensures Seconds(terms[i].unit).Some? {
        assert i > 0 ==> terms[i] == rest[i - 1];
      }
      forall i | 0 <= i < |terms| - 1 ensures Seconds(terms[i].unit).value > Seconds(terms[i + 1].unit).value {
        assert i > 0 ==> terms[i] == rest[i - 1] && terms[i + 1] == rest[i];
      }
    }
  }

  lemma {:induction false} RestOfTerms(terms: seq<Term>, g: nat)
    requires AreTerms(terms) && terms != [] && g < GROUPS
    ensures AreTerms(terms[1..])
    ensures var rest := terms[0].sep + SpellAll(terms[1..]);
            && (rest != "" ==> !IsWordChar(rest[0]))
            && (g < GROUPS - 1 ==> SkipBetween(g, rest) == SpellAll(terms[1..]))
            && (g == GROUPS - 1 ==> (SkipBetween(g, rest) == "" <==> |terms| == 1))
  {
    var later := SpellAll(terms[1..]);
    TermsStart(terms[1..]);
    StartOfConcat(terms[0].sep, later);
    SkipSpaceConcat(terms[0].sep, later);
    SkipSpaceNone(later);
  }

  lemma {:induction false} FirstTerm(terms: seq<Term>)
    requires AreTerms(terms) && terms != []
    ensures var (s, rest) := (SpellAll(terms), terms[0].sep + SpellAll(terms[1..]));
            s != "" && IsDigit(s[0]) && TakeNumber(s) == Some((terms[0].n, terms[0].unit, rest))
  {
    var t, rest := terms[0], terms[0].sep + SpellAll(terms[1..]);
    SpellStarts(t, rest);
    RestOfTerms(terms, 0);
    TakeTerm(t, rest);
  }

  lemma {:induction false} TermRefused(i: nat, terms: seq<Term>)
    requires i <= GROUPS && AreTerms(terms) && terms != []
    requires UnitGroup(terms[0].unit) < i || UnitGroup(terms[0].unit) == GROUPS
    ensures Sum(i, SpellAll(terms)) == None
  {
    FirstTerm(terms);
    SumRefused(i, SpellAll(terms), terms[0].n, terms[0].unit, terms[0].sep + SpellAll(terms[1..]));
  }

  lemma {:induction false} TermRead(i: nat, g: nat, terms: seq<Term>)
    requires AreTerms(terms) && terms != [] && i <= g < GROUPS - 1 && UnitGroup(terms[0].unit) == g
    ensures Sum(i, SpellAll(terms)) == Plus(Amount(terms[0].n, g), Sum(g + 1, SpellAll(terms[1..])))
  {
    FirstTerm(terms);
    RestOfTerms(terms, g);
    SumRead(i, g, SpellAll(terms), terms[0].n, terms[0].unit, terms[0].sep + SpellAll(terms[1..]));
  }

  /** Behind the last group nothing may follow. */
  lemma {:induction false} LastTermRead(i: nat, terms: seq<Term>)
    requires AreTerms(terms) && terms != [] && i < GROUPS && UnitGroup(terms[0].unit) == GROUPS - 1
    ensures Sum(i, SpellAll(terms)) == if |terms| == 1 then Some(Amount(terms[0].n, GROUPS - 1)) else None
  {
    var rest := terms[0].sep + SpellAll(terms[1..]);
    FirstTerm(terms);
    RestOfTerms(terms, GROUPS - 1);
    SumRead(i, GROUPS - 1, SpellAll(terms), terms[0].n, terms[0].unit, rest);
    NothingBehind(SkipBetween(GROUPS - 1, rest));
  }

  lemma {:induction false} NothingBehind(s: string)
    ensures Sum(GROUPS, s) == if s == "" then Some(0) else None
  {}

  lemma {:induction false} NothingLeft(i: nat)
    requires i <= GROUPS
    ensures Sum(i, "") == Some(0)
    decreases GROUPS - i
  {
    if i < GROUPS {
      assert TakeGroup(i, "") == None;
      ParseNext(i, "");
      NothingLeft(i + 1);
    }
  }

  /** In which group the first unit must be for the terms to be read from group i on. */
  ghost predicate ReadableFrom(i: nat, terms: seq<Term>) {
    Descends(terms) && (terms != [] ==> UnitGroup(terms[0].unit) >= i)
  }

  lemma {:induction false} ReadableNext(i: nat, terms: seq<Term>)
    requires terms != []
    ensures var g := UnitGroup(terms[0].unit);
            ReadableFrom(i, terms) <==> i <= g < GROUPS && ReadableFrom(g + 1, terms[1..])
    ensures ReadableFrom(i, terms) ==>
              Meant(terms) == Amount(terms[0].n, UnitGroup(terms[0].unit)) + Meant(terms[1..])
  {
    DescendsFrom(terms);
    SecondsOfGroup(terms[0].unit);
    if |terms| > 1 {
      SecondsOfGroup(terms[1].unit);
    }
  }

  /** What should come out. */
  ghost function MeantFrom(i: nat, terms: seq<Term>): Option<nat> {
    if ReadableFrom(i, terms) then Some(Meant(terms)) else None
  }

  lemma {:induction false} MeantNext(i: nat, terms: seq<Term>)
    requires terms != []
    ensures var g := UnitGroup(terms[0].unit);
            MeantFrom(i, terms) ==
            if i <= g < GROUPS then Plus(Amount(terms[0].n, g), MeantFrom(g + 1, terms[1..])) else None
  {
    ReadableNext(i, terms);
  }

  lemma {:induction false} NoneBehind(terms: seq<Term>)
    ensures MeantFrom(GROUPS, terms) == if terms == [] then Some(0) else None
  {
    if terms != [] {
      MeantNext(GROUPS, terms);
    }
  }

  /** The groups from i on read exactly the texts whose units they are, in their order. */
  lemma {:induction false} ParseTerms(i: nat, terms: seq<Term>)
    requires i <= GROUPS && AreTerms(terms)
    ensures Sum(i, SpellAll(terms)) == MeantFrom(i, terms)
    decreases |terms|
  {
    if terms == [] {
      NothingLeft(i);
    } else {
      var g := UnitGroup(terms[0].unit);
      MeantNext(i, terms);
      if g < i || g == GROUPS {
        TermRefused(i, terms);
      } else if g < GROUPS - 1 {
        RestAreTerms(terms);
        TermRead(i, g, terms);
        ParseTerms(g + 1, terms[1..]);
      } else {
        LastTermRead(i, terms);
        NoneBehind(terms[1..]);
      }
    }
  }

  lemma {:induction false} RestAreTerms(terms: seq<Term>)
    requires AreTerms(terms) && terms != []
    ensures AreTerms(terms[1..])
  {}

  /** A text of numbers with words behind them is accepted if and only if every word is one of
    the unit words and the units come in descending order, and it means the sum. */
  lemma {:induction false} TermsMeanTheSum(text: string, terms: seq<Term>)
    requires AreTerms(terms) && Strip(text) == SpellAll(terms)
    ensures ParseTimedelta(text) == if Descends(terms) then Some(Meant(terms)) else None
  {
    ParseTerms(0, terms);
    SumIsParsed(0, SpellAll(terms));
    if Descends(terms) {
      TotalIsSum(ParseFrom(0, SpellAll(terms)).value);
    }
  }
}
