/** Slack Block Kit texts: escaping, and truncation to the length that Slack allows. */
module BlockKit {
  import opened Wrappers
  import opened Text
  import opened TextLines

  // ---- Escaping

  /** `s.replace(c, sub)` */
  function Replace(s: string, c: char, sub: string): string {
    if s == "" then "" else (if s[0] == c then sub else [s[0]]) + Replace(s[1..], c, sub)
  }

  function EscapeChar(c: char): string {
    if c == '&' then "&amp;" else if c == '<' then "&lt;" else if c == '>' then "&gt;" else [c]
  }

  /** Each character on its own. */
  function Escape(s: string): string {
    if s == "" then "" else EscapeChar(s[0]) + Escape(s[1..])
  }

  function ThreeReplaces(s: string): string {
    Replace(Replace(Replace(s, '&', "&amp;"), '<', "&lt;"), '>', "&gt;")
  }

  lemma {:induction false} ReplaceConcat(a: string, b: string, c: char, sub: string)
    ensures Replace(a + b, c, sub) == Replace(a, c, sub) + Replace(b, c, sub)
    decreases |a|
  {
    if a == "" {
      assert a + b == b;
    } else {
      assert (a + b)[1..] == a[1..] + b;
      ReplaceConcat(a[1..], b, c, sub);
    }
  }

  lemma {:induction false} ReplaceAbsent(s: string, c: char, sub: string)
    requires c !in s
    ensures Replace(s, c, sub) == s
    decreases |s|
  {
    if s != "" {
      ReplaceAbsent(s[1..], c, sub);
    }
  }

  lemma {:induction false} ReplaceOne(x: char, c: char, sub: string)
    ensures Replace([x], c, sub) == if x == c then sub else [x]
  {}

  lemma {:induction false} ThreeReplacesOfOne(x: char)
    ensures ThreeReplaces([x]) == EscapeChar(x)
  {
    ReplaceOne(x, '&', "&amp;");
    if x == '&' {
      ReplaceAbsent("&amp;", '<', "&lt;");
      ReplaceAbsent("&amp;", '>', "&gt;");
    } else {
      ReplaceOne(x, '<', "&lt;");
      if x == '<' {
        ReplaceAbsent("&lt;", '>', "&gt;");
      } else {
        ReplaceOne(x, '>', "&gt;");
      }
    }
  }

  /** The three chained replacements escape character by character: none of them touches
    what an earlier one has put in. */
  lemma {:induction false} ThreeReplacesEscape(s: string)
    ensures ThreeReplaces(s) == Escape(s)
    decreases |s|
  {
    if s != "" {
      var x, rest := [s[0]], s[1..];
      assert s == x + rest;
      ReplaceConcat(x, rest, '&', "&amp;");
      ReplaceConcat(Replace(x, '&', "&amp;"), Replace(rest, '&', "&amp;"), '<', "&lt;");
      var x', rest' := Replace(x, '&', "&amp;"), Replace(rest, '&', "&amp;");
      ReplaceConcat(Replace(x', '<', "&lt;"), Replace(rest', '<', "&lt;"), '>', "&gt;");
      ThreeReplacesOfOne(s[0]);
      ThreeReplacesEscape(rest);
    }
  }

  /** How Slack reads escaped text. */
  function Unescape(s: string): string
    decreases |s|
  {
    if s == "" then ""
    else if "&amp;" <= s then "&" + Unescape(s[5..])
    else if "&lt;" <= s then "<" + Unescape(s[4..])
    else if "&gt;" <= s then ">" + Unescape(s[4..])
    else [s[0]] + Unescape(s[1..])
  }

  lemma {:induction false} EscapeInverse(s: string)
    ensures Unescape(Escape(s)) == s
    decreases |s|
  {
    if s != "" {
      var e, rest := EscapeChar(s[0]), Escape(s[1..]);
      EscapeInverse(s[1..]);
      assert (e + rest)[|e|..] == rest;
      assert (e + rest)[0] == e[0];
      if s[0] in "&<>" {
        assert (e + rest)[1] == e[1];
        assert e <= e + rest;
      }
    }
  }

  // ---- Python slices

  /** Where the slice bound `e` falls in a string of length `n`; negative counts from the end. */
  function Bound(e: int, n: nat): (b: nat)
    ensures b <= n
  {
    if e < 0 then (if e + n < 0 then 0 else e + n) else if e > n then n else e
  }

  /** `s.rfind(c, 0, e)` */
  function RFind(s: string, c: char, e: nat): (k: int)
    requires e <= |s|
    ensures -1 <= k < e && (k >= 0 ==> s[k] == c)
    ensures forall i :: k < i < e ==> s[i] != c
  {
    if e == 0 then -1 else if s[e - 1] == c then e - 1 else RFind(s, c, e - 1)
  }

  // ---- Truncation at the end

  const AT_END := "\n... truncated ..."
  const AT_START := "... truncated ...\n"
  const MARK: nat := 18

  function Format(s: string): string { ThreeReplaces(Strip(s)) }

  /** How much of the formatted text stays if it is too long. */
  function KeptLength(text: string, max: int): nat {
    var room := Bound(max - MARK, |text|);
    var newline := RFind(text, '\n', room);
    if newline == -1 then room else newline
  }

  /** `_format_and_truncate_at_end` */
  function TruncateAtEnd(s: string, max: int): string {
    var text := Format(s);
    if |text| <= max then text else text[..KeptLength(text, max)] + AT_END
  }

  /** The result is short enough if and only if nothing had to go or the mark itself fits. */
  lemma {:induction false} EndFits(s: string, max: int)
    ensures |TruncateAtEnd(s, max)| <= max <==> |Format(s)| <= max || max >= MARK
  {}

  /** What is kept is a first part of the text: up to the last line break in the room that
    the mark leaves, and without one, all of that room. */
  lemma {:induction false} EndKeepsPrefix(s: string, max: int)
    requires MARK <= max < |Format(s)|
    ensures var text := Format(s);
            var kept := text[..KeptLength(text, max)];
            && TruncateAtEnd(s, max) == kept + AT_END
            && |kept| <= max - MARK
            && (|kept| == max - MARK || text[|kept|] == '\n')
            && (forall i :: 0 <= i < max - MARK && text[i] == '\n' ==> i <= |kept| < max - MARK)
  {}

  // ---- Cuts through escaped text

  /** Every ampersand has a semicolon behind it: no escaped character is left open. */
  ghost predicate Closed(text: string) {
    forall p :: 0 <= p < |text| && text[p] == '&' ==> exists q :: p < q < |text| && text[q] == ';'
  }

  lemma {:induction false} CharIsClosed(c: char)
    ensures Closed(EscapeChar(c)) && EscapeChar(c) != ""
    ensures forall k :: 0 < k < |EscapeChar(c)| ==> !Closed(EscapeChar(c)[..k])
  {
    var e := EscapeChar(c);
    if e != [c] {
      assert e[|e| - 1] == ';';
      forall k | 0 < k < |e| ensures !Closed(e[..k]) {
        assert e[..k][0] == '&';
      }
    }
  }

  lemma {:induction false} ClosedAfterChar(c: char, rest: string)
    ensures Closed(EscapeChar(c) + rest) <==> Closed(rest)
  {
    var e := EscapeChar(c);
    var all := e + rest;
    CharIsClosed(c);
    if Closed(all) {
      forall p | 0 <= p < |rest| && rest[p] == '&' ensures exists q :: p < q < |rest| && rest[q] == ';' {
        assert all[|e| + p] == '&';
        var q :| |e| + p < q < |all| && all[q] == ';';
        assert rest[q - |e|] == ';';
      }
    }
    if Closed(rest) {
      forall p | 0 <= p < |all| && all[p] == '&' ensures exists q :: p < q < |all| && all[q] == ';' {
        if p < |e| {
          var q :| p < q < |e| && e[q] == ';';
          assert all[q] == ';';
        } else {
          assert rest[p - |e|] == '&';
          var q :| p - |e| < q < |rest| && rest[q] == ';';
          assert all[|e| + q] == ';';
        }
      }
    }
  }

  lemma {:induction false} EscapeIsClosed(s: string)
    ensures Closed(Escape(s))
    decreases |s|
  {
    if s != "" {
      EscapeIsClosed(s[1..]);
      ClosedAfterChar(s[0], Escape(s[1..]));
    }
  }

  lemma {:induction false} OpenInside(s: string, k: nat)
    requires s != "" && 0 < k <= |Escape(s)|
    ensures Closed(Escape(s)[..k]) ==> k >= |EscapeChar(s[0])|
  {
    CharIsClosed(s[0]);
    if k < |EscapeChar(s[0])| {
      assert Escape(s)[..k] == EscapeChar(s[0])[..k];
    }
  }

  /** A cut that leaves nothing open in front falls between two characters. */
  lemma {:induction false} ClosedIsBoundary(s: string, k: nat) returns (n: nat)
    requires k <= |Escape(s)| && Closed(Escape(s)[..k])
    ensures n <= |s| && Escape(s[..n]) == Escape(s)[..k] && Escape(s[n..]) == Escape(s)[k..]
    decreases |s|
  {
    n := 0;
    if k > 0 {
      var e, rest := EscapeChar(s[0]), Escape(s[1..]);
      OpenInside(s, k);
      var j := k - |e|;
      assert Escape(s)[..k] == e + rest[..j];
      ClosedAfterChar(s[0], rest[..j]);
      var m := ClosedIsBoundary(s[1..], j);
      n := m + 1;
      assert s[..n][1..] == s[1..][..m];
    }
  }

  /** A cut leaves whole characters in front if and only if nothing is left open there, and
    then it leaves whole characters behind as well. */
  lemma {:induction false} CleanCutIff(s: string, k: nat)
    requires k <= |Escape(s)|
    ensures Closed(Escape(s)[..k]) <==> exists t :: Escape(t) == Escape(s)[..k]
    ensures Closed(Escape(s)[..k]) <==> exists n :: 0 <= n <= |s| && Escape(s[..n]) == Escape(s)[..k]
    ensures Closed(Escape(s)[..k]) <==> exists n :: 0 <= n <= |s| && Escape(s[n..]) == Escape(s)[k..]
  {
    if Closed(Escape(s)[..k]) {
      var n := ClosedIsBoundary(s, k);
      assert 0 <= n <= |s|;
    }
    if t :| Escape(t) == Escape(s)[..k] {
      EscapeIsClosed(t);
    }
    if n :| 0 <= n <= |s| && Escape(s[n..]) == Escape(s)[k..] {
      WholeBehindIsClosed(s, k, n);
    }
  }

  lemma {:induction false} WholeBehindIsClosed(s: string, k: nat, n: nat)
    requires k <= |Escape(s)| && n <= |s| && Escape(s[n..]) == Escape(s)[k..]
    ensures Closed(Escape(s)[..k])
  {
    EscapeConcat(s[..n], s[n..]);
    assert s[..n] + s[n..] == s;
    assert |Escape(s[..n])| == k;
    assert Escape(s)[..k] == Escape(s[..n]);
    EscapeIsClosed(s[..n]);
  }

  lemma {:induction false} EscapeLength(s: string)
    ensures |Escape(s)| >= |s|
    decreases |s|
  {
    if s != "" {
      EscapeLength(s[1..]);
    }
  }

  lemma {:induction false} EscapeConcat(a: string, b: string)
    ensures Escape(a + b) == Escape(a) + Escape(b)
    decreases |a|
  {
    if a == "" {
      assert a + b == b;
    } else {
      assert (a + b)[1..] == a[1..] + b;
      EscapeConcat(a[1..], b);
    }
  }

  /** What truncation at the end keeps is the escaped form of some text if and only if it
    leaves no escaped character open; then it is that of a first part of the text. */
  lemma {:induction false} EndCutIsClean(s: string, max: int)
    requires |Format(s)| > max
    ensures var kept := Format(s)[..KeptLength(Format(s), max)];
            && TruncateAtEnd(s, max) == kept + AT_END
            && (Closed(kept) <==> exists t :: Escape(t) == kept)
            && (Closed(kept) <==> exists n :: 0 <= n <= |Strip(s)| && Escape(Strip(s)[..n]) == kept)
  {
    ThreeReplacesEscape(Strip(s));
    CleanCutIff(Strip(s), KeptLength(Format(s), max));
  }

  /** Nothing is open at a line break. */
  lemma {:induction false} LineBreakCloses(s: string, k: nat)
    requires k < |Escape(s)| && Escape(s)[k] == '\n'
    ensures Closed(Escape(s)[..k])
    decreases |s|
  {
    var e, rest := EscapeChar(s[0]), Escape(s[1..]);
    if k >= |e| {
      LineBreakCloses(s[1..], k - |e|);
      ClosedAfterChar(s[0], rest[..k - |e|]);
      assert Escape(s)[..k] == e + rest[..k - |e|];
    } else {
      assert e[k] == '\n';
    }
  }

  /** So with a line break in the room, what is kept is the escaped form of a first part of
    the stripped text, and Slack shows exactly that part. */
  lemma {:induction false} EndKeepsWholeCharacters(s: string, max: int) returns (n: nat)
    requires MARK <= max < |Format(s)|
    requires exists i :: 0 <= i < max - MARK && Format(s)[i] == '\n'
    ensures n <= |Strip(s)| && Unescape(Format(s)[..KeptLength(Format(s), max)]) == Strip(s)[..n]
  {
    ThreeReplacesEscape(Strip(s));
    EndKeepsPrefix(s, max);
    LineBreakCloses(Strip(s), KeptLength(Format(s), max));
    n := ClosedIsBoundary(Strip(s), KeptLength(Format(s), max));
    EscapeInverse(Strip(s)[..n]);
  }

  /** Without one it can be cut inside an escaped character: with room for two, an escaped
    ampersand leaves `&a`, which is not the escaped form of any text. */
  lemma {:induction false} EndCanSplitCharacter()
    ensures var s := seq(21, i => '&');
            Format(s)[..KeptLength(Format(s), MARK + 2)] == "&a"
    ensures forall t :: Escape(t) != "&a"
  {
    var s := seq(21, i => '&');
    assert Strip(s) == s;
    ThreeReplacesEscape(s);
    assert Escape(s) == "&amp;" + Escape(s[1..]);
    assert Escape(s)[..2] == "&a";
    assert Bound(2, |Escape(s)|) == 2;
    assert "&a"[0] == '&' && !Closed("&a");
    EscapeLength(s);
    EndCutIsClean(s, MARK + 2);
  }

  // ---- Truncation at the start

  /** The value of `length` after the first k lines are gone. */
  function LengthAfter(lines: seq<string>, k: nat): int
    requires k <= |lines|
  {
    if k == |lines| then -1 else |Join(lines[k..], '\n')|
  }

  /** Where a text of one line is cut at the start. */
  function StartCut(text: string, max: int): (k: nat)
    ensures k <= |text|
  {
    Bound(|text| - max + MARK, |text|)
  }

  /** It keeps the escaped form of a last part of the text if and only if what it drops
    leaves no escaped character open. */
  lemma {:induction false} StartCutIsClean(s: string, max: int)
    ensures var k := StartCut(Format(s), max);
            Closed(Format(s)[..k]) <==> exists n :: 0 <= n <= |Strip(s)| && Escape(Strip(s)[n..]) == Format(s)[k..]
  {
    ThreeReplacesEscape(Strip(s));
    CleanCutIff(Strip(s), StartCut(Format(s), max));
  }

  /** Otherwise it can leave the rest of one: with room for four, `amp;`. */
  lemma {:induction false} StartCanSplitCharacter()
    ensures var s := seq(21, i => '&');
            Format(s)[StartCut(Format(s), MARK + 4)..] == "amp;" && !Closed(Format(s)[..StartCut(Format(s), MARK + 4)])
  {
    var s := seq(21, i => '&');
    assert Strip(s) == s;
    ThreeReplacesEscape(s);
    EscapeConcat(s[..20], "&");
    assert s == s[..20] + "&";
    EscapeLength(s[..20]);
    var dropped := Escape(s)[..|Escape(s)| - 4];
    assert Escape("&") == "&amp;";
    assert dropped[|dropped| - 1] == '&';
  }

  /** `_format_and_truncate_at_start`; None stands for popping from an empty list. */
  method TruncateAtStart(s: string, max: int) returns (r: Option<string>)
    ensures |Format(s)| <= max ==> r == Some(Format(s))
    ensures |Format(s)| > max && '\n' !in Format(s) ==>
              r == Some(AT_START + Format(s)[StartCut(Format(s), max)..])
    ensures |Format(s)| > max && '\n' in Format(s) ==>
              var lines := Split(Format(s), '\n');
              && (r.None? <==> max < MARK - 1)
              && (r.Some? ==>
                    exists k: nat :: IsLeastCut(lines, k, max - MARK) && r == Some(AT_START + Join(lines[k..], '\n')))
  {
    var text := Format(s);
    var length: int := |text|;
    if length <= max {
      return Some(text);
    }
    var lines := Split(text, '\n');
    ghost var all := lines;
    SplitCount(text, '\n');
    if |lines| == 1 {
      var start := length - max + |AT_START|;
      return Some(AT_START + text[Bound(start, |text|)..]);
    }
    JoinSplit(text, '\n');
    assert all[0..] == all;
    ghost var k := 0;
    while length > max - |AT_START|
      invariant k <= |all| && lines == all[k..]
      invariant length == LengthAfter(all, k)
      invariant forall j :: 0 <= j < k ==> LengthAfter(all, j) > max - MARK
      decreases |lines|
    {
      if lines == [] {
        return None;
      }
      PopLine(all, k);
      var line := lines[0];
      lines := lines[1..];
      length := length - (|line| + 1);
      k := k + 1;
    }
    assert IsLeastCut(all, k, max - MARK);
    return Some(AT_START + Join(lines, '\n'));
  }

  /** The first k lines are the fewest whose removal makes the rest fit. */
  ghost predicate IsLeastCut(lines: seq<string>, k: nat, room: int) {
    && k <= |lines|
    && LengthAfter(lines, k) <= room
    && forall j :: 0 <= j < k ==> LengthAfter(lines, j) > room
  }

  lemma {:induction false} PopLine(lines: seq<string>, k: nat)
    requires k < |lines|
    ensures LengthAfter(lines, k + 1) == LengthAfter(lines, k) - (|lines[k]| + 1)
  {}

  lemma {:induction false} SplitCount(s: string, c: char)
    ensures |Split(s, c)| == 1 <==> c !in s
  {
    if s != "" {
      SplitCount(s[1..], c);
    }
  }

  /** Like at the end: the result is short enough if and only if nothing had to go or the
    mark fits, and the loop runs out of lines if and only if there are several, they are
    too long, and there is no room for the mark without its line break. */
  lemma {:induction false} StartFits(s: string, max: int, r: Option<string>, k: nat)
    requires |Format(s)| > max
    requires '\n' in Format(s)
    requires IsLeastCut(Split(Format(s), '\n'), k, max - MARK)
    requires r == Some(AT_START + Join(Split(Format(s), '\n')[k..], '\n'))
    ensures |r.value| <= max <==> max >= MARK
    ensures r.value[MARK..] == Join(Split(Format(s), '\n')[k..], '\n')
    ensures r.value[MARK..] == Format(s)[|Format(s)| - (|r.value| - MARK)..]
  {
    SuffixOfLines(Split(Format(s), '\n'), k);
    JoinSplit(Format(s), '\n');
    assert r.value[MARK..] == Join(Split(Format(s), '\n')[k..], '\n');
  }

  /** The lines from the k-th on are a last part of the whole text. */
  lemma {:induction false} SuffixOfLines(lines: seq<string>, k: nat)
    requires k <= |lines|
    ensures var whole, part := Join(lines, '\n'), Join(lines[k..], '\n');
            |part| <= |whole| && whole[|whole| - |part|..] == part
    decreases k
  {
    var part := Join(lines[k..], '\n');
    if k == 0 {
      assert lines[0..] == lines;
    } else {
      SuffixOfLines(lines[1..], k - 1);
      assert lines[1..][k - 1..] == lines[k..];
      if |lines| > 1 {
        SuffixOfSuffix(lines[0] + ['\n'], Join(lines[1..], '\n'), part);
        assert Join(lines, '\n') == lines[0] + ['\n'] + Join(lines[1..], '\n');
      }
    }
  }

  lemma {:induction false} SuffixOfSuffix(front: string, rest: string, part: string)
    requires |part| <= |rest| && rest[|rest| - |part|..] == part
    ensures (front + rest)[|front + rest| - |part|..] == part
  {}

  // ---- Blocks

  /** The text of `SlackTextBlock`; fields allow 2000 characters and other blocks 3000. */
  function TextBlock(heading: string, text: string, maxLength: nat): string {
    var head := "*" + heading + "*\n";
    head + TruncateAtEnd(text, maxLength - |head|)
  }

  /** A text block is short enough if and only if its text needs no truncation, or the
    heading leaves room for the mark. */
  lemma {:induction false} TextBlockFits(heading: string, text: string, maxLength: nat)
    ensures |TextBlock(heading, text, maxLength)| <= maxLength
            <==> |heading| + 3 + |Format(text)| <= maxLength || |heading| + 3 + MARK <= maxLength
  {}

  /** What a block shows under its heading: the whole text if there is room for it, and
    otherwise a first part of it and the mark. */
  lemma {:induction false} TextBlockShows(heading: string, text: string, maxLength: nat)
    ensures var (head, all, shown) := ("*" + heading + "*\n", Format(text), TextBlock(heading, text, maxLength));
            && head <= shown
            && (|head| + |all| <= maxLength ==> shown[|head|..] == all)
            && (|head| + |all| > maxLength ==> exists n :: 0 <= n <= |all| && shown[|head|..] == all[..n] + AT_END)
  {
    var head, all := "*" + heading + "*\n", Format(text);
    assert TextBlock(heading, text, maxLength)[|head|..] == TruncateAtEnd(text, maxLength - |head|);
    if |head| + |all| > maxLength {
      var n := KeptLength(all, maxLength - |head|);
      assert 0 <= n <= |all|;
    }
  }

  /** The code from n on, if it was too long: from the first line on that leaves room for the
    mark, or if it has only one line, exactly as much as there is room for. */
  ghost predicate IsTail(text: string, n: nat, max: int) {
    && n <= |text|
    && if '\n' !in text then n == StartCut(text, max) else
       && (n < |text| ==> |text| - n <= max - MARK)
       && (n == |text| || (n > 0 && text[n - 1] == '\n'))
       && forall m :: 0 <= m < n && LineStart(text, '\n', m) ==> |text| - m > max - MARK
  }

  lemma {:induction false} LeastCutIsTail(text: string, k: nat, max: int) returns (n: nat)
    requires |text| > max && '\n' in text && IsLeastCut(Split(text, '\n'), k, max - MARK)
    ensures IsTail(text, n, max) && Join(Split(text, '\n')[k..], '\n') == text[n..]
  {
    var lines := Split(text, '\n');
    JoinSplit(text, '\n');
    assert lines[0..] == lines;
    if k == |lines| {
      n := |text|;
    } else {
      n := LineIsLineStart(lines, '\n', k);
    }
    forall m | 0 <= m < n && LineStart(text, '\n', m) ensures |text| - m > max - MARK {
      var j := LineStartIsLine(text, '\n', m);
      if j < k {
        assert LengthAfter(lines, j) == |text| - m;
      } else {
        LaterIsShorter(lines, k, j);
      }
    }
  }

  lemma {:induction false} LaterIsShorter(lines: seq<string>, k: nat, j: nat)
    requires k <= j <= |lines|
    ensures |Join(lines[j..], '\n')| <= |Join(lines[k..], '\n')|
  {
    SuffixOfLines(lines[k..], j - k);
    assert lines[k..][j - k..] == lines[j..];
  }

  /** The text of `SlackCodeBlock`. It is short enough whenever its code needs no truncation
    or the heading and the fences leave room for the mark, and only then. */
  method CodeBlock(heading: string, code: string, maxLength: nat) returns (r: Option<string>)
    ensures r.Some? && |r.value| <= maxLength
            <==> |heading| + 11 + |Format(code)| <= maxLength || |heading| + 11 + MARK <= maxLength
    ensures |heading| + 11 + |Format(code)| <= maxLength ==>
              r == Some("*" + heading + "*\n" + "```\n" + Format(code) + "\n```")
    ensures |heading| + 11 + |Format(code)| > maxLength && r.Some? ==>
              exists n: nat :: IsTail(Format(code), n, maxLength - |heading| - 11) &&
                          r == Some("*" + heading + "*\n" + "```\n" + (AT_START + Format(code)[n..]) + "\n```")
    ensures r.None? <==> |heading| + 11 + |Format(code)| > maxLength && '\n' in Format(code) &&
                         maxLength < |heading| + 11 + MARK - 1
  {
    var head := "*" + heading + "*\n";
    var max := maxLength - (|head| + 8);
    var body := TruncateAtStart(code, max);
    assert |Format(code)| > max && '\n' in Format(code) && body.Some? ==> (|body.value| <= max <==> max >= MARK) by {
      if |Format(code)| > max && '\n' in Format(code) && body.Some? {
        var lines := Split(Format(code), '\n');
        var k: nat :| IsLeastCut(lines, k, max - MARK) && body == Some(AT_START + Join(lines[k..], '\n'));
        StartFits(code, max, body, k);
      }
    }
    if body.None? {
      return None;
    }
    if |Format(code)| > max {
      ghost var n := StartCut(Format(code), max);
      if '\n' in Format(code) {
        var lines := Split(Format(code), '\n');
        ghost var k: nat :| IsLeastCut(lines, k, max - MARK) && body == Some(AT_START + Join(lines[k..], '\n'));
        n := LeastCutIsTail(Format(code), k, max);
      }
      assert IsTail(Format(code), n, max) && body == Some(AT_START + Format(code)[n..]);
    }
    return Some(head + "```\n" + body.value + "\n```");
  }
}
