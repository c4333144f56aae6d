/** String operations of Python that several parts use. */
module Text {

  /** The characters of `\s`, which are also those that `strip` removes. */
  predicate IsSpace(c: char) {
    || '\t' <= c <= '\r' || '\U{001C}' <= c <= ' ' || c == '\U{0085}' || c == '\U{00A0}'
    || c == '\U{1680}' || '\U{2000}' <= c <= '\U{200A}' || c == '\U{2028}' || c == '\U{2029}'
    || c == '\U{202F}' || c == '\U{205F}' || c == '\U{3000}'
  }

  /** `s.lstrip()` */
  function SkipSpace(s: string): string {
    if s != "" && IsSpace(s[0]) then SkipSpace(s[1..]) else s
  }

  ghost predicate AllSpace(s: string) {
    forall i :: 0 <= i < |s| ==> IsSpace(s[i])
  }

  /** It removes the longest blank front. */
  lemma {:induction false} SkipSpaceSplits(s: string) returns (front: string)
    ensures AllSpace(front) && s == front + SkipSpace(s)
    ensures SkipSpace(s) != "" ==> !IsSpace(SkipSpace(s)[0])
  {
    front := "";
    if s != "" && IsSpace(s[0]) {
      var more := SkipSpaceSplits(s[1..]);
      front := [s[0]] + more;
    }
  }

  lemma {:induction false} SkipSpaceKeeps(s: string)
    ensures forall c :: c in SkipSpace(s) ==> c in s
  {
    var front := SkipSpaceSplits(s);
    assert forall c :: c in SkipSpace(s) ==> c in front + SkipSpace(s);
  }

  /** `s.rstrip()` */
  function TrimEnd(s: string): (front: string)
    ensures front <= s
    ensures forall i :: |front| <= i < |s| ==> IsSpace(s[i])
    ensures front != "" ==> !IsSpace(front[|front| - 1])
  {
    if s != "" && IsSpace(s[|s| - 1]) then TrimEnd(s[..|s| - 1]) else s
  }

  function Strip(s: string): string { TrimEnd(SkipSpace(s)) }

  /** `s.split(c)` */
  function Split(s: string, c: char): (parts: seq<string>)
    ensures parts != []
  {
    if s == "" then [""]
    else
      var rest := Split(s[1..], c);
      if s[0] == c then [""] + rest else [[s[0]] + rest[0]] + rest[1..]
  }

  /** `c.join(parts)` */
  function Join(parts: seq<string>, c: char): string {
    if parts == [] then "" else if |parts| == 1 then parts[0] else parts[0] + ([c] + Join(parts[1..], c))
  }

  lemma {:induction false} SplitOne(s: string, c: char)
    requires c !in s
    ensures Split(s, c) == [s]
  {
    if s != "" {
      SplitOne(s[1..], c);
      assert [s[0]] + s[1..] == s;
    }
  }

  lemma {:induction false} SplitFirst(s: string, c: char, rest: string)
    requires c !in s
    ensures Split(s + ([c] + rest), c) == [s] + Split(rest, c)
  {
    var all := s + ([c] + rest);
    if s == "" {
      assert all[1..] == rest;
    } else {
      assert all[1..] == s[1..] + ([c] + rest);
      SplitFirst(s[1..], c, rest);
      assert [s[0]] + s[1..] == s;
    }
  }

  lemma {:induction false} SplitHasNone(s: string, c: char)
    ensures forall i :: 0 <= i < |Split(s, c)| ==> c !in Split(s, c)[i]
  {
    if s != "" {
      SplitHasNone(s[1..], c);
    }
  }

  lemma {:induction false} JoinSplit(s: string, c: char)
    ensures Join(Split(s, c), c) == s
  {
    if s != "" {
      JoinSplit(s[1..], c);
      var rest, parts := Split(s[1..], c), Split(s, c);
      if s[0] == c {
        assert parts[1..] == rest;
      } else if |parts| > 1 {
        assert parts[1..] == rest[1..];
      }
    }
  }
}
