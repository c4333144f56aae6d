/** Which texts are links at all, and where their targets go (section 3 of RFC 8288). */
module LinkPattern {
  import opened Wrappers
  import opened Text
  import opened LinkHeader

  /** A text with a relation type that is not quoted. */
  function TokenLink(lead: string, target: string, gap: string, rel: string, tail: string): string {
    LinkTo(lead, target, gap, rel + tail)
  }

  /** What both kinds of links begin with. */
  function LinkTo(lead: string, target: string, gap: string, r: string): string {
    lead + (['<'] + (target + (['>'] + (";" + (gap + ("rel=" + r))))))
  }

  function Quoted(rel: string, tail: string): string { ['"'] + (rel + (['"'] + tail)) }

  lemma {:induction false} QuotedLinkIs(lead: string, target: string, gap: string, rel: string, tail: string)
    ensures QuotedLink(lead, target, gap, rel, tail) == LinkTo(lead, target, gap, Quoted(rel, tail))
  {}

  ghost predicate IsQuotedLink(e: string, target: string, rel: string) {
    exists lead, gap, tail :: IsQuoted(e, lead, target, gap, rel, tail)
  }

  ghost predicate IsQuoted(e: string, lead: string, target: string, gap: string, rel: string, tail: string) {
    && AllSpace(lead) && AllSpace(gap) && target != "" && '>' !in target && rel != "" && '"' !in rel
    && e == QuotedLink(lead, target, gap, rel, tail)
  }

  ghost predicate IsTokenLink(e: string, target: string, rel: string) {
    exists lead, gap, tail :: IsToken(e, lead, target, gap, rel, tail)
  }

  /** The relation type is as long as possible. */
  ghost predicate IsToken(e: string, lead: string, target: string, gap: string, rel: string, tail: string) {
    && AllSpace(lead) && AllSpace(gap) && target != "" && '>' !in target
    && rel != "" && (forall i :: 0 <= i < |rel| ==> IsTokenChar(rel[i]))
    && (tail != "" ==> !IsTokenChar(tail[0]))
    && e == TokenLink(lead, target, gap, rel, tail)
  }

  lemma {:induction false} TokenLengthOf(rel: string, tail: string)
    requires (forall i :: 0 <= i < |rel| ==> IsTokenChar(rel[i])) && (tail != "" ==> !IsTokenChar(tail[0]))
    ensures TokenLength(rel + tail) == |rel|
  {
    if rel == "" {
      assert rel + tail == tail;
    } else {
      assert (rel + tail)[1..] == rel[1..] + tail;
      TokenLengthOf(rel[1..], tail);
    }
  }

  /** What both patterns share. */
  lemma {:induction false} MatchTargetOf(lead: string, target: string, gap: string, r: string)
    requires AllSpace(lead) && AllSpace(gap) && target != "" && '>' !in target
    ensures MatchTarget(LinkTo(lead, target, gap, r)) == Some((target, r))
  {
    var afterGap := "rel=" + r;
    var afterTarget := ";" + (gap + afterGap);
    SkipSpaceOf(lead, ['<'] + (target + (['>'] + afterTarget)));
    TakeTargetOf(target, afterTarget);
    ExpectOf(";", gap + afterGap);
    SkipSpaceOf(gap, afterGap);
    ExpectOf("rel=", r);
  }

  lemma {:induction false} ExpectIs(s: string, literal: string)
    requires Expect(s, literal).Some?
    ensures s == literal + Expect(s, literal).value
  {}

  lemma {:induction false} TakeTargetIs(s: string)
    requires TakeTarget(s).Some?
    ensures var (target, after) := TakeTarget(s).value;
            target != "" && '>' !in target && s == ['<'] + (target + (['>'] + after))
  {
    var n := Until(s[1..], '>');
    assert s[1..] == s[1..][..n] + (['>'] + s[1..][n + 1..]);
    assert s == ['<'] + s[1..];
  }

  lemma {:induction false} TargetIsThere(e: string) returns (lead: string, gap: string)
    requires MatchTarget(e).Some?
    ensures AllSpace(lead) && AllSpace(gap)
    ensures var (target, r) := MatchTarget(e).value;
            target != "" && '>' !in target && e == LinkTo(lead, target, gap, r)
  {
    lead := SkipSpaceSplits(e);
    var s := SkipSpace(e);
    var after := TakeTarget(s).value.1;
    TakeTargetIs(s);
    ExpectIs(after, ";");
    var afterSemicolon := Expect(after, ";").value;
    gap := SkipSpaceSplits(afterSemicolon);
    ExpectIs(SkipSpace(afterSemicolon), "rel=");
  }

  lemma {:induction false} QuoteIsThere(r: string) returns (tail: string)
    requires TakeQuoted(r).Some?
    ensures var rel := TakeQuoted(r).value;
            rel != "" && '"' !in rel && r == Quoted(rel, tail)
  {
    var n := Until(r[1..], '"');
    tail := r[1..][n + 1..];
    assert r[1..] == r[1..][..n] + (['"'] + tail);
  }

  /** A quoted relation type is not a token. */
  lemma {:induction false} TokenIsNotQuoted(rel: string, tail: string)
    requires rel != "" && IsTokenChar(rel[0])
    ensures TakeQuoted(rel + tail).None?
  {}

  /** The element is a link to this target with this relation type if and only if it has one
    of the two forms. */
  lemma {:induction false} MatchIff(e: string, target: string, rel: string)
    ensures MatchElement(e) == Some((target, rel)) <==> IsQuotedLink(e, target, rel) || IsTokenLink(e, target, rel)
  {
    if MatchElement(e) == Some((target, rel)) {
      MatchIsLink(e, target, rel);
    }
    if lead, gap, tail :| IsQuoted(e, lead, target, gap, rel, tail) {
      MatchesQuotedLink(lead, target, gap, rel, tail);
    }
    if lead, gap, tail :| IsToken(e, lead, target, gap, rel, tail) {
      MatchesTokenLink(lead, target, gap, rel, tail);
    }
  }

  lemma {:induction false} MatchesTokenLink(lead: string, target: string, gap: string, rel: string, tail: string)
    requires AllSpace(lead) && AllSpace(gap) && target != "" && '>' !in target
    requires rel != "" && (forall i :: 0 <= i < |rel| ==> IsTokenChar(rel[i]))
    requires tail != "" ==> !IsTokenChar(tail[0])
    ensures MatchElement(TokenLink(lead, target, gap, rel, tail)) == Some((target, rel))
  {
    MatchTargetOf(lead, target, gap, rel + tail);
    TokenIsNotQuoted(rel, tail);
    TokenLengthOf(rel, tail);
    assert (rel + tail)[..|rel|] == rel;
  }

  lemma {:induction false} MatchIsLink(e: string, target: string, rel: string)
    requires MatchElement(e) == Some((target, rel))
    ensures IsQuotedLink(e, target, rel) || IsTokenLink(e, target, rel)
  {
    var lead, gap := TargetIsThere(e);
    var r := MatchTarget(e).value.1;
    if TakeQuoted(r).Some? {
      var tail := QuoteIsThere(r);
      QuotedLinkIs(lead, target, gap, rel, tail);
      assert IsQuoted(e, lead, target, gap, rel, tail);
    } else {
      var tail := TokenIsThere(r);
      assert IsToken(e, lead, target, gap, rel, tail);
    }
  }

  lemma {:induction false} TokenIsThere(r: string) returns (tail: string)
    requires TokenLength(r) > 0
    ensures var rel := r[..TokenLength(r)];
            && rel != "" && (forall i :: 0 <= i < |rel| ==> IsTokenChar(rel[i]))
            && (tail != "" ==> !IsTokenChar(tail[0])) && r == rel + tail
  {
    tail := r[TokenLength(r)..];
  }

  /** Where a link goes: `previous` is another name of `prev`, and other relations are dropped. */
  lemma {:induction false} RecordSays(links: Links, e: string)
    ensures var (after, m) := (Record(links, e), MatchElement(e));
            && (after.first == if m.Some? && m.value.1 == "first" then Some(m.value.0) else links.first)
            && (after.next == if m.Some? && m.value.1 == "next" then Some(m.value.0) else links.next)
            && (after.prev == if m.Some? && m.value.1 in ["prev", "previous"] then Some(m.value.0) else links.prev)
  {}

  /** An empty URL is the same as none in the header. */
  lemma {:induction false} EmptyIsNone(first: string, next: Option<string>, prev: Option<string>)
    ensures Header(Links(Some(first), Some(""), prev)) == Header(Links(Some(first), None, prev))
    ensures Header(Links(Some(first), next, Some(""))) == Header(Links(Some(first), next, None))
  {}
}
