/** The `Link` header of a page and the parser that clients use on it (section 3 of RFC 8288). */
module LinkHeader {
  import opened Wrappers
  import opened Text

  datatype Links = Links(first: Option<string>, next: Option<string>, prev: Option<string>)

  /** A character of an unquoted relation type. */
  predicate IsTokenChar(c: char) {
    || 'A' <= c <= 'Z' || 'a' <= c <= 'z' || '0' <= c <= '9' || c in "!#$%&'*+.^_`|~-"
  }

  // ---- Building the header

  function Element(url: string, rel: string): string {
    "<" + url + ">; rel=\"" + rel + "\""
  }

  function Header(links: Links): string
    requires links.first.Some?
  {
    Element(links.first.value, "first") + Suffix(links.next, "next") + Suffix(links.prev, "prev")
  }

  /** A missing or empty URL adds nothing. */
  function Suffix(url: Option<string>, rel: string): string {
    if url.Some? && url.value != "" then ", " + Element(url.value, rel) else ""
  }

  // ---- Parsing it

  /** How many characters come before the first `c`. */
  function Until(s: string, c: char): (n: nat)
    ensures n <= |s| && c !in s[..n] && (n < |s| ==> s[n] == c)
  {
    if s == "" || s[0] == c then 0 else 1 + Until(s[1..], c)
  }

  function TokenLength(s: string): (n: nat)
    ensures n <= |s| && (forall i :: 0 <= i < n ==> IsTokenChar(s[i])) && (n < |s| ==> !IsTokenChar(s[n]))
  {
    if s == "" || !IsTokenChar(s[0]) then 0 else 1 + TokenLength(s[1..])
  }

  function Expect(s: string, literal: string): Option<string> {
    if literal <= s then Some(s[|literal|..]) else None
  }

  /** `<target>`, and what follows it. */
  function TakeTarget(s: string): (m: Option<(string, string)>)
    ensures m.Some? ==> m.value.0 != "" && '>' !in m.value.0 && forall c :: c in m.value.0 ==> c in s
  {
    if s == "" || s[0] != '<' then None else
    var n := Until(s[1..], '>');
    if n == 0 || n == |s| - 1 then None else
    assert forall c :: c in s[1..][..n] ==> c in s;
    Some((s[1..][..n], s[1..][n + 1..]))
  }

  /** The part that both patterns share: a target, and what follows `rel=`. */
  function MatchTarget(element: string): (m: Option<(string, string)>)
    ensures m.Some? ==> m.value.0 != "" && '>' !in m.value.0 && forall c :: c in m.value.0 ==> c in element
  {
    var s := SkipSpace(element);
    SkipSpaceKeeps(element);
    var t := TakeTarget(s);
    if t.None? then None else
    var semicolon := Expect(t.value.1, ";");
    if semicolon.None? then None else
    var r := Expect(SkipSpace(semicolon.value), "rel=");
    if r.None? then None else Some((t.value.0, r.value))
  }

  /** A relation type between quotes. */
  function TakeQuoted(r: string): Option<string> {
    if r == "" || r[0] != '"' then None else
    var n := Until(r[1..], '"');
    if n == 0 || n == |r| - 1 then None else Some(r[1..][..n])
  }

  function MatchElement(element: string): (m: Option<(string, string)>)
    ensures m.Some? ==> m.value.0 != "" && '>' !in m.value.0 && (',' in m.value.0 ==> ',' in element)
  {
    var t := MatchTarget(element);
    if t.None? then None else
    var (target, r) := t.value;
    if TakeQuoted(r).Some? then Some((target, TakeQuoted(r).value))
    else if TokenLength(r) > 0 then Some((target, r[..TokenLength(r)])) else None
  }

  function RecordMatch(links: Links, rel: string, target: string): Links {
    if rel == "first" then links.(first := Some(target))
    else if rel == "next" then links.(next := Some(target))
    else if rel == "prev" || rel == "previous" then links.(prev := Some(target))
    else links
  }

  function Record(links: Links, element: string): Links {
    var m := MatchElement(element);
    if m.None? then links else RecordMatch(links, m.value.1, m.value.0)
  }

  function RecordAll(links: Links, elements: seq<string>): Links {
    if elements == [] then links
    else Record(RecordAll(links, elements[..|elements| - 1]), elements[|elements| - 1])
  }

  lemma {:induction false} RecordOneMore(links: Links, elements: seq<string>, element: string)
    ensures RecordAll(links, elements + [element]) == Record(RecordAll(links, elements), element)
  {}

  method FromHeader(header: Option<string>) returns (links: Links)
    ensures links == RecordAll(Links(None, None, None), if header.Some? then Split(header.value, ',') else [])
  {
    links := Links(None, None, None);
    if header.Some? && header.value != "" {
      var elements := Split(header.value, ',');
      for i := 0 to |elements|
        invariant links == RecordAll(Links(None, None, None), elements[..i])
      {
        RecordOneMore(Links(None, None, None), elements[..i], elements[i]);
        assert elements[..i] + [elements[i]] == elements[..i + 1];
        var m := MatchElement(elements[i]);
        if m.Some? {
          var (target, rel) := m.value;
          if rel == "prev" || rel == "previous" {
            links := links.(prev := Some(target));
          } else if rel == "next" {
            links := links.(next := Some(target));
          } else if rel == "first" {
            links := links.(first := Some(target));
          }
        }
      }
      assert elements[..|elements|] == elements;
    } else if header.Some? {
      RecordOneMore(links, [], "");
      assert [] + [""] == [""];
    }
  }

  // ---- The pattern, declaratively

  /** Any text that the pattern with a quoted relation type describes. */
  function QuotedLink(lead: string, target: string, gap: string, rel: string, tail: string): string {
    lead + (['<'] + (target + (['>'] + (";" + (gap + ("rel=" + (['"'] + (rel + (['"'] + tail)))))))))
  }

  lemma {:induction false} SkipSpaceOf(lead: string, s: string)
    requires AllSpace(lead)
    requires s != "" && !IsSpace(s[0])
    ensures SkipSpace(lead + s) == s
  {
    if lead == "" {
      assert lead + s == s;
    } else {
      assert (lead + s)[1..] == lead[1..] + s;
      SkipSpaceOf(lead[1..], s);
    }
  }

  lemma {:induction false} UntilOf(s: string, c: char, rest: string)
    requires c !in s && rest != "" && rest[0] == c
    ensures Until(s + rest, c) == |s|
  {
    if s == "" {
      assert s + rest == rest;
    } else {
      assert (s + rest)[1..] == s[1..] + rest;
      UntilOf(s[1..], c, rest);
    }
  }

  lemma {:induction false} ExpectOf(literal: string, rest: string)
    ensures Expect(literal + rest, literal) == Some(rest)
  {}

  lemma {:induction false} TakeTargetOf(target: string, rest: string)
    requires target != "" && '>' !in target
    ensures TakeTarget(['<'] + (target + (['>'] + rest))) == Some((target, rest))
  {
    var s := ['<'] + (target + (['>'] + rest));
    assert s[1..] == target + (['>'] + rest);
    UntilOf(target, '>', ['>'] + rest);
    assert s[1..][..|target|] == target && s[1..][|target| + 1..] == rest;
  }

  lemma {:induction false} TakeQuotedOf(rel: string, tail: string)
    requires rel != "" && '"' !in rel
    ensures TakeQuoted(['"'] + (rel + (['"'] + tail))) == Some(rel)
  {
    var r := ['"'] + (rel + (['"'] + tail));
    assert r[1..] == rel + (['"'] + tail);
    UntilOf(rel, '"', ['"'] + tail);
    assert r[1..][..|rel|] == rel;
  }

  /** The matcher finds what the pattern describes, so there is only one way to match. */
  lemma {:induction false} MatchesQuotedLink(lead: string, target: string, gap: string, rel: string, tail: string)
    requires AllSpace(lead) && AllSpace(gap)
    requires target != "" && '>' !in target && rel != "" && '"' !in rel
    ensures MatchElement(QuotedLink(lead, target, gap, rel, tail)) == Some((target, rel))
  {
    var r := ['"'] + (rel + (['"'] + tail));
    var afterGap := "rel=" + r;
    var afterTarget := ";" + (gap + afterGap);
    var s := ['<'] + (target + (['>'] + afterTarget));
    SkipSpaceOf(lead, s);
    TakeTargetOf(target, afterTarget);
    ExpectOf(";", gap + afterGap);
    SkipSpaceOf(gap, afterGap);
    ExpectOf("rel=", r);
    TakeQuotedOf(rel, tail);
  }

  // ---- Round trip

  /** What a URL must be like to survive. */
  predicate Clean(url: Option<string>) {
    url.Some? ==> url.value != "" && ',' !in url.value && '>' !in url.value
  }

  lemma {:induction false} RecordsElement(links: Links, lead: string, url: string, rel: string)
    requires lead == "" || lead == " "
    requires url != "" && '>' !in url
    requires rel == "first" || rel == "next" || rel == "prev"
    ensures Record(links, lead + Element(url, rel)) == RecordMatch(links, rel, url)
  {
    ElementIsQuotedLink(lead, url, rel);
    MatchesQuotedLink(lead, url, " ", rel, "");
  }

  lemma {:induction false} ElementIsQuotedLink(lead: string, url: string, rel: string)
    ensures lead + Element(url, rel) == QuotedLink(lead, url, " ", rel, "")
  {}

  /** What the next elements add to the header, and how they read once it is split. */
  function Part(url: Option<string>, rel: string): seq<string> {
    if url.Some? then [" " + Element(url.value, rel)] else []
  }

  lemma {:induction false} SplitSuffix(front: string, url: Option<string>, rel: string, rest: string)
    requires ',' !in front && Clean(url)
    requires url.None? || rest == "" || rest[0] == ','
    requires url.Some? ==> ',' !in Part(url, rel)[0]
    ensures Split(front + (Suffix(url, rel) + rest), ',') ==
            if url.None? then Split(front + rest, ',') else [front] + Split(Part(url, rel)[0] + rest, ',')
  {
    if url.Some? {
      var x := Part(url, rel)[0];
      CommaFirst(Element(url.value, rel), rest);
      SplitFirst(front, ',', x + rest);
    } else {
      assert Suffix(url, rel) + rest == rest;
    }
  }

  lemma {:induction false} CommaFirst(element: string, rest: string)
    ensures ", " + element + rest == [','] + ((" " + element) + rest)
  {}

  lemma {:induction false} CleanElement(url: Option<string>, rel: string)
    requires Clean(url) && ',' !in rel
    ensures url.Some? ==> ',' !in Element(url.value, rel) && ',' !in Part(url, rel)[0]
  {}

  lemma {:induction false} HeaderSplits(links: Links)
    requires links.first.Some? && Clean(links.first) && Clean(links.next) && Clean(links.prev)
    ensures Split(Header(links), ',') ==
            [Element(links.first.value, "first")] + Part(links.next, "next") + Part(links.prev, "prev")
  {
    var a := Element(links.first.value, "first");
    var b, c := Suffix(links.next, "next"), Suffix(links.prev, "prev");
    CleanElement(links.first, "first");
    CleanElement(links.next, "next");
    CleanElement(links.prev, "prev");
    assert a + b + c == a + (b + c);
    SplitSuffix(a, links.next, "next", c);
    var last := if links.next.Some? then Part(links.next, "next")[0] else a;
    assert last + c == last + (c + "");
    SplitSuffix(last, links.prev, "prev", "");
    SplitOne(last, ',');
    assert last + "" == last;
    if links.prev.Some? {
      SplitOne(Part(links.prev, "prev")[0], ',');
      assert Part(links.prev, "prev")[0] + "" == Part(links.prev, "prev")[0];
    }
  }

  ghost predicate AllClean(links: Links) {
    Clean(links.first) && Clean(links.next) && Clean(links.prev)
  }

  lemma {:induction false} RecordKeepsClean(links: Links, element: string)
    requires AllClean(links) && ',' !in element
    ensures AllClean(Record(links, element))
  {}

  lemma {:induction false} ParsedUrlsAreClean(elements: seq<string>)
    requires forall i :: 0 <= i < |elements| ==> ',' !in elements[i]
    ensures AllClean(RecordAll(Links(None, None, None), elements))
  {
    if elements != [] {
      var front, e := elements[..|elements| - 1], elements[|elements| - 1];
      ParsedUrlsAreClean(front);
      RecordKeepsClean(RecordAll(Links(None, None, None), front), e);
    }
  }

  lemma {:induction false} RecordsPart(elements: seq<string>, url: Option<string>, rel: string)
    requires url.Some? ==> url.value != "" && '>' !in url.value
    requires rel == "next" || rel == "prev"
    ensures var before := RecordAll(Links(None, None, None), elements);
            RecordAll(Links(None, None, None), elements + Part(url, rel)) ==
            if url.Some? then RecordMatch(before, rel, url.value) else before
  {
    var none := Links(None, None, None);
    if url.Some? {
      RecordOneMore(none, elements, " " + Element(url.value, rel));
      RecordsElement(RecordAll(none, elements), " ", url.value, rel);
    } else {
      assert elements + [] == elements;
    }
  }

  /** Parsing the header of a page gives back its URLs if and only if each URL is nonempty
    and has neither a comma nor a closing angle bracket in it. */
  lemma {:induction false} HeaderRoundTrip(links: Links)
    requires links.first.Some?
    ensures RecordAll(Links(None, None, None), Split(Header(links), ',')) == links
            <==> Clean(links.first) && Clean(links.next) && Clean(links.prev)
  {
    var none := Links(None, None, None);
    SplitHasNone(Header(links), ',');
    ParsedUrlsAreClean(Split(Header(links), ','));
    if AllClean(links) {
      HeaderSplits(links);
      var a := Element(links.first.value, "first");
      assert "" + a == a && [] + [a] == [a];
      RecordOneMore(none, [], a);
      RecordsElement(none, "", links.first.value, "first");
      RecordsPart([a], links.next, "next");
      RecordsPart([a] + Part(links.next, "next"), links.prev, "prev");
    }
  }
}
