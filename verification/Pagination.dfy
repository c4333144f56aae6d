/** Keyset pagination: pages are cut out of the sorted table by a filter on the sort
  key, an order and a limit, and are proved to be slices of the sorted table. */
module Pagination {
  import opened Wrappers

  /** The columns that `DatetimeIdCursor` sorts by; they identify the row. */
  datatype Row = Row(time: int, id: int)

  datatype Cursor = Cursor(previous: bool, time: int, id: int)

  datatype Page = Page(entries: seq<Row>, next: Option<Cursor>, prev: Option<Cursor>)

  // ---- Order

  /** Newest first, then highest id first. */
  predicate Before(a: Row, b: Row) {
    a.time > b.time || (a.time == b.time && a.id > b.id)
  }

  ghost predicate StrictlySorted(s: seq<Row>) {
    forall i, j :: 0 <= i < j < |s| ==> Before(s[i], s[j])
  }

  ghost predicate IsFirst(r: Row, rows: set<Row>) {
    r in rows && forall o :: o in rows && o != r ==> Before(r, o)
  }

  ghost predicate AllBefore(front: set<Row>, back: set<Row>) {
    forall a, b :: a in front && b in back ==> Before(a, b)
  }

  lemma {:induction false} HasFirst(rows: set<Row>)
    requires rows != {}
    ensures exists r :: IsFirst(r, rows)
    decreases |rows|
  {
    var r :| r in rows;
    var others := rows - {r};
    if others == {} {
      assert rows == {r};
      assert IsFirst(r, rows);
    } else {
      HasFirst(others);
      var f :| IsFirst(f, others);
      var first := if Before(f, r) then f else r;
      forall o | o in rows && o != first
        ensures Before(first, o)
      {
        assert o == r || o in others;
      }
      assert IsFirst(first, rows);
    }
  }

  function First(rows: set<Row>): (r: Row)
    requires rows != {}
    ensures r in rows
  {
    HasFirst(rows);
    assert forall r :: r in rows && (forall o :: o in rows && o != r ==> Before(r, o)) <==> IsFirst(r, rows);
    var r :| r in rows && forall o :: o in rows && o != r ==> Before(r, o);
    r
  }

  lemma {:induction false} FirstIsFirst(rows: set<Row>)
    requires rows != {}
    ensures IsFirst(First(rows), rows)
  {
    HasFirst(rows);
    assert forall r :: r in rows && (forall o :: o in rows && o != r ==> Before(r, o)) <==> IsFirst(r, rows);
  }

  /** What the database returns for the rows in descending order. */
  function Sorted(rows: set<Row>): (s: seq<Row>)
    ensures |s| == |rows|
    decreases |rows|
  {
    if rows == {} then [] else [First(rows)] + Sorted(rows - {First(rows)})
  }

  lemma {:induction false} SortedHas(rows: set<Row>, r: Row)
    requires r in rows
    ensures r in Sorted(rows)
    decreases |rows|
  {
    if r != First(rows) {
      SortedHas(rows - {First(rows)}, r);
    }
  }

  lemma {:induction false} SortedIn(rows: set<Row>, i: nat)
    requires i < |rows|
    ensures Sorted(rows)[i] in rows
    decreases |rows|
  {
    if i > 0 {
      SortedIn(rows - {First(rows)}, i - 1);
    }
  }

  lemma {:induction false} SortedOrder(rows: set<Row>)
    ensures StrictlySorted(Sorted(rows))
    decreases |rows|
  {
    if rows != {} {
      var f, others := First(rows), rows - {First(rows)};
      FirstIsFirst(rows);
      SortedOrder(others);
      forall i | 0 <= i < |others| ensures Before(f, Sorted(others)[i]) {
        SortedIn(others, i);
      }
      PrependSorted(f, Sorted(others));
    }
  }

  /** The sorted rows are sorted, and they are the rows. */
  lemma {:induction false} SortedIsSorted(rows: set<Row>)
    ensures StrictlySorted(Sorted(rows))
    ensures var s := Sorted(rows);
            forall i, j :: 0 <= i < j < |s| ==>
                             s[i].time > s[j].time || (s[i].time == s[j].time && s[i].id > s[j].id)
    ensures forall i :: 0 <= i < |rows| ==> Sorted(rows)[i] in rows
    ensures forall r :: r in rows ==> r in Sorted(rows)
  {
    SortedOrder(rows);
    forall i | 0 <= i < |rows| ensures Sorted(rows)[i] in rows {
      SortedIn(rows, i);
    }
    forall r | r in rows ensures r in Sorted(rows) {
      SortedHas(rows, r);
    }
  }

  lemma {:induction false} PrependSorted(f: Row, rest: seq<Row>)
    requires StrictlySorted(rest) && forall i :: 0 <= i < |rest| ==> Before(f, rest[i])
    ensures StrictlySorted([f] + rest)
  {}

  function Reverse(s: seq<Row>): (r: seq<Row>)
    ensures |r| == |s|
  {
    if s == [] then [] else Reverse(s[1..]) + [s[0]]
  }

  lemma {:induction false} ReverseElements(s: seq<Row>)
    ensures forall i :: 0 <= i < |s| ==> Reverse(s)[i] == s[|s| - 1 - i]
  {
    if s != [] {
      ReverseElements(s[1..]);
    }
  }

  lemma {:induction false} FirstOfBlocks(front: set<Row>, back: set<Row>)
    requires front != {} && AllBefore(front, back)
    ensures First(front + back) == First(front) && First(front) !in back
  {}

  /** Rows that all sort before the others come first, as a block. */
  lemma {:induction false} SortedSplit(front: set<Row>, back: set<Row>)
    requires AllBefore(front, back)
    ensures Sorted(front + back) == Sorted(front) + Sorted(back)
    decreases |front|
  {
    if front == {} {
      assert front + back == back;
    } else {
      var f, all := First(front), front + back;
      FirstOfBlocks(front, back);
      assert all - {f} == (front - {f}) + back;
      SortedSplit(front - {f}, back);
      ConcatAssoc([f], Sorted(front - {f}), Sorted(back));
    }
  }

  lemma {:induction false} ConcatAssoc(x: seq<Row>, y: seq<Row>, z: seq<Row>)
    ensures x + (y + z) == x + y + z
  {}

  // ---- Cursors

  /** Forward cursors include the row they were made from, reverse ones exclude it. */
  function FromEntry(r: Row, reverse: bool): Cursor { Cursor(reverse, r.time, r.id) }

  function Invert(c: Cursor): Cursor { c.(previous := !c.previous) }

  /** The restriction that `apply_cursor` adds. */
  predicate Admits(c: Cursor, r: Row) {
    if c.previous then r.time > c.time || (r.time == c.time && r.id > c.id)
    else r.time < c.time || (r.time == c.time && r.id <= c.id)
  }

  function Where(table: set<Row>, c: Cursor): set<Row> {
    set r | r in table && Admits(c, r)
  }

  function OrderBy(rows: set<Row>, reverse: bool): seq<Row> {
    if reverse then Reverse(Sorted(rows)) else Sorted(rows)
  }

  function Limit(rows: seq<Row>, count: nat): seq<Row> {
    if |rows| <= count then rows else rows[..count]
  }

  // ---- The reference: slices of the sorted table

  /** How many rows sort before the cursor, whichever way it points. */
  function Position(table: set<Row>, c: Cursor): nat {
    |Where(table, c.(previous := true))|
  }

  /** A missing limit and the limit 0 both mean no limit. */
  function Bound(limit: Option<nat>, available: nat): nat {
    if limit.Some? && 0 < limit.value < available then limit.value else available
  }

  /** The first of the rows that follow the cursor. */
  function ForwardPage(rest: seq<Row>, limit: Option<nat>, prev: Option<Cursor>): Page {
    var n := Bound(limit, |rest|);
    Page(rest[..n], if n < |rest| then Some(FromEntry(rest[n], false)) else None, prev)
  }

  /** The last of the rows in front of the cursor. */
  function BackwardPage(front: seq<Row>, limit: Option<nat>, next: Cursor): Page {
    var k := |front| - Bound(limit, |front|);
    Page(front[k..], Some(next), if 0 < k then Some(FromEntry(front[k], true)) else None)
  }

  lemma {:induction false} PositionInTable(table: set<Row>, c: Cursor)
    ensures Position(table, c) <= |table|
  {
    var before := Where(table, c.(previous := true));
    assert table == before + (table - before);
  }

  function PageOf(table: set<Row>, cursor: Option<Cursor>, limit: Option<nat>): Page {
    match cursor
    case None => ForwardPage(Sorted(table), limit, None)
    case Some(c) =>
      PositionInTable(table, c);
      if c.previous then BackwardPage(Sorted(table)[..Position(table, c)], limit, Invert(c))
      else ForwardPage(Sorted(table)[Position(table, c)..], limit, Some(Invert(c)))
  }

  lemma {:induction false} WhereSplits(table: set<Row>, c: Cursor)
    ensures var front, back := Where(table, c.(previous := true)), Where(table, c.(previous := false));
            table == front + back && AllBefore(front, back)
  {}

  /** A cursor and its inverse share out the table, in order. */
  lemma {:induction false} CursorSplits(table: set<Row>, c: Cursor)
    ensures var p := Position(table, c);
            && p <= |table|
            && Sorted(Where(table, c.(previous := true))) == Sorted(table)[..p]
            && Sorted(Where(table, c.(previous := false))) == Sorted(table)[p..]
  {
    WhereSplits(table, c);
    var front, back := Where(table, c.(previous := true)), Where(table, c.(previous := false));
    SortedSplit(front, back);
    TakeDrop(Sorted(front), Sorted(back));
  }

  lemma {:induction false} TakeDrop(x: seq<Row>, y: seq<Row>)
    ensures (x + y)[..|x|] == x && (x + y)[|x|..] == y
  {}

  /** The rows that the cursor admits, in order; all without a cursor. */
  function Rest(table: set<Row>, cursor: Option<Cursor>): seq<Row> {
    Sorted(if cursor.None? then table else Where(table, cursor.value))
  }

  // ---- The query

  method FullQuery(table: set<Row>) returns (page: Page)
    ensures page == Page(Sorted(table), None, None)
  {
    page := Page(OrderBy(table, false), None, None);
  }

  lemma {:induction false} ReverseTake(s: seq<Row>, n: nat)
    requires n <= |s|
    ensures Reverse(Reverse(s)[..n]) == s[|s| - n..]
  {
    ReverseElements(s);
    ReverseElements(Reverse(s)[..n]);
  }

  /** One row more than the limit shows whether there are any. */
  lemma {:induction false} ReverseLimit(s: seq<Row>, n: nat)
    requires n > 0
    ensures var rows := Limit(Reverse(s), n + 1);
            && (|rows| > n <==> |s| > n)
            && (|s| > n ==> rows[n - 1] == s[|s| - n] && rows[..n] == Reverse(s)[..n])
            && (|s| <= n ==> rows == Reverse(s)[..|s|])
  {
    ReverseElements(s);
  }

  /** The page as the query makes it, out of the rows that the cursor admits. */
  function CutPage(table: set<Row>, cursor: Option<Cursor>, limit: Option<nat>): Page {
    var rest := Rest(table, cursor);
    if cursor.None? then ForwardPage(rest, limit, None)
    else if cursor.value.previous then BackwardPage(rest, limit, Invert(cursor.value))
    else ForwardPage(rest, limit, Some(Invert(cursor.value)))
  }

  /** The body of `_paginated_query`: filter, order, one row more than the limit, maybe
    reverse. */
  method RunQuery(table: set<Row>, cursor: Option<Cursor>, limit: Option<nat>) returns (page: Page)
    ensures page == CutPage(table, cursor, limit)
  {
    var rows := table;
    if cursor.Some? {
      rows := Where(rows, cursor.value);
    }
    var backward := cursor.Some? && cursor.value.previous;
    ghost var matching := Sorted(rows);
    ghost var n := Bound(limit, |matching|);
    var entries := OrderBy(rows, backward);
    var limited := limit.Some? && limit.value > 0;
    if limited {
      entries := Limit(entries, limit.value + 1);
    }
    var prev: Option<Cursor>, next: Option<Cursor> := None, None;
    if backward {
      next := Some(Invert(cursor.value));
      if limited && |entries| > limit.value {
        prev := Some(FromEntry(entries[limit.value - 1], true));
        entries := entries[..limit.value];
      }
      if limited {
        ReverseLimit(matching, limit.value);
      }
      assert entries == Reverse(matching)[..n];
      ReverseTake(matching, n);
      entries := Reverse(entries);
      assert prev == if n < |matching| then Some(FromEntry(matching[|matching| - n], true)) else None;
      assert Page(entries, next, prev) == BackwardPage(matching, limit, next.value);
    } else {
      if cursor.Some? {
        prev := Some(Invert(cursor.value));
      }
      if limited && |entries| > limit.value {
        next := Some(FromEntry(entries[limit.value], false));
        entries := entries[..limit.value];
      }
      assert entries == matching[..n];
      assert Page(entries, next, prev) == ForwardPage(matching, limit, prev);
    }
    page := Page(entries, next, prev);
  }

  /** `_paginated_query` gives a slice of the sorted table. */
  method PaginatedQuery(table: set<Row>, cursor: Option<Cursor>, limit: Option<nat>) returns (page: Page)
    ensures page == PageOf(table, cursor, limit)
  {
    page := RunQuery(table, cursor, limit);
    PageIsCut(table, cursor, limit);
  }

  /** What is cut for the page are the rows that the cursor admits. */
  lemma {:induction false} PageIsCut(table: set<Row>, cursor: Option<Cursor>, limit: Option<nat>)
    ensures PageOf(table, cursor, limit) == CutPage(table, cursor, limit)
  {
    if cursor.Some? {
      CursorSplits(table, cursor.value);
      assert cursor.value.(previous := cursor.value.previous) == cursor.value;
    }
  }

  predicate Unlimited(limit: Option<nat>) { limit.None? || limit.value == 0 }

  /** How many rows are shown: all that the cursor admits, or as many as the limit allows. */
  lemma {:induction false} PageSize(table: set<Row>, cursor: Option<Cursor>, limit: Option<nat>)
    ensures var shown, rest := |PageOf(table, cursor, limit).entries|, |Rest(table, cursor)|;
            && shown <= rest
            && (Unlimited(limit) ==> shown == rest)
            && (!Unlimited(limit) ==> shown <= limit.value && (shown == rest || shown == limit.value))
  {
    PageIsCut(table, cursor, limit);
  }

  /** What a page shows that was not reached by a previous cursor: the first rows admitted.
    It names the row that comes next, if any. */
  lemma {:induction false} ForwardContents(table: set<Row>, cursor: Option<Cursor>, limit: Option<nat>)
    requires cursor.Some? ==> !cursor.value.previous
    ensures var page, rest := PageOf(table, cursor, limit), Rest(table, cursor);
            var n := |page.entries|;
            && n <= |rest| && page.entries == rest[..n]
            && (page.next == if n == |rest| then None else Some(Cursor(false, rest[n].time, rest[n].id)))
            && (page.prev == if cursor.None? then None else Some(Cursor(true, cursor.value.time, cursor.value.id)))
  {
    PageIsCut(table, cursor, limit);
  }

  /** One that was: the last rows admitted. It names its own first row, if any precedes it. */
  lemma {:induction false} BackwardContents(table: set<Row>, c: Cursor, limit: Option<nat>)
    requires c.previous
    ensures var page, rest := PageOf(table, Some(c), limit), Rest(table, Some(c));
            var k := |rest| - |page.entries|;
            && k >= 0 && page.entries == rest[k..] && (k > 0 ==> k < |rest|)
            && page.next == Some(Cursor(false, c.time, c.id))
            && (page.prev == if k == 0 then None else Some(Cursor(true, rest[k].time, rest[k].id)))
  {
    PageIsCut(table, Some(c), limit);
  }

  /** `query_row` and `query_object`: without cursor and limit, or with the limit 0 and
    no cursor, the whole table. */
  method Query(table: set<Row>, cursor: Option<Cursor>, limit: Option<nat>) returns (page: Page)
    ensures page == PageOf(table, cursor, limit)
    ensures cursor.None? && Unlimited(limit) ==> page == Page(Sorted(table), None, None)
    ensures var rest := |Rest(table, cursor)|;
            |page.entries| == if Unlimited(limit) || rest < limit.value then rest else limit.value
  {
    PageSize(table, cursor, limit);
    if cursor.Some? || (limit.Some? && limit.value > 0) {
      page := PaginatedQuery(table, cursor, limit);
    } else {
      page := FullQuery(table);
    }
  }

  // ---- Going back and forth

  lemma {:induction false} InOrder(table: set<Row>, i: nat, j: nat)
    requires i < j < |table|
    ensures Before(Sorted(table)[i], Sorted(table)[j])
  {
    SortedIsSorted(table);
  }

  /** The rows in front of a cursor are those that its reverse form admits. */
  lemma {:induction false} SideOfCursor(table: set<Row>, c: Cursor, i: nat)
    requires i < |table|
    ensures i < Position(table, c) <==> Admits(c.(previous := true), Sorted(table)[i])
  {
    CursorSplits(table, c);
    var p := Position(table, c);
    if i < p {
      SortedIsSorted(Where(table, c.(previous := true)));
      assert Sorted(table)[i] == Sorted(table)[..p][i];
    } else {
      SortedIsSorted(Where(table, c.(previous := false)));
      assert Sorted(table)[i] == Sorted(table)[p..][i - p];
    }
  }

  /** A cursor made from the k-th row has exactly the k rows in front of it. */
  lemma {:induction false} PositionOfRow(table: set<Row>, k: nat, c: Cursor)
    requires k < |table| && Sorted(table)[k] == Row(c.time, c.id)
    ensures Position(table, c) == k
  {
    assert Position(table, c) <= k by {
      SideOfCursor(table, c, k);
    }
    if k > 0 {
      InOrder(table, k - 1, k);
      SideOfCursor(table, c, k - 1);
    }
  }

  /** Following `next` and then `prev` shows the same entries again, and from a page that was
    itself reached backward, the very same page. */
  lemma {:induction false} NextThenPrev(table: set<Row>, cursor: Option<Cursor>, limit: Option<nat>)
    requires PageOf(table, cursor, limit).next.Some?
    ensures var page := PageOf(table, cursor, limit);
            var second := PageOf(table, page.next, limit);
            var again := PageOf(table, second.prev, limit);
            && second.prev.Some?
            && again.entries == page.entries && again.next == page.next
            && (cursor.Some? && cursor.value.previous ==> again == page)
  {
    if cursor.None? || !cursor.value.previous {
      if cursor.Some? {
        PositionInTable(table, cursor.value);
      }
      var from := if cursor.None? then 0 else Position(table, cursor.value);
      var c := PageOf(table, cursor, limit).next.value;
      PositionOfRow(table, from + limit.value, c);
      PositionOfRow(table, from + limit.value, Invert(c));
    }
  }

  /** Following `prev` and then `next` shows the same entries again, and from a page that was
    itself reached forward, the very same page. */
  lemma {:induction false} PrevThenNext(table: set<Row>, cursor: Option<Cursor>, limit: Option<nat>)
    requires PageOf(table, cursor, limit).prev.Some?
    ensures var page := PageOf(table, cursor, limit);
            var second := PageOf(table, page.prev, limit);
            var again := PageOf(table, second.next, limit);
            && second.next.Some?
            && again.entries == page.entries && again.prev == page.prev
            && (cursor.Some? && !cursor.value.previous ==> again == page)
  {
    var c := cursor.value;
    if c.previous {
      PositionInTable(table, c);
      var to := Position(table, c);
      var b := PageOf(table, cursor, limit).prev.value;
      PositionOfRow(table, to - limit.value, b);
      PositionOfRow(table, to - limit.value, Invert(b));
    }
  }

  /** On a page reached by a forward cursor, `prev` is set if and only if there was a
    cursor, so it tells whether rows precede the page exactly when no cursor was given
    or some row sorts before the cursor. */
  lemma {:induction false} ForwardPrevCursor(table: set<Row>, cursor: Option<Cursor>, limit: Option<nat>)
    requires cursor.Some? ==> !cursor.value.previous
    ensures var page := PageOf(table, cursor, limit);
            var preceded := exists r :: r in table && !After(cursor, r);
            (page.prev.Some? <==> preceded) <==> (cursor.None? || preceded)
  {}

  /** A cursor with nothing before it, on any table: `prev` is set, and leads to an empty page. */
  lemma {:induction false} ForwardPrevCursorFails(table: set<Row>, c: Cursor, limit: Option<nat>)
    requires !c.previous && forall r :: r in table ==> Admits(c, r)
    ensures var page := PageOf(table, Some(c), limit);
            page.prev.Some? && PageOf(table, page.prev, limit).entries == []
  {
    assert Where(table, c.(previous := true)) == {};
  }

  /** On a page reached by a reverse cursor, `prev` is set if and only if rows precede it. */
  lemma {:induction false} BackwardPrevCursor(table: set<Row>, c: Cursor, limit: Option<nat>)
    requires c.previous
    ensures var page := PageOf(table, Some(c), limit);
            page.prev.Some? <==> exists r :: r in table && Admits(c, r) && r !in page.entries
  {
    CursorSplits(table, c);
    SortedIsSorted(Where(table, c));
    var front := Sorted(Where(table, c));
    var page := PageOf(table, Some(c), limit);
    var k := |front| - Bound(limit, |front|);
    assert c.(previous := true) == c;
    assert page.entries == front[k..];
    if k > 0 {
      assert front[0] !in page.entries;
      assert front[0] in table && Admits(c, front[0]);
    } else {
      assert page.entries == front;
    }
  }

  // ---- Walking a table that may change between the pages

  /** Whether the row is at or after a forward cursor; no cursor means the beginning. */
  predicate After(cursor: Option<Cursor>, r: Row) {
    cursor.Some? ==> Admits(cursor.value, r)
  }

  /** Page by page along `next`; page k sees the table as it is at that moment. */
  function Walk(tables: seq<set<Row>>, cursor: Option<Cursor>, limit: Option<nat>): (pages: seq<Page>)
    ensures |pages| <= |tables|
    decreases |tables|
  {
    if tables == [] then [] else
    var page := PageOf(tables[0], cursor, limit);
    [page] + if page.next.Some? then Walk(tables[1..], page.next, limit) else []
  }

  function Entries(pages: seq<Page>): seq<Row> {
    if pages == [] then [] else pages[0].entries + Entries(pages[1..])
  }

  ghost predicate Complete(pages: seq<Page>) {
    pages != [] && pages[|pages| - 1].next.None?
  }

  lemma {:induction false} ForwardIsCut(table: set<Row>, cursor: Option<Cursor>, limit: Option<nat>)
    requires cursor.Some? ==> !cursor.value.previous
    ensures var page := PageOf(table, cursor, limit);
            page == ForwardPage(Rest(table, cursor), limit, page.prev)
  {
    PageIsCut(table, cursor, limit);
  }

  lemma {:induction false} RestFacts(table: set<Row>, cursor: Option<Cursor>)
    ensures StrictlySorted(Rest(table, cursor))
    ensures forall i :: 0 <= i < |Rest(table, cursor)| ==>
                          Rest(table, cursor)[i] in table && After(cursor, Rest(table, cursor)[i])
    ensures forall r :: r in table && After(cursor, r) ==> r in Rest(table, cursor)
  {
    SortedIsSorted(if cursor.None? then table else Where(table, cursor.value));
  }

  /** One forward page: in order, from the cursor on, and in front of `next`. */
  lemma {:induction false} ForwardPageInOrder(table: set<Row>, cursor: Option<Cursor>, limit: Option<nat>)
    requires cursor.Some? ==> !cursor.value.previous
    ensures var page := PageOf(table, cursor, limit);
            && StrictlySorted(page.entries)
            && (forall i :: 0 <= i < |page.entries| ==> page.entries[i] in table && After(cursor, page.entries[i]))
            && (page.next.Some? ==>
                  var bound := Row(page.next.value.time, page.next.value.id);
                  && !page.next.value.previous && After(cursor, bound)
                  && forall i :: 0 <= i < |page.entries| ==> Before(page.entries[i], bound))
  {
    ForwardIsCut(table, cursor, limit);
    RestFacts(table, cursor);
  }

  /** A forward page leaves nothing out before `next`. */
  lemma {:induction false} ForwardPageShows(table: set<Row>, cursor: Option<Cursor>, limit: Option<nat>, r: Row)
    requires cursor.Some? ==> !cursor.value.previous
    requires r in table && After(cursor, r)
    ensures var page := PageOf(table, cursor, limit);
            r in page.entries || (page.next.Some? && !page.next.value.previous && After(page.next, r))
  {
    ForwardIsCut(table, cursor, limit);
    RestFacts(table, cursor);
    var rest := Rest(table, cursor);
    var entries := PageOf(table, cursor, limit).entries;
    var i :| 0 <= i < |rest| && rest[i] == r;
    if i < |entries| {
      assert entries[i] == r;
    } else {
      assert i == |entries| || Before(rest[|entries|], rest[i]);
    }
  }

  /** The `next` cursor leads to the rows that the page has left over. */
  lemma {:induction false} NextIsCut(table: set<Row>, cursor: Option<Cursor>, limit: Option<nat>)
    requires cursor.Some? ==> !cursor.value.previous
    requires PageOf(table, cursor, limit).next.Some?
    ensures var page, rest := PageOf(table, cursor, limit), Rest(table, cursor);
            |page.entries| <= |rest| && Rest(table, page.next) == rest[|page.entries|..]
  {
    ForwardIsCut(table, cursor, limit);
    var page, rest := PageOf(table, cursor, limit), Rest(table, cursor);
    NextLeadsTo(table, cursor, |page.entries|, page.next.value);
  }

  /** A forward cursor made from a row that another one admits leads to the rows from it on. */
  lemma {:induction false} NextLeadsTo(table: set<Row>, cursor: Option<Cursor>, n: nat, next: Cursor)
    requires cursor.Some? ==> !cursor.value.previous
    requires n < |Rest(table, cursor)| && next == FromEntry(Rest(table, cursor)[n], false)
    ensures Rest(table, Some(next)) == Rest(table, cursor)[n..]
  {
    var from := RestIsSuffix(table, cursor);
    PositionOfRow(table, from + n, next);
    var to := RestIsSuffix(table, Some(next));
    DropDrop(Sorted(table), from, n);
  }

  lemma {:induction false} DropDrop(rows: seq<Row>, i: nat, j: nat)
    requires i + j <= |rows|
    ensures rows[i..][j..] == rows[i + j..]
  {}

  /** What follows a page is what its `next` cursor leads to. */
  lemma {:induction false} NextRest(table: set<Row>, cursor: Option<Cursor>, limit: Option<nat>)
    requires cursor.Some? ==> !cursor.value.previous
    ensures var page := PageOf(table, cursor, limit);
            Rest(table, cursor) == page.entries + if page.next.Some? then Rest(table, page.next) else []
  {
    ForwardIsCut(table, cursor, limit);
    var rest := Rest(table, cursor);
    var n := Bound(limit, |rest|);
    CutJoins(rest, n);
    if n < |rest| {
      NextIsCut(table, cursor, limit);
    }
  }

  lemma {:induction false} CutJoins(rows: seq<Row>, n: nat)
    requires n <= |rows|
    ensures rows == rows[..n] + rows[n..]
    ensures n == |rows| ==> rows == rows[..n] + []
  {}

  lemma {:induction false} RestIsSuffix(table: set<Row>, cursor: Option<Cursor>) returns (from: nat)
    requires cursor.Some? ==> !cursor.value.previous
    ensures from <= |table| && Rest(table, cursor) == Sorted(table)[from..]
    ensures cursor.Some? ==> from == Position(table, cursor.value)
  {
    from := 0;
    if cursor.Some? {
      CursorSplits(table, cursor.value);
      assert cursor.value.(previous := false) == cursor.value;
      from := Position(table, cursor.value);
    }
  }

  /** Whatever happens to the table, the walk shows rows in strictly descending order. */
  lemma {:induction false} WalkIsSorted(tables: seq<set<Row>>, cursor: Option<Cursor>, limit: Option<nat>)
    requires cursor.Some? ==> !cursor.value.previous
    ensures var rows := Entries(Walk(tables, cursor, limit));
            StrictlySorted(rows) && forall i :: 0 <= i < |rows| ==> After(cursor, rows[i])
    decreases |tables|
  {
    if tables != [] {
      var page := PageOf(tables[0], cursor, limit);
      ForwardPageInOrder(tables[0], cursor, limit);
      var later := if page.next.Some? then Walk(tables[1..], page.next, limit) else [];
      assert Walk(tables, cursor, limit)[1..] == later;
      if page.next.Some? {
        WalkIsSorted(tables[1..], page.next, limit);
        AppendSorted(page.entries, Entries(later), page.next.value);
      }
    }
  }

  lemma {:induction false} AppendSorted(front: seq<Row>, back: seq<Row>, c: Cursor)
    requires StrictlySorted(front) && StrictlySorted(back) && !c.previous
    requires forall i :: 0 <= i < |front| ==> Before(front[i], Row(c.time, c.id))
    requires forall i :: 0 <= i < |back| ==> Admits(c, back[i])
    ensures StrictlySorted(front + back)
  {}

  /** A row that stays in the table is shown, once the walk has come to its end. */
  lemma {:induction false} WalkShows(tables: seq<set<Row>>, cursor: Option<Cursor>, limit: Option<nat>, r: Row)
    requires cursor.Some? ==> !cursor.value.previous
    requires Complete(Walk(tables, cursor, limit)) && After(cursor, r)
    requires forall k :: 0 <= k < |Walk(tables, cursor, limit)| ==> r in tables[k]
    ensures r in Entries(Walk(tables, cursor, limit))
    decreases |tables|
  {
    var pages := Walk(tables, cursor, limit);
    var page := PageOf(tables[0], cursor, limit);
    ForwardPageShows(tables[0], cursor, limit, r);
    if r !in page.entries {
      var later := Walk(tables[1..], page.next, limit);
      assert pages[1..] == later;
      assert forall k :: 0 <= k < |later| ==> tables[1..][k] == tables[k + 1];
      WalkShows(tables[1..], page.next, limit, r);
    }
  }

  /** A walk from the beginning over a table that changes arbitrarily between the pages:
    no row is shown twice, page k shows only rows that were there then, and when the
    walk ends, a row that was there all the time has been shown exactly once. */
  lemma {:induction false} WalkShowsExactlyOnce(tables: seq<set<Row>>, limit: Option<nat>)
    ensures var pages := Walk(tables, None, limit);
            && (forall r :: multiset(Entries(pages))[r] <= 1)
            && (Complete(pages) ==>
                  forall r :: (forall k :: 0 <= k < |pages| ==> r in tables[k]) ==> multiset(Entries(pages))[r] == 1)
  {
    var pages := Walk(tables, None, limit);
    WalkIsSorted(tables, None, limit);
    SortedOnce(Entries(pages));
    if Complete(pages) {
      forall r | forall k :: 0 <= k < |pages| ==> r in tables[k]
        ensures multiset(Entries(pages))[r] == 1
      {
        WalkShows(tables, None, limit, r);
      }
    }
  }

  // ---- Walking backward

  /** Page by page along `prev`. */
  function WalkBack(tables: seq<set<Row>>, c: Cursor, limit: Option<nat>): (pages: seq<Page>)
    ensures |pages| <= |tables|
    decreases |tables|
  {
    if tables == [] then [] else
    var page := PageOf(tables[0], Some(c), limit);
    [page] + if page.prev.Some? then WalkBack(tables[1..], page.prev.value, limit) else []
  }

  /** The rows of pages that are shown from the last to the first. */
  function BackEntries(pages: seq<Page>): seq<Row> {
    if pages == [] then [] else BackEntries(pages[1..]) + pages[0].entries
  }

  /** One backward page: in order, in front of the cursor, and from the row of `prev` on. */
  lemma {:induction false} BackwardPageInOrder(table: set<Row>, c: Cursor, limit: Option<nat>)
    requires c.previous
    ensures var page := PageOf(table, Some(c), limit);
            && StrictlySorted(page.entries)
            && (forall i :: 0 <= i < |page.entries| ==> page.entries[i] in table && Admits(c, page.entries[i]))
            && (page.prev.Some? ==>
                  var bound := Row(page.prev.value.time, page.prev.value.id);
                  && page.prev.value.previous && Admits(c, bound)
                  && forall i :: 0 <= i < |page.entries| ==> page.entries[i] == bound || Before(bound, page.entries[i]))
  {
    PageIsCut(table, Some(c), limit);
    RestFacts(table, Some(c));
  }

  /** A backward page leaves nothing out after `prev`. */
  lemma {:induction false} BackwardPageShows(table: set<Row>, c: Cursor, limit: Option<nat>, r: Row)
    requires c.previous && r in table && Admits(c, r)
    ensures var page := PageOf(table, Some(c), limit);
            r in page.entries || (page.prev.Some? && page.prev.value.previous && Admits(page.prev.value, r))
  {
    BackwardContents(table, c, limit);
    RestFacts(table, Some(c));
    var rest := Rest(table, Some(c));
    ShownOrBefore(rest, |rest| - |PageOf(table, Some(c), limit).entries|, r);
  }

  lemma {:induction false} ShownOrBefore(rows: seq<Row>, k: nat, r: Row)
    requires StrictlySorted(rows) && r in rows && k <= |rows|
    ensures r in rows[k..] || (k > 0 && (k < |rows| ==> Before(r, rows[k])))
  {
    var i :| 0 <= i < |rows| && rows[i] == r;
    if i >= k {
      assert rows[k..][i - k] == r;
    }
  }

  /** Whatever happens to the table, the pages of a backward walk are in order. */
  lemma {:induction false} WalkBackIsSorted(tables: seq<set<Row>>, c: Cursor, limit: Option<nat>)
    requires c.previous
    ensures var rows := BackEntries(WalkBack(tables, c, limit));
            StrictlySorted(rows) && forall i :: 0 <= i < |rows| ==> Admits(c, rows[i])
    decreases |tables|
  {
    if tables != [] {
      var page := PageOf(tables[0], Some(c), limit);
      BackwardPageInOrder(tables[0], c, limit);
      var later := if page.prev.Some? then WalkBack(tables[1..], page.prev.value, limit) else [];
      assert WalkBack(tables, c, limit)[1..] == later;
      if page.prev.Some? {
        WalkBackIsSorted(tables[1..], page.prev.value, limit);
        PrependPage(BackEntries(later), page.entries, page.prev.value, c);
      }
    }
  }

  lemma {:induction false} PrependPage(front: seq<Row>, back: seq<Row>, bound: Cursor, c: Cursor)
    requires StrictlySorted(front) && StrictlySorted(back) && bound.previous && c.previous
    requires Admits(c, Row(bound.time, bound.id))
    requires forall i :: 0 <= i < |front| ==> Admits(bound, front[i])
    requires forall i :: 0 <= i < |back| ==>
                           back[i] == Row(bound.time, bound.id) || Before(Row(bound.time, bound.id), back[i])
    ensures StrictlySorted(front + back)
    ensures forall i :: 0 <= i < |front| ==> Admits(c, front[i])
  {}

  lemma {:induction false} WalkBackShows(tables: seq<set<Row>>, c: Cursor, limit: Option<nat>, r: Row)
    requires c.previous && Admits(c, r)
    requires WalkBack(tables, c, limit) != [] && WalkBack(tables, c, limit)[|WalkBack(tables, c, limit)| - 1].prev.None?
    requires forall k :: 0 <= k < |WalkBack(tables, c, limit)| ==> r in tables[k]
    ensures r in BackEntries(WalkBack(tables, c, limit))
    decreases |tables|
  {
    var pages := WalkBack(tables, c, limit);
    var page := PageOf(tables[0], Some(c), limit);
    BackwardPageShows(tables[0], c, limit, r);
    if r !in page.entries {
      var later := WalkBack(tables[1..], page.prev.value, limit);
      assert pages[1..] == later;
      assert forall k :: 0 <= k < |later| ==> tables[1..][k] == tables[k + 1];
      WalkBackShows(tables[1..], page.prev.value, limit, r);
    }
  }

  /** A backward walk over a table that changes arbitrarily between the pages: no row is
    shown twice, and when the walk ends, every row in front of the cursor that was there
    all the time has been shown exactly once. */
  lemma {:induction false} WalkBackShowsExactlyOnce(tables: seq<set<Row>>, c: Cursor, limit: Option<nat>)
    requires c.previous
    ensures var pages := WalkBack(tables, c, limit);
            && (forall r :: multiset(BackEntries(pages))[r] <= 1)
            && (pages != [] && pages[|pages| - 1].prev.None? ==>
                  forall r :: Admits(c, r) && (forall k :: 0 <= k < |pages| ==> r in tables[k]) ==>
                                multiset(BackEntries(pages))[r] == 1)
  {
    var pages := WalkBack(tables, c, limit);
    WalkBackIsSorted(tables, c, limit);
    SortedOnce(BackEntries(pages));
    if pages != [] && pages[|pages| - 1].prev.None? {
      forall r | Admits(c, r) && forall k :: 0 <= k < |pages| ==> r in tables[k]
        ensures multiset(BackEntries(pages))[r] == 1
      {
        WalkBackShows(tables, c, limit, r);
      }
    }
  }

  lemma {:induction false} SortedOnce(rows: seq<Row>)
    requires StrictlySorted(rows)
    ensures forall r :: multiset(rows)[r] <= 1
    decreases |rows|
  {
    if rows != [] {
      var rest := rows[1..];
      SortedOnce(rest);
      assert rows == [rows[0]] + rest;
      assert forall i :: 0 <= i < |rest| ==> rest[i] == rows[i + 1];
      assert rows[0] !in rest;
    }
  }

  /** How many pages it takes to show `n` rows; one, if there are none. */
  function PageCount(n: nat, limit: nat): nat
    requires limit > 0
  {
    if n <= limit then 1 else 1 + PageCount(n - limit, limit)
  }

  /** The same table at every fetch. */
  function Unchanged(table: set<Row>, fetches: nat): (tables: seq<set<Row>>)
    ensures |tables| == fetches && forall k :: 0 <= k < fetches ==> tables[k] == table
  {
    if fetches == 0 then [] else [table] + Unchanged(table, fetches - 1)
  }

  /** The pages are all needed, full but for the last one, and show these rows. */
  ghost predicate ShowsAll(pages: seq<Page>, rest: seq<Row>, limit: nat)
    requires limit > 0
  {
    && |pages| == PageCount(|rest|, limit)
    && Complete(pages)
    && (forall k :: 0 <= k < |pages| - 1 ==> |pages[k].entries| == limit)
    && Entries(pages) == rest
  }

  lemma {:induction false} LastPage(page: Page, pages: seq<Page>, rest: seq<Row>, limit: nat)
    requires limit > 0 && page.next.None? && |page.entries| <= limit
    requires pages == [page] && rest == page.entries
    ensures ShowsAll(pages, rest, limit)
  {}

  lemma {:induction false} OneMorePage(
      page: Page, later: seq<Page>, following: seq<Row>, pages: seq<Page>, rest: seq<Row>, limit: nat)
    requires limit > 0 && ShowsAll(later, following, limit) && |page.entries| == limit && following != []
    requires pages == [page] + later && rest == page.entries + following
    ensures ShowsAll(pages, rest, limit)
  {}

  /** On a table that does not change, the walk ends after exactly the expected number of
    pages, all but the last are full, and together they are the unpaginated rows. */
  lemma {:induction false} WalkFixedTable(table: set<Row>, cursor: Option<Cursor>, limit: nat, fetches: nat)
    requires limit > 0
    requires cursor.Some? ==> !cursor.value.previous
    requires fetches >= PageCount(|Rest(table, cursor)|, limit)
    ensures ShowsAll(Walk(Unchanged(table, fetches), cursor, Some(limit)), Rest(table, cursor), limit)
    decreases fetches
  {
    var page := FixedPage(table, cursor, limit);
    if page.next.Some? {
      WalkFixedTable(table, page.next, limit, fetches - 1);
      MorePages(table, cursor, limit, fetches, page);
    } else {
      NoMorePages(table, cursor, limit, fetches, page);
    }
  }

  lemma {:induction false} MorePages(table: set<Row>, cursor: Option<Cursor>, limit: nat, fetches: nat, page: Page)
    requires limit > 0 && fetches > 0 && page == PageOf(table, cursor, Some(limit)) && page.next.Some?
    requires cursor.Some? ==> !cursor.value.previous
    requires ShowsAll(Walk(Unchanged(table, fetches - 1), page.next, Some(limit)), Rest(table, page.next), limit)
    ensures ShowsAll(Walk(Unchanged(table, fetches), cursor, Some(limit)), Rest(table, cursor), limit)
  {
    var same := FixedPage(table, cursor, limit);
    var pages := WalkStep(table, cursor, limit, fetches, page);
    var later := Walk(Unchanged(table, fetches - 1), page.next, Some(limit));
    OneMorePage(page, later, Rest(table, page.next), pages, Rest(table, cursor), limit);
  }

  lemma {:induction false} NoMorePages(table: set<Row>, cursor: Option<Cursor>, limit: nat, fetches: nat, page: Page)
    requires limit > 0 && fetches > 0 && page == PageOf(table, cursor, Some(limit)) && page.next.None?
    requires cursor.Some? ==> !cursor.value.previous
    ensures ShowsAll(Walk(Unchanged(table, fetches), cursor, Some(limit)), Rest(table, cursor), limit)
  {
    var same := FixedPage(table, cursor, limit);
    var pages := WalkStep(table, cursor, limit, fetches, page);
    LastPage(page, pages, Rest(table, cursor), limit);
  }

  lemma {:induction false} WalkStep(table: set<Row>, cursor: Option<Cursor>, limit: nat, fetches: nat, page: Page)
    returns (pages: seq<Page>)
    requires limit > 0 && fetches > 0 && page == PageOf(table, cursor, Some(limit))
    ensures pages == Walk(Unchanged(table, fetches), cursor, Some(limit))
    ensures page.next.None? ==> pages == [page]
    ensures page.next.Some? ==> pages == [page] + Walk(Unchanged(table, fetches - 1), page.next, Some(limit))
  {
    pages := Walk(Unchanged(table, fetches), cursor, Some(limit));
    assert Unchanged(table, fetches)[1..] == Unchanged(table, fetches - 1);
    assert [page] + [] == [page];
  }

  /** One page of a table that does not change. */
  lemma {:induction false} FixedPage(table: set<Row>, cursor: Option<Cursor>, limit: nat) returns (page: Page)
    requires limit > 0
    requires cursor.Some? ==> !cursor.value.previous
    ensures page == PageOf(table, cursor, Some(limit))
    ensures page.next.Some? <==> |Rest(table, cursor)| > limit
    ensures page.next.Some? ==> |page.entries| == limit && !page.next.value.previous
    ensures page.next.Some? ==>
              Rest(table, page.next) != [] && Rest(table, cursor) == page.entries + Rest(table, page.next)
    ensures page.next.None? ==> Rest(table, cursor) == page.entries && |page.entries| <= limit
  {
    page := PageOf(table, cursor, Some(limit));
    ForwardIsCut(table, cursor, Some(limit));
    NextRest(table, cursor, Some(limit));
  }
}
