/** Keyset pagination: following next_cursor page by page, for movements and for id-ordered lists. */
module Keyset {
  import opened Options
  import opened Ordering

  // ---------------------------------------------------------------- pages over any strict order

  /** The rows a query returns for a cursor: those behind it, in order. */
  function Behind<T>(table: seq<T>, cursor: Option<T>, before: (T, T) -> bool): seq<T>
  {
    if table == [] then []
    else
      var x := table[|table| - 1];
      Behind(table[..|table| - 1], cursor, before) +
      (if cursor.None? || before(cursor.value, x) then [x] else [])
  }

  /** take of a query: the first n rows, or for a negative n the last ones. */
  function Take<T>(s: seq<T>, n: int): seq<T> {
    if n < 0 then (if |s| <= -n then s else s[|s| + n..])
    else if |s| <= n then s
    else s[..n]
  }

  /** The rows that are taken stand at the front, or for a negative number at the back. */
  lemma TakeIsPart<T>(s: seq<T>, n: int)
    ensures var m := if n < 0 then -n else n;
            && |Take(s, n)| == (if |s| <= m then |s| else m)
            && (n >= 0 ==> Take(s, n) == s[..|Take(s, n)|])
            && (n < 0 ==> Take(s, n) == s[|s| - |Take(s, n)|..])
  {
  }

  /** findMany with where, orderBy and take. */
  function Fetch<T>(table: seq<T>, cursor: Option<T>, take: int, before: (T, T) -> bool): seq<T> {
    Take(Sort(Behind(table, cursor, before), before), take)
  }

  /** A page; its cursor is the last row, of which the code encodes the sort columns. */
  datatype Page<T> = Page(data: seq<T>, hasMore: bool, nextCursor: Option<T>, count: nat)

  /** items.slice(0, limit): a negative limit leaves off rows from the end. */
  function Slice<T>(items: seq<T>, limit: int): seq<T>
    requires |items| > limit
  {
    if limit >= 0 then items[..limit]
    else if |items| <= -limit then []
    else items[..|items| + limit]
  }

  /** buildPaginationResponse and buildMovementPaginationResponse; None is the TypeError on an empty page. */
  function BuildPage<T>(items: seq<T>, limit: int): Option<Page<T>> {
    var hasMore := |items| > limit;
    var data := if hasMore then Slice(items, limit) else items;
    if hasMore && data == [] then None
    else Some(Page(data, hasMore, if hasMore then Some(data[|data| - 1]) else None, |data|))
  }

  /** Building a page throws exactly when rows are cut off and none is left to take the cursor from. */
  lemma BuildPageThrowsIff<T>(items: seq<T>, limit: int)
    ensures BuildPage(items, limit).None? <==> |items| > limit && limit <= 0 && (limit == 0 || |items| <= -limit)
  {
  }

  /** What parseInt makes of the query's limit. */
  datatype Requested = Missing | NotANumber | Whole(n: int)

  /** getPaginationParams: the requested limit, or the default, capped; None is NaN. */
  function PageLimit(requested: Requested, standard: int, most: int): Option<int> {
    match requested
    case Missing => Some(if standard < most then standard else most)
    case NotANumber => None
    case Whole(n) => Some(if n < most then n else most)
  }

  /**
   A whole number up to the cap is the limit, a larger one gives the cap, and no limit the default or the
   cap. A limit that a walk can use comes from exactly these requests, the numbers being at least 1.
   */
  lemma PageLimitPositiveIff(requested: Requested, standard: int, most: int)
    requires standard >= 1 && most >= 1
    ensures requested.Whole? && requested.n <= most ==> PageLimit(requested, standard, most) == Some(requested.n)
    ensures requested.Whole? && requested.n > most ==> PageLimit(requested, standard, most) == Some(most)
    ensures requested == Missing && standard <= most ==> PageLimit(requested, standard, most) == Some(standard)
    ensures requested == Missing && standard > most ==> PageLimit(requested, standard, most) == Some(most)
    ensures requested == NotANumber ==> PageLimit(requested, standard, most) == None
    ensures PageLimit(requested, standard, most).Some? ==> PageLimit(requested, standard, most).value <= most
    ensures (PageLimit(requested, standard, most).Some? && PageLimit(requested, standard, most).value >= 1) <==>
            requested == Missing || (requested.Whole? && requested.n >= 1)
  {
  }

  function ListPage<T>(table: seq<T>, cursor: Option<T>, limit: int, before: (T, T) -> bool): Option<Page<T>> {
    BuildPage(Fetch(table, cursor, limit + 1, before), limit)
  }

  ghost predicate StrictOrder<T(!new)>(before: (T, T) -> bool) {
    Transitive(before) && forall x :: !before(x, x)
  }

  lemma {:induction false} BehindMembers<T>(table: seq<T>, cursor: Option<T>, before: (T, T) -> bool)
    ensures forall x :: x in Behind(table, cursor, before) <==> x in table && (cursor.None? || before(cursor.value, x))
    decreases |table|
  {
    if table != [] {
      BehindMembers(table[..|table| - 1], cursor, before);
      assert table == table[..|table| - 1] + [table[|table| - 1]];
    }
  }

  lemma {:induction false} BehindComparable<T(!new)>(table: seq<T>, cursor: Option<T>, before: (T, T) -> bool)
    requires Comparable(table, before)
    ensures Comparable(Behind(table, cursor, before), before)
    decreases |table|
  {
    if table != [] {
      var n := |table| - 1;
      var rest := Behind(table[..n], cursor, before);
      BehindComparable(table[..n], cursor, before);
      BehindMembers(table[..n], cursor, before);
      forall i | 0 <= i < |rest|
        ensures before(rest[i], table[n]) || before(table[n], rest[i])
      {
        assert rest[i] in table[..n];
        var k :| 0 <= k < n && table[..n][k] == rest[i];
        assert table[k] == rest[i];
      }
    }
  }

  /** The rows behind a cursor, in order: what one unlimited query would return. */
  function Rest<T>(table: seq<T>, cursor: Option<T>, before: (T, T) -> bool): seq<T> {
    Sort(Behind(table, cursor, before), before)
  }

  lemma RestSorted<T(!new)>(table: seq<T>, cursor: Option<T>, before: (T, T) -> bool)
    requires StrictOrder(before) && Comparable(table, before)
    ensures Ascending(Rest(table, cursor, before), before)
    ensures forall x :: x in Rest(table, cursor, before) <==> x in table && (cursor.None? || before(cursor.value, x))
  {
    BehindComparable(table, cursor, before);
    SortAscending(Behind(table, cursor, before), before);
    SortMembers(Behind(table, cursor, before), before);
    BehindMembers(table, cursor, before);
  }

  /** Two ascending sequences with the same elements are equal. */
  lemma {:induction false} AscendingUnique<T(!new)>(s: seq<T>, t: seq<T>, before: (T, T) -> bool)
    requires StrictOrder(before) && Ascending(s, before) && Ascending(t, before)
    requires forall x :: x in s <==> x in t
    ensures s == t
    decreases |s|
  {
    if |s| > 0 && |t| > 0 {
      var x, y := s[0], t[0];
      assert x in t && y in s;
      var j :| 0 <= j < |t| && t[j] == x;
      var i :| 0 <= i < |s| && s[i] == y;
      assert (i == 0 || before(x, y)) && (j == 0 || before(y, x)) && !before(x, x);
      assert x == y;
      forall z
        ensures z in s[1..] <==> z in t[1..]
      {
        TailMembers(s, before, z);
        TailMembers(t, before, z);
      }
      AscendingUnique(s[1..], t[1..], before);
      assert s == [x] + s[1..] && t == [x] + t[1..];
    } else {
      HasMember(s);
      HasMember(t);
    }
  }

  lemma HasMember<T>(s: seq<T>)
    ensures s == [] || exists x :: x in s
  {
    if s != [] {
      assert s[0] in s;
    }
  }

  lemma TailMembers<T(!new)>(s: seq<T>, before: (T, T) -> bool, x: T)
    requires s != [] && StrictOrder(before) && Ascending(s, before)
    ensures x in s[1..] <==> x in s && x != s[0]
  {
    assert s == [s[0]] + s[1..];
    assert s[0] !in s[1..];
  }

  /** Behind the last row of a page is exactly what the page cut off. */
  lemma RestAfter<T(!new)>(table: seq<T>, cursor: Option<T>, n: nat, before: (T, T) -> bool)
    requires StrictOrder(before) && Comparable(table, before)
    requires 0 < n < |Rest(table, cursor, before)|
    ensures Rest(table, Some(Rest(table, cursor, before)[n - 1]), before) == Rest(table, cursor, before)[n..]
  {
    hide Rest, Comparable;
    var all := Rest(table, cursor, before);
    var last := all[n - 1];
    var next := Rest(table, Some(last), before);
    RestSorted(table, cursor, before);
    RestSorted(table, Some(last), before);
    forall x
      ensures x in next <==> x in all[n..]
    {
      if x in next {
        assert last in all;
        assert cursor.Some? ==> before(cursor.value, last) && before(last, x);
        assert x in all;
        var i :| 0 <= i < |all| && all[i] == x;
        assert i < n - 1 ==> before(x, last) && before(x, x);
        assert all[n..][i - n] == x;
      }
      if x in all[n..] {
        var i :| 0 <= i < |all[n..]| && all[n..][i] == x;
        assert all[n + i] == x && before(last, all[n + i]);
      }
    }
    AscendingUnique(next, all[n..], before);
  }

  /** All rows of the pages of a walk over a table that does not change. */
  function Walk<T>(table: seq<T>, cursor: Option<T>, limit: nat, before: (T, T) -> bool, pages: nat): seq<T>
    decreases pages
  {
    if pages == 0 then []
    else
      match ListPage(table, cursor, limit, before)
      case None => []
      case Some(p) => p.data + if p.hasMore then Walk(table, p.nextCursor, limit, before, pages - 1) else []
  }

  /**
   A page holds the first rows behind its cursor, as many as the limit; it has a next cursor, its last row,
   exactly when there are more.
   */
  lemma PageIs<T>(table: seq<T>, cursor: Option<T>, limit: nat, before: (T, T) -> bool)
    requires limit >= 1
    ensures var all := Rest(table, cursor, before);
            ListPage(table, cursor, limit, before) ==
              Some(if |all| > limit then Page(all[..limit], true, Some(all[limit - 1]), limit)
                   else Page(all, false, None, |all|))
  {
    var all := Rest(table, cursor, before);
    if |all| > limit {
      assert Fetch(table, cursor, limit + 1, before) == all[..limit + 1];
      assert all[..limit + 1][..limit] == all[..limit];
    }
  }

  /** A list request throws exactly for a negative limit, and for limit 0 when there is anything to show. */
  lemma ListPageThrowsIff<T>(table: seq<T>, cursor: Option<T>, limit: int, before: (T, T) -> bool)
    ensures ListPage(table, cursor, limit, before).None? <==>
            limit < 0 || (limit == 0 && Rest(table, cursor, before) != [])
  {
    hide Rest;
    var all := Rest(table, cursor, before);
    assert Fetch(table, cursor, limit + 1, before) == Take(all, limit + 1) by { RestIsSorted(table, cursor, before); }
    if limit < 0 {
      assert |Take(all, limit + 1)| <= -limit;
    }
  }

  lemma RestIsSorted<T>(table: seq<T>, cursor: Option<T>, before: (T, T) -> bool)
    ensures Rest(table, cursor, before) == Sort(Behind(table, cursor, before), before)
  {
  }

  lemma WalkStep<T>(table: seq<T>, cursor: Option<T>, limit: nat, before: (T, T) -> bool, pages: nat)
    requires pages >= 1 && ListPage(table, cursor, limit, before).Some?
    ensures var p := ListPage(table, cursor, limit, before).value;
            Walk(table, cursor, limit, before, pages) ==
              p.data + if p.hasMore then Walk(table, p.nextCursor, limit, before, pages - 1) else []
  {
    hide ListPage;
  }

  /**
   With limit at least 1, following next_cursor until has_more is false gives the full sorted list:
   no gap and no repeat. As many pages as rows always suffice.
   */
  lemma {:induction false} WalkIsExact<T(!new)>(table: seq<T>, cursor: Option<T>, limit: nat,
                                                before: (T, T) -> bool, pages: nat)
    requires StrictOrder(before) && Comparable(table, before) && limit >= 1
    requires |Rest(table, cursor, before)| <= pages && 1 <= pages
    ensures Walk(table, cursor, limit, before, pages) == Rest(table, cursor, before)
    decreases pages
  {
    hide Rest, ListPage, StrictOrder, Comparable, Walk;
    var all := Rest(table, cursor, before);
    PageIs(table, cursor, limit, before);
    WalkStep(table, cursor, limit, before, pages);
    if |all| > limit {
      var next := Some(all[limit - 1]);
      RestAfter(table, cursor, limit, before);
      WalkIsExact(table, next, limit, before, pages - 1);
      assert all == all[..limit] + all[limit..];
    } else {
      assert all + [] == all;
    }
  }

  // ---------------------------------------------------------------- a table that changes during the walk

  /** One page per table state; the walk stops when a page says there is no more. */
  function ChangingWalk<T>(tables: seq<seq<T>>, cursor: Option<T>, limit: nat, before: (T, T) -> bool): seq<T>
  {
    if tables == [] then []
    else
      match ListPage(tables[0], cursor, limit, before)
      case None => []
      case Some(p) => p.data + if p.hasMore then ChangingWalk(tables[1..], p.nextCursor, limit, before) else []
  }

  /** The walk reached a page without has_more. */
  predicate Finished<T>(tables: seq<seq<T>>, cursor: Option<T>, limit: nat, before: (T, T) -> bool)
  {
    tables != [] &&
    match ListPage(tables[0], cursor, limit, before)
    case None => false
    case Some(p) => !p.hasMore || Finished(tables[1..], p.nextCursor, limit, before)
  }

  ghost predicate AllComparable<T>(tables: seq<seq<T>>, before: (T, T) -> bool) {
    forall i :: 0 <= i < |tables| ==> Comparable(tables[i], before)
  }

  ghost predicate AllBehind<T>(s: seq<T>, cursor: Option<T>, before: (T, T) -> bool) {
    cursor.Some? ==> forall i :: 0 <= i < |s| ==> before(cursor.value, s[i])
  }

  /** What one page shows: rows behind the cursor in order, up to its last row. */
  lemma PageShows<T(!new)>(table: seq<T>, cursor: Option<T>, limit: nat, before: (T, T) -> bool)
    requires StrictOrder(before) && Comparable(table, before) && limit >= 1
    ensures var p := ListPage(table, cursor, limit, before);
            && p.Some? && Ascending(p.value.data, before) && AllBehind(p.value.data, cursor, before)
            && (p.value.hasMore ==> p.value.data != [] && p.value.nextCursor == Some(p.value.data[|p.value.data| - 1]))
            && (forall x :: x in table && (cursor.None? || before(cursor.value, x)) ==>
                  x in p.value.data || (p.value.hasMore && before(p.value.nextCursor.value, x)))
  {
    hide Rest, ListPage;
    var all := Rest(table, cursor, before);
    RestSorted(table, cursor, before);
    PageIs(table, cursor, limit, before);
    var p := ListPage(table, cursor, limit, before).value;
    assert p.data == if |all| > limit then all[..limit] else all;
    forall i | 0 <= i < |p.data|
      ensures cursor.Some? ==> before(cursor.value, p.data[i])
    {
      assert all[i] in all;
    }
    forall x | x in table && (cursor.None? || before(cursor.value, x))
      ensures x in p.data || (p.hasMore && before(p.nextCursor.value, x))
    {
      assert x in all;
      var i :| 0 <= i < |all| && all[i] == x;
      if i < |p.data| {
        assert p.data[i] == x;
      } else {
        assert before(all[limit - 1], all[i]);
      }
    }
  }

  /** Whatever is inserted or deleted between pages, the rows shown come in strict order: none twice. */
  lemma {:induction false} ChangingWalkAscends<T(!new)>(tables: seq<seq<T>>, cursor: Option<T>,
                                                        limit: nat, before: (T, T) -> bool)
    requires StrictOrder(before) && AllComparable(tables, before) && limit >= 1
    ensures Ascending(ChangingWalk(tables, cursor, limit, before), before)
    ensures AllBehind(ChangingWalk(tables, cursor, limit, before), cursor, before)
    decreases |tables|
  {
    hide ListPage, Ascending, StrictOrder, Comparable;
    if tables != [] {
      PageShows(tables[0], cursor, limit, before);
      var p := ListPage(tables[0], cursor, limit, before).value;
      if p.hasMore {
        var tail := ChangingWalk(tables[1..], p.nextCursor, limit, before);
        ChangingWalkAscends(tables[1..], p.nextCursor, limit, before);
        JoinAscends(p.data, tail, cursor, before);
      } else {
        assert p.data + [] == p.data;
      }
    } else {
      NothingAscends(before);
    }
  }

  lemma NothingAscends<T(!new)>(before: (T, T) -> bool)
    ensures Ascending([], before)
  {
  }

  lemma JoinAscends<T(!new)>(s: seq<T>, t: seq<T>, cursor: Option<T>, before: (T, T) -> bool)
    requires StrictOrder(before) && s != [] && Ascending(s, before) && Ascending(t, before)
    requires AllBehind(s, cursor, before) && AllBehind(t, Some(s[|s| - 1]), before)
    ensures Ascending(s + t, before) && AllBehind(s + t, cursor, before)
  {
    var last := s[|s| - 1];
    forall i, j | 0 <= i < j < |s + t|
      ensures before((s + t)[i], (s + t)[j])
    {
      if i < |s| <= j {
        assert before(last, t[j - |s|]);
        assert i < |s| - 1 ==> before(s[i], last);
      }
    }
    forall j | 0 <= j < |s + t| && cursor.Some?
      ensures before(cursor.value, (s + t)[j])
    {
      if j >= |s| {
        assert before(cursor.value, last) && before(last, t[j - |s|]);
      }
    }
  }

  /** A row that is there throughout the walk has been shown when the walk has finished. */
  lemma {:induction false} ChangingWalkComplete<T(!new)>(tables: seq<seq<T>>, cursor: Option<T>,
                                                         limit: nat, before: (T, T) -> bool, x: T)
    requires StrictOrder(before) && AllComparable(tables, before) && limit >= 1
    requires Finished(tables, cursor, limit, before)
    requires forall i :: 0 <= i < |tables| ==> x in tables[i]
    requires cursor.None? || before(cursor.value, x)
    ensures x in ChangingWalk(tables, cursor, limit, before)
    decreases |tables|
  {
    PageShows(tables[0], cursor, limit, before);
    var p := ListPage(tables[0], cursor, limit, before).value;
    if x !in p.data {
      ChangingWalkComplete(tables[1..], p.nextCursor, limit, before, x);
    }
  }

  /** Every row present throughout appears exactly once. */
  lemma ChangingWalkExact<T(!new)>(tables: seq<seq<T>>, limit: nat, before: (T, T) -> bool, x: T)
    requires StrictOrder(before) && AllComparable(tables, before) && limit >= 1
    requires Finished(tables, None, limit, before)
    requires forall i :: 0 <= i < |tables| ==> x in tables[i]
    ensures var shown := ChangingWalk(tables, None, limit, before);
            exists i :: 0 <= i < |shown| && shown[i] == x && forall j :: 0 <= j < |shown| && j != i ==> shown[j] != x
  {
    var shown := ChangingWalk(tables, None, limit, before);
    ChangingWalkComplete(tables, None, limit, before, x);
    ChangingWalkAscends(tables, None, limit, before);
    var i :| 0 <= i < |shown| && shown[i] == x;
    forall j | 0 <= j < |shown| && j != i
      ensures shown[j] != x
    {
      assert if i < j then before(shown[i], shown[j]) else before(shown[j], shown[i]);
    }
  }

  // ---------------------------------------------------------------- the two orders of the code

  /** A movement row: its sort columns and the columns that queries filter on. */
  datatype Row = Row(id: nat, createdAt: int, kind: string, status: string,
                     product: nat, user: nat, source: Option<nat>, dest: Option<nat>)

  /** orderBy created_at desc, id desc. */
  predicate Newer(a: Row, b: Row) {
    a.createdAt > b.createdAt || (a.createdAt == b.createdAt && a.id > b.id)
  }

  /** orderBy id asc, as the other lists use. */
  predicate LowerId(a: Row, b: Row) { a.id < b.id }

  ghost predicate DistinctIds(table: seq<Row>) {
    forall i, j :: 0 <= i < j < |table| ==> table[i].id != table[j].id
  }

  /** The movement list: a full walk shows the newest-first list, whatever timestamps coincide. */
  lemma MovementWalk(table: seq<Row>, limit: nat)
    requires DistinctIds(table) && limit >= 1
    ensures var shown := Walk(table, None, limit, Newer, |table| + 1);
            && multiset(shown) == multiset(table)
            && forall i, j :: 0 <= i < j < |shown| ==>
                 || shown[i].createdAt > shown[j].createdAt
                 || (shown[i].createdAt == shown[j].createdAt && shown[i].id > shown[j].id)
  {
    FullWalk(table, limit, Newer);
    NewestFirst(Walk(table, None, limit, Newer, |table| + 1));
  }

  lemma NewestFirst(shown: seq<Row>)
    requires Ascending(shown, Newer)
    ensures forall i, j :: 0 <= i < j < |shown| ==>
              || shown[i].createdAt > shown[j].createdAt
              || (shown[i].createdAt == shown[j].createdAt && shown[i].id > shown[j].id)
  {
    forall i, j | 0 <= i < j < |shown|
      ensures shown[i].createdAt > shown[j].createdAt
              || (shown[i].createdAt == shown[j].createdAt && shown[i].id > shown[j].id)
    {
      assert Newer(shown[i], shown[j]);
    }
  }

  lemma IdWalk(table: seq<Row>, limit: nat)
    requires DistinctIds(table) && limit >= 1
    ensures var shown := Walk(table, None, limit, LowerId, |table| + 1);
            && multiset(shown) == multiset(table)
            && forall i, j :: 0 <= i < j < |shown| ==> shown[i].id < shown[j].id
  {
    FullWalk(table, limit, LowerId);
    var shown := Walk(table, None, limit, LowerId, |table| + 1);
    forall i, j | 0 <= i < j < |shown|
      ensures shown[i].id < shown[j].id
    {
      assert LowerId(shown[i], shown[j]);
    }
  }

  lemma {:induction false} BehindNothing<T>(table: seq<T>, before: (T, T) -> bool)
    ensures Behind(table, None, before) == table
    decreases |table|
  {
    if table != [] {
      BehindNothing(table[..|table| - 1], before);
    }
  }

  lemma FullWalk<T(!new)>(table: seq<T>, limit: nat, before: (T, T) -> bool)
    requires StrictOrder(before) && Comparable(table, before) && limit >= 1
    ensures Walk(table, None, limit, before, |table| + 1) == Sort(table, before)
    ensures Ascending(Sort(table, before), before) && multiset(Sort(table, before)) == multiset(table)
  {
    BehindNothing(table, before);
    SortAscending(table, before);
    SortElements(table, before);
    WalkIsExact(table, None, limit, before, |table| + 1);
  }

  // ---------------------------------------------------------------- the where clause

  /** What a client filters the movement list by. */
  datatype Query = Query(kind: Option<string>, status: Option<string>,
                         product: Option<nat>, user: Option<nat>, location: Option<nat>)

  predicate Wanted(q: Query, r: Row) {
    && (q.kind.Some? ==> r.kind == q.kind.value) && (q.status.Some? ==> r.status == q.status.value)
    && (q.product.Some? ==> r.product == q.product.value)
    && (q.user.Some? ==> r.user == q.user.value)
    && (q.location.Some? ==> r.source == q.location || r.dest == q.location)
  }

  function Selected(table: seq<Row>, q: Query): seq<Row>
  {
    if table == [] then []
    else
      var r := table[|table| - 1];
      Selected(table[..|table| - 1], q) + (if Wanted(q, r) then [r] else [])
  }

  /** A decoded cursor: ids and times may be missing from what a client sends. */
  datatype Cursor = Cursor(id: Option<nat>, createdAt: Option<int>)

  /** The columns of its last row that a page encodes. */
  function CursorOf(c: Option<Row>): Option<Cursor> {
    if c.None? then None else Some(Cursor(Some(c.value.id), Some(c.value.createdAt)))
  }

  datatype Clause = TouchesLocation(location: nat) | OlderThan(createdAt: int, id: nat)

  /** The where object that buildMovementWhere and addCursorFilter fill in. */
  class MovementWhere {
    var kind: Option<string>
    var status: Option<string>
    var product: Option<nat>
    var user: Option<nat>
    var idAbove: Option<nat>
    var clauses: seq<Clause>

    static predicate Meets(c: Clause, r: Row) {
      match c
      case TouchesLocation(l) => r.source == Some(l) || r.dest == Some(l)
      case OlderThan(t, id) => r.createdAt < t || (r.createdAt == t && r.id < id)
    }

    predicate Matches(r: Row)
      reads this
    {
      && (kind.Some? ==> r.kind == kind.value)
      && (status.Some? ==> r.status == status.value)
      && (product.Some? ==> r.product == product.value)
      && (user.Some? ==> r.user == user.value)
      && (idAbove.Some? ==> r.id > idAbove.value)
      && (forall i :: 0 <= i < |clauses| ==> Meets(clauses[i], r))
    }

    /** The rows of the table that a query with this object returns. */
    function Select(table: seq<Row>): seq<Row>
      reads this
    {
      if table == [] then []
      else
        var r := table[|table| - 1];
        Select(table[..|table| - 1]) + (if Matches(r) then [r] else [])
    }

    constructor Build(q: Query)
      ensures forall r :: Matches(r) <==>
                && (q.kind == None || q.kind == Some(r.kind)) && (q.status == None || q.status == Some(r.status))
                && (q.product == None || q.product == Some(r.product)) && (q.user == None || q.user == Some(r.user))
                && (q.location == None || r.source == q.location || r.dest == q.location)
      ensures idAbove == None
    {
      kind, status, product, user, idAbove := q.kind, q.status, q.product, q.user, None;
      clauses := if q.location.Some? then [TouchesLocation(q.location.value)] else [];
      new;
      assert q.location.Some? ==> forall r :: Meets(clauses[0], r) <==> r.source == q.location || r.dest == q.location;
    }

    /** A cursor with both columns keeps exactly the matching rows that come after it in the list order. */
    method AddCursorFilter(cursor: Option<Cursor>)
      modifies this
      ensures cursor.Some? && cursor.value.id.Some? && cursor.value.createdAt.Some? ==>
                var t, id := cursor.value.createdAt.value, cursor.value.id.value;
                forall r :: Matches(r) <==> old(Matches(r)) && (r.createdAt < t || (r.createdAt == t && r.id < id))
      ensures cursor.Some? && cursor.value.id.Some? && cursor.value.createdAt.None? && old(idAbove.None?) ==>
                forall r :: Matches(r) <==> old(Matches(r)) && r.id > cursor.value.id.value
      ensures cursor.Some? && cursor.value.id.Some? && cursor.value.createdAt.None? ==>
                idAbove == cursor.value.id && clauses == old(clauses)
      ensures cursor.None? || cursor.value.id.None? ==> forall r :: Matches(r) <==> old(Matches(r))
      ensures kind == old(kind) && status == old(status) && product == old(product) && user == old(user)
    {
      if cursor.None? {
        return;
      }
      var c := cursor.value;
      if c.createdAt.Some? && c.id.Some? {
        ghost var was := clauses;
        clauses := clauses + [OlderThan(c.createdAt.value, c.id.value)];
        assert clauses[..|was|] == was && clauses[|was|] == OlderThan(c.createdAt.value, c.id.value);
        assert forall i :: 0 <= i < |was| ==> clauses[i] == was[i];
        return;
      }
      if c.id.Some? {
        idAbove := Some(c.id.value);
        assert clauses == old(clauses);
      }
    }
  }

  /** Filtering by the query and by the cursor in one where object is paging in the list of wanted rows. */
  lemma {:induction false} SelectIsBehind(where: MovementWhere, table: seq<Row>, q: Query, cursor: Option<Row>)
    requires forall r :: where.Matches(r) <==> Wanted(q, r) && (cursor.None? || Newer(cursor.value, r))
    ensures where.Select(table) == Behind(Selected(table, q), cursor, Newer)
    decreases |table|
  {
    if table != [] {
      var n := |table| - 1;
      var rest := Selected(table[..n], q);
      SelectIsBehind(where, table[..n], q, cursor);
      if Wanted(q, table[n]) {
        assert (rest + [table[n]])[..|rest|] == rest;
      } else {
        assert rest + [] == rest;
      }
    }
  }

  /** listStockMovements on a table: a page of the newest-first list of the rows that the query wants. */
  method ListStockMovements(table: seq<Row>, q: Query, cursor: Option<Row>,
                            limit: int) returns (page: Option<Page<Row>>)
    ensures page == ListPage(Selected(table, q), cursor, limit, Newer)
  {
    var where := new MovementWhere.Build(q);
    where.AddCursorFilter(CursorOf(cursor));
    SelectIsBehind(where, table, q, cursor);
    var items := Take(Sort(where.Select(table), Newer), limit + 1);
    page := BuildPage(items, limit);
  }

  lemma {:induction false} SelectedIds(table: seq<Row>, q: Query)
    requires DistinctIds(table)
    ensures DistinctIds(Selected(table, q))
    ensures forall r :: r in Selected(table, q) <==> r in table && Wanted(q, r)
    decreases |table|
  {
    if table != [] {
      var n := |table| - 1;
      SelectedIds(table[..n], q);
      assert table == table[..n] + [table[n]];
      forall i | 0 <= i < |Selected(table[..n], q)|
        ensures Selected(table[..n], q)[i].id != table[n].id
      {
        assert Selected(table[..n], q)[i] in table[..n];
      }
    }
  }

  lemma SameMembers(s: seq<Row>, t: seq<Row>)
    requires multiset(s) == multiset(t)
    ensures forall r :: r in s <==> r in t
  {
    assert forall r :: r in s <==> r in multiset(s);
    assert forall r :: r in t <==> r in multiset(t);
  }

  lemma WantedIs(q: Query)
    ensures forall r :: Wanted(q, r) <==>
              && (q.kind == None || q.kind == Some(r.kind)) && (q.status == None || q.status == Some(r.status))
              && (q.product == None || q.product == Some(r.product)) && (q.user == None || q.user == Some(r.user))
              && (q.location == None || r.source == q.location || r.dest == q.location)
  {
  }

  /** Following the cursors of listStockMovements shows exactly the wanted rows, newest first, each once. */
  lemma FilteredWalk(table: seq<Row>, q: Query, limit: nat)
    requires DistinctIds(table) && limit >= 1
    ensures var wanted := Selected(table, q);
            var shown := Walk(wanted, None, limit, Newer, |wanted| + 1);
            && (forall i, j :: 0 <= i < j < |shown| ==>
                  || shown[i].createdAt > shown[j].createdAt
                  || (shown[i].createdAt == shown[j].createdAt && shown[i].id > shown[j].id))
            && forall r :: r in shown <==>
                 && r in table
                 && (q.kind == None || q.kind == Some(r.kind)) && (q.status == None || q.status == Some(r.status))
                 && (q.product == None || q.product == Some(r.product)) && (q.user == None || q.user == Some(r.user))
                 && (q.location == None || r.source == q.location || r.dest == q.location)
  {
    hide Walk, Selected, Wanted;
    var wanted := Selected(table, q);
    SelectedIds(table, q);
    MovementWalk(wanted, limit);
    SameMembers(Walk(wanted, None, limit, Newer, |wanted| + 1), wanted);
    WantedIs(q);
  }
}
