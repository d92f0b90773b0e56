/** The issue list: keyset pages over (created_at, id) with an opaque cursor, and the client that follows the cursor
    to the last page while issues are created and edited
    (apps/issue-service-nest/src/infrastructure/postgres-issue.repository.ts and apps/web-client/src/features/issue/api.ts). */
module Listing {
  import opened Types
  import opened Text
  import opened Cursor
  import Issues
  import Like

  datatype Row = Row(
    position: Position, projectId: string, status: Issues.Status, assignee: Option<string>, sprint: Option<string>,
    summary: string, version: nat)

  /** The issues by id. A row's position never changes (StablePositions), the rest may. */
  type Table = map<string, Row>

  /** `fold` is the database's case mapping. */
  datatype Filter = Filter(
    status: Option<Issues.Status>, assignee: Option<string>, sprint: Option<string>, q: Option<string>, fold: char -> char)

  /** PostgreSQL prints real UTC instants with microseconds and lower-case UUIDs. */
  ghost predicate ValidTable(t: Table) { forall id :: id in t ==> t[id].position.id == id && Valid(t[id].position) }

  /** A blank text filter is no filter. */
  predicate Given(filter: Option<string>) { filter.Some? && filter.value != "" }

  predicate Admits(f: Filter, row: Row) {
    && (f.status.Some? ==> row.status == f.status.value)
    && (Given(f.assignee) ==> row.assignee == f.assignee)
    && (Given(f.sprint) ==> row.sprint == f.sprint)
    && (Given(f.q) ==> Like.IMatches(f.fold, row.summary, Like.SearchPattern(f.q.value)))
  }

  /** The older row. */
  predicate Below(a: Row, b: Row) { Precedes(a.position, b.position) }

  function Matching(t: Table, projectId: string, f: Filter): set<Row> {
    set id | id in t && t[id].projectId == projectId && Admits(f, t[id]) :: t[id]
  }

  function Selected(t: Table, projectId: string, f: Filter, after: Option<Position>): set<Row> {
    set row | row in Matching(t, projectId, f) && (after.Some? ==> Precedes(row.position, after.value))
  }

  /** What the client asks for, column by column: a filter not given, or blank, admits every row. */
  ghost predicate Asked(projectId: string, f: Filter, row: Row) {
    && row.projectId == projectId
    && (f.status == None || f.status == Some(row.status))
    && (f.assignee == None || f.assignee == Some("") || f.assignee == row.assignee)
    && (f.sprint == None || f.sprint == Some("") || f.sprint == row.sprint)
    && (f.q == None || f.q == Some("") || Like.Contains(Fold(f.fold, row.summary), Fold(f.fold, f.q.value)))
  }

  /** The statement selects exactly the rows of the table that were asked for. */
  lemma MatchingIsAsked(t: Table, projectId: string, f: Filter, row: Row)
    requires Like.KeepsPatterns(f.fold)
    ensures row in Matching(t, projectId, f) <==> (exists id :: id in t && t[id] == row) && Asked(projectId, f, row)
  {
    hide Like.Contains, Like.KeepsPatterns, Like.IMatches, Like.SearchPattern;
    if Given(f.q) { Like.SearchIsCaseBlindSubstring(f.fold, row.summary, f.q.value); }
  }

  // ORDER BY created_at DESC, id DESC LIMIT n

  predicate IsNewest(rows: set<Row>, m: Row) { m in rows && forall row :: row in rows ==> row == m || Below(row, m) }

  /** No two rows of a set share a position. */
  ghost predicate Keyed(rows: set<Row>) { forall a, b :: a in rows && b in rows && a.position == b.position ==> a == b }

  lemma NewestIsUnique(rows: set<Row>)
    ensures forall m, m' :: IsNewest(rows, m) && IsNewest(rows, m') ==> m == m'
  {
    forall m, m' | IsNewest(rows, m) && IsNewest(rows, m') ensures m == m' {
      if m != m' {
        PrecedesTransitive(m.position, m'.position, m.position);
        PrecedesTotal(m.position, m.position);
      }
    }
  }

  lemma {:induction false} NewestExists(rows: set<Row>)
    requires rows != {} && Keyed(rows)
    ensures exists m :: IsNewest(rows, m)
    decreases |rows|
  {
    hide Precedes;
    var a :| a in rows;
    if rows == {a} {
      assert IsNewest(rows, a);
    } else {
      var rest := rows - {a};
      NewestExists(rest);
      var m :| IsNewest(rest, m);
      PrecedesTotal(a.position, m.position);
      assert a in rows && m in rows && a != m && a.position != m.position;
      if Below(a, m) {
        assert IsNewest(rows, m);
      } else {
        assert Below(m, a);
        forall row | row in rows ensures row == a || Below(row, a) {
          if row != a && row != m {
            assert row in rest && Below(row, m);
            PrecedesTransitive(row.position, m.position, a.position);
          }
        }
        assert IsNewest(rows, a);
      }
    }
  }

  /** The newest `n` rows, newest first. */
  function Newest(rows: set<Row>, n: nat): seq<Row>
    requires Keyed(rows)
  {
    if n == 0 || rows == {} then []
    else
      NewestExists(rows);
      NewestIsUnique(rows);
      var m :| IsNewest(rows, m);
      [m] + Newest(rows - {m}, n - 1)
  }

  ghost predicate Descending(rows: seq<Row>) { forall i, j :: 0 <= i < j < |rows| ==> Below(rows[j], rows[i]) }

  function Members(rows: seq<Row>): set<Row> { set row | row in rows }

  /** The page query returns distinct rows of the set in descending order, as many as the limit allows, and leaves
      only rows older than all of them. */
  lemma {:induction false} NewestIsTop(rows: set<Row>, n: nat)
    requires Keyed(rows)
    ensures var top := Newest(rows, n);
            && Descending(top) && Members(top) <= rows && |top| == Min(n, |rows|)
            && forall a, b :: a in rows - Members(top) && b in Members(top) ==> Below(a, b)
    decreases n
  {
    hide Precedes, Newest, Keyed, IsNewest;
    if n == 0 || rows == {} {
      NewestOfNone(rows, n);
    } else {
      var m := NewestUnfolds(rows, n);
      NewestIsTop(rows - {m}, n - 1);
      TopOnTop(rows, m, Newest(rows - {m}, n - 1));
      assert |rows - {m}| == |rows| - 1;
    }
  }

  lemma NewestOfNone(rows: set<Row>, n: nat)
    requires Keyed(rows) && (n == 0 || rows == {})
    ensures Newest(rows, n) == []
  {
  }

  lemma NewestUnfolds(rows: set<Row>, n: nat) returns (m: Row)
    requires Keyed(rows) && n > 0 && rows != {}
    ensures m in rows && IsNewest(rows, m) && Keyed(rows - {m}) && Newest(rows, n) == [m] + Newest(rows - {m}, n - 1)
  {
    hide Precedes;
    NewestExists(rows);
    NewestIsUnique(rows);
    m :| IsNewest(rows, m);
  }

  lemma TopOnTop(rows: set<Row>, m: Row, tail: seq<Row>)
    requires IsNewest(rows, m) && Descending(tail) && Members(tail) <= rows - {m}
    requires forall a, b :: a in rows - {m} - Members(tail) && b in Members(tail) ==> Below(a, b)
    ensures var top := [m] + tail;
            Descending(top) && Members(top) <= rows && forall a, b :: a in rows - Members(top) && b in Members(top) ==> Below(a, b)
  {
    hide Precedes;
    var top := [m] + tail;
    assert forall row :: row in Members(top) <==> row == m || row in Members(tail);
    forall i, j | 0 <= i < j < |top| ensures Below(top[j], top[i]) {
      assert top[j] == tail[j - 1] && tail[j - 1] in Members(tail);
      if i > 0 { assert top[i] == tail[i - 1]; }
    }
  }

  /** Only one descending list has a given set of members: filter-then-sort is well defined. */
  lemma {:induction false} DescendingIsUnique(a: seq<Row>, b: seq<Row>)
    requires Descending(a) && Descending(b) && Members(a) == Members(b)
    ensures a == b
    decreases |a|
  {
    hide Precedes;
    NoMembers(a);
    NoMembers(b);
    if a != [] && b != [] {
      assert a[0] in Members(b) && b[0] in Members(a);
      if a[0] != b[0] {
        PrecedesTotal(a[0].position, a[0].position);
        PrecedesTransitive(a[0].position, b[0].position, a[0].position);
      } else {
        HeadIsNew(a);
        HeadIsNew(b);
        DescendingIsUnique(a[1..], b[1..]);
        assert a == [a[0]] + a[1..] && b == [b[0]] + b[1..];
      }
    }
  }

  lemma NoMembers(a: seq<Row>)
    ensures Members(a) == {} <==> a == []
  {
    if a != [] { assert a[0] in Members(a); }
  }

  lemma HeadIsNew(a: seq<Row>)
    requires Descending(a) && a != []
    ensures Descending(a[1..]) && Members(a[1..]) == Members(a) - {a[0]}
  {
    hide Precedes;
    PrecedesTotal(a[0].position, a[0].position);
    forall row | row in a[1..] ensures row != a[0] {
      var i :| 0 <= i < |a[1..]| && a[1..][i] == row;
      assert Below(a[i + 1], a[0]);
    }
    assert a == [a[0]] + a[1..];
  }

  lemma SelectedIsKeyed(t: Table, projectId: string, f: Filter, after: Option<Position>)
    requires ValidTable(t)
    ensures Keyed(Matching(t, projectId, f)) && Keyed(Selected(t, projectId, f, after))
  {
    hide Admits, Valid;
  }

  // One page

  datatype Page = Page(items: seq<Row>, next: Option<Position>)

  /** listIssues of the repository: one row more than asked for tells whether there is a next page. */
  function ListPage(t: Table, projectId: string, f: Filter, after: Option<Position>, limit: nat): Page
    requires ValidTable(t) && limit >= 1
  {
    SelectedIsKeyed(t, projectId, f, after);
    var result := Newest(Selected(t, projectId, f, after), limit + 1);
    var rows := result[..Min(limit, |result|)];
    Page(rows, if |result| > limit then Some(rows[|rows| - 1].position) else None)
  }

  /** A page holds matching rows older than the position, in order; it is full unless it is the last; and what it
      leaves out is older than its last row, or nothing if it is the last page. */
  lemma PageIsExact(t: Table, projectId: string, f: Filter, after: Option<Position>, limit: nat)
    requires ValidTable(t) && limit >= 1
    ensures var (page, rows) := (ListPage(t, projectId, f, after, limit), Selected(t, projectId, f, after));
            && Descending(page.items) && Members(page.items) <= rows
            && (page.next.Some? <==> |rows| > limit)
            && (page.next.None? ==> Members(page.items) == rows)
            && (page.next.Some? ==> |page.items| == limit && page.next.value == page.items[limit - 1].position)
            && (page.next.Some? ==> forall a :: a in rows && a !in page.items ==> Precedes(a.position, page.next.value))
  {
    hide Precedes, Valid, Admits, Selected, Matching, Newest;
    SelectedIsKeyed(t, projectId, f, after);
    ProbeTellsMore(Selected(t, projectId, f, after), limit);
  }

  lemma ProbeTellsMore(rows: set<Row>, limit: nat)
    requires Keyed(rows) && limit >= 1
    ensures var result := Newest(rows, limit + 1);
            var items := result[..Min(limit, |result|)];
            && Descending(items) && Members(items) <= rows && (|result| > limit <==> |rows| > limit)
            && (|result| <= limit ==> Members(items) == rows)
            && (|result| > limit ==> forall a :: a in rows && a !in items ==> Below(a, items[limit - 1]))
  {
    hide Precedes, Newest;
    var result := Newest(rows, limit + 1);
    NewestIsTop(rows, limit + 1);
    var items := result[..Min(limit, |result|)];
    forall row | row in Members(items) ensures row in rows { assert row in Members(result); }
    if |result| > limit {
      forall a | a in rows && a !in items ensures Below(a, items[limit - 1]) {
        assert result[limit - 1] in Members(result);
        assert result == items + [result[limit]];
      }
    } else {
      assert items == result;
      DescendingSize(result);
      SameSize(Members(result), rows);
    }
  }

  lemma SameSize(a: set<Row>, b: set<Row>)
    requires a <= b && |a| == |b|
    ensures a == b
  {
    assert b == a + (b - a);
  }

  lemma {:induction false} DescendingSize(rows: seq<Row>)
    requires Descending(rows)
    ensures |Members(rows)| == |rows|
  {
    if rows != [] {
      HeadIsNew(rows);
      assert rows[0] in Members(rows);
      DescendingSize(rows[1..]);
    }
  }

  // The service and its client

  datatype Response = Response(items: seq<Row>, nextCursor: Option<string>)

  /** GET .../issues: the cursor is decoded, and the next position encoded. */
  function Get(t: Table, projectId: string, f: Filter, cursor: Option<string>, limit: nat): Result<Response, Cursor.Error>
    requires ValidTable(t) && limit >= 1
  {
    match cursor
    case None => Ok(Respond(ListPage(t, projectId, f, None, limit)))
    case Some(text) =>
      match DecodeIssueCursor(text)
      case Err(error) => Err(error)
      case Ok(after) => Ok(Respond(ListPage(t, projectId, f, Some(after), limit)))
  }

  function Respond(page: Page): Response {
    Response(page.items, match page.next case None => None case Some(p) => Some(EncodeIssueCursor(p)))
  }

  /** What the client has after reading the tables one by one: the issues so far, and the position it goes on from.
      `done` once a page had no next position. */
  datatype Walk = Walk(issues: seq<Row>, after: Option<Position>, done: bool)

  function WalkOver(tables: seq<Table>, projectId: string, f: Filter, limit: nat): Walk
    requires AllValid(tables) && limit >= 1
  {
    if tables == [] then Walk([], None, false)
    else
      var w := WalkOver(tables[..|tables| - 1], projectId, f, limit);
      if w.done then w
      else
        var page := ListPage(tables[|tables| - 1], projectId, f, w.after, limit);
        Walk(w.issues + page.items, page.next, page.next.None?)
  }

  ghost predicate AllValid(tables: seq<Table>) { forall k :: 0 <= k < |tables| ==> ValidTable(tables[k]) }

  // What the client ends up with, whatever happens between the reads

  /** created_at and id are never written again. */
  ghost predicate StablePositions(tables: seq<Table>) {
    forall i, j, id :: (0 <= i < |tables| && 0 <= j < |tables| && id in tables[i] && id in tables[j])
      ==> tables[i][id].position == tables[j][id].position
  }

  ghost predicate WasRead(tables: seq<Table>, projectId: string, f: Filter, row: Row) {
    exists k :: 0 <= k < |tables| && row in Matching(tables[k], projectId, f)
  }

  /** The issue existed and matched the filter at every read. */
  ghost predicate AlwaysThere(tables: seq<Table>, projectId: string, f: Filter, id: string) {
    forall k :: 0 <= k < |tables| ==> id in tables[k] && tables[k][id] in Matching(tables[k], projectId, f)
  }

  predicate Listed(issues: seq<Row>, id: string) { exists i :: 0 <= i < |issues| && issues[i].position.id == id }

  lemma DescendingConcat(a: seq<Row>, b: seq<Row>)
    requires Descending(a) && Descending(b) && (a != [] ==> forall row :: row in b ==> Below(row, a[|a| - 1]))
    ensures Descending(a + b)
  {
    hide Precedes;
    forall i, j | 0 <= i < j < |a + b| ensures Below((a + b)[j], (a + b)[i]) {
      if i < |a| <= j {
        assert (a + b)[j] in b;
        if i < |a| - 1 { PrecedesTransitive((a + b)[j].position, a[|a| - 1].position, a[i].position); }
      }
    }
  }

  /** The client goes on from its last issue. */
  lemma {:induction false} WalkGoesOnFromLast(tables: seq<Table>, projectId: string, f: Filter, limit: nat)
    requires AllValid(tables) && limit >= 1
    ensures var w := WalkOver(tables, projectId, f, limit);
            && (tables != [] && !w.done ==> w.after.Some? && |w.issues| >= limit && w.after.value == w.issues[|w.issues| - 1].position)
            && (tables == [] || w.done ==> w.after.None?)
  {
    hide Precedes, Valid, Admits, Selected, Matching, ListPage;
    if tables != [] {
      var n := |tables| - 1;
      WalkGoesOnFromLast(tables[..n], projectId, f, limit);
      PageIsExact(tables[n], projectId, f, WalkOver(tables[..n], projectId, f, limit).after, limit);
    }
  }

  /** The concatenated pages are strictly descending in (created_at, id)... */
  lemma {:induction false} PagesDescend(tables: seq<Table>, projectId: string, f: Filter, limit: nat)
    requires AllValid(tables) && limit >= 1
    ensures Descending(WalkOver(tables, projectId, f, limit).issues)
  {
    hide Precedes, Valid, Admits, Matching, ListPage;
    if tables != [] {
      var n := |tables| - 1;
      PagesDescend(tables[..n], projectId, f, limit);
      WalkGoesOnFromLast(tables[..n], projectId, f, limit);
      var w := WalkOver(tables[..n], projectId, f, limit);
      var page := ListPage(tables[n], projectId, f, w.after, limit);
      PageIsExact(tables[n], projectId, f, w.after, limit);
      if n > 0 && !w.done {
        forall row | row in page.items ensures Below(row, w.issues[|w.issues| - 1]) { assert row in Members(page.items); }
      } else if !w.done {
        assert w.issues + page.items == page.items;
      }
      if !w.done && n > 0 { DescendingConcat(w.issues, page.items); }
    }
  }

  /** ...were all read from some table, matching the filter there... */
  lemma {:induction false} PagesWereRead(tables: seq<Table>, projectId: string, f: Filter, limit: nat, row: Row)
    requires AllValid(tables) && limit >= 1 && row in WalkOver(tables, projectId, f, limit).issues
    ensures WasRead(tables, projectId, f, row)
  {
    hide Precedes, Valid, Admits, Matching, ListPage;
    var n := |tables| - 1;
    var w := WalkOver(tables[..n], projectId, f, limit);
    if row in w.issues {
      PagesWereRead(tables[..n], projectId, f, limit, row);
      var k :| 0 <= k < n && row in Matching(tables[..n][k], projectId, f);
      assert tables[k] == tables[..n][k];
    } else {
      PageIsExact(tables[n], projectId, f, w.after, limit);
      assert row in Members(ListPage(tables[n], projectId, f, w.after, limit).items);
    }
  }

  /** ...and never repeat an issue. */
  lemma NoIssueRepeats(tables: seq<Table>, projectId: string, f: Filter, limit: nat, i: nat, j: nat)
    requires AllValid(tables) && StablePositions(tables) && limit >= 1
    requires var issues := WalkOver(tables, projectId, f, limit).issues; i < j < |issues|
    ensures var issues := WalkOver(tables, projectId, f, limit).issues; issues[i].position.id != issues[j].position.id
  {
    hide Precedes, Valid, Admits, ListPage, WalkOver;
    var issues := WalkOver(tables, projectId, f, limit).issues;
    PagesDescend(tables, projectId, f, limit);
    assert Below(issues[j], issues[i]);
    PrecedesTotal(issues[i].position, issues[i].position);
    if issues[i].position.id == issues[j].position.id {
      PagesWereRead(tables, projectId, f, limit, issues[i]);
      PagesWereRead(tables, projectId, f, limit, issues[j]);
      SamePlace(tables, projectId, f, issues[i], issues[j]);
    }
  }

  lemma SamePlace(tables: seq<Table>, projectId: string, f: Filter, a: Row, b: Row)
    requires AllValid(tables) && StablePositions(tables) && a.position.id == b.position.id
    requires WasRead(tables, projectId, f, a) && WasRead(tables, projectId, f, b)
    ensures a.position == b.position
  {
    hide Valid, Admits;
    var i :| 0 <= i < |tables| && a in Matching(tables[i], projectId, f);
    var j :| 0 <= j < |tables| && b in Matching(tables[j], projectId, f);
    assert ValidTable(tables[i]) && ValidTable(tables[j]);
    assert tables[i][a.position.id] == a && tables[j][b.position.id] == b;
  }

  /** An issue that is there at every read is listed already, or still lies ahead. */
  lemma {:induction false} ListedOrAhead(tables: seq<Table>, projectId: string, f: Filter, limit: nat, id: string, position: Position)
    requires AllValid(tables) && limit >= 1 && AlwaysThere(tables, projectId, f, id)
    requires forall k :: 0 <= k < |tables| ==> tables[k][id].position == position
    ensures var w := WalkOver(tables, projectId, f, limit);
            Listed(w.issues, id) || (!w.done && (w.after.Some? ==> Precedes(position, w.after.value)))
  {
    hide Precedes, Valid, Admits, ListPage;
    if tables != [] {
      var n := |tables| - 1;
      var (front, t) := (tables[..n], tables[n]);
      assert AlwaysThere(front, projectId, f, id);
      ListedOrAhead(front, projectId, f, limit, id, position);
      var w := WalkOver(front, projectId, f, limit);
      if Listed(w.issues, id) {
        StillListed(w.issues, id, ListPage(t, projectId, f, w.after, limit).items);
      } else {
        var (page, row) := (ListPage(t, projectId, f, w.after, limit), t[id]);
        PageIsExact(t, projectId, f, w.after, limit);
        assert ValidTable(t) && row.position.id == id;
        assert row in Selected(t, projectId, f, w.after);
        if row in page.items { NowListed(w.issues, page.items, row); }
      }
    }
  }

  lemma StillListed(issues: seq<Row>, id: string, more: seq<Row>)
    requires Listed(issues, id)
    ensures Listed(issues + more, id)
  {
    var i :| 0 <= i < |issues| && issues[i].position.id == id;
    assert (issues + more)[i] == issues[i];
  }

  lemma NowListed(issues: seq<Row>, more: seq<Row>, row: Row)
    requires row in more
    ensures Listed(issues + more, row.position.id)
  {
    var i :| 0 <= i < |more| && more[i] == row;
    assert (issues + more)[|issues| + i] == row;
  }

  /** The list is complete: an issue that existed and matched the filter at every page read is in it, however many
      issues were created, edited or removed in between. */
  lemma CompleteList(tables: seq<Table>, projectId: string, f: Filter, limit: nat, id: string)
    requires AllValid(tables) && StablePositions(tables) && limit >= 1 && WalkOver(tables, projectId, f, limit).done
    requires AlwaysThere(tables, projectId, f, id)
    ensures Listed(WalkOver(tables, projectId, f, limit).issues, id)
  {
    hide Precedes, Valid, Admits, ListPage, Matching;
    assert tables != [];
    ListedOrAhead(tables, projectId, f, limit, id, tables[0][id].position);
  }

  /** In the client's terms: every issue listed was in the table at some read, of the project and with the status, assignee,
      sprint and text asked for... */
  lemma ListedWasAsked(tables: seq<Table>, projectId: string, f: Filter, limit: nat, row: Row)
    requires AllValid(tables) && limit >= 1 && Like.KeepsPatterns(f.fold)
    requires row in WalkOver(tables, projectId, f, limit).issues
    ensures Asked(projectId, f, row)
    ensures exists k :: 0 <= k < |tables| && row.position.id in tables[k] && tables[k][row.position.id] == row
  {
    hide WalkOver, Matching, Asked, Valid;
    PagesWereRead(tables, projectId, f, limit, row);
    var k :| 0 <= k < |tables| && row in Matching(tables[k], projectId, f);
    MatchingIsAsked(tables[k], projectId, f, row);
    assert ValidTable(tables[k]);
  }

  /** ...and every issue that was there with all of these at every read is listed. */
  lemma AskedIsListed(tables: seq<Table>, projectId: string, f: Filter, limit: nat, id: string)
    requires AllValid(tables) && StablePositions(tables) && limit >= 1 && Like.KeepsPatterns(f.fold)
    requires WalkOver(tables, projectId, f, limit).done
    requires forall k :: 0 <= k < |tables| ==> id in tables[k] && Asked(projectId, f, tables[k][id])
    ensures Listed(WalkOver(tables, projectId, f, limit).issues, id)
  {
    hide WalkOver, Matching, Asked, Valid;
    forall k | 0 <= k < |tables| ensures tables[k][id] in Matching(tables[k], projectId, f) {
      MatchingIsAsked(tables[k], projectId, f, tables[k][id]);
    }
    CompleteList(tables, projectId, f, limit, id);
  }

  /** The list runs from the newest issue to the oldest; issues created at one instant are told apart by id. */
  lemma NewestFirst(tables: seq<Table>, projectId: string, f: Filter, limit: nat, i: nat, j: nat)
    requires AllValid(tables) && limit >= 1 && i < j < |WalkOver(tables, projectId, f, limit).issues|
    ensures var (newer, older) := (WalkOver(tables, projectId, f, limit).issues[i].position, WalkOver(tables, projectId, f, limit).issues[j].position);
            && RealTimestamp(newer.createdAt) && RealTimestamp(older.createdAt)
            && (Micros(older.createdAt) < Micros(newer.createdAt) || (older.createdAt == newer.createdAt && Less(older.id, newer.id)))
  {
    hide WalkOver, Matching, Less, Micros, RealTimestamp;
    var issues := WalkOver(tables, projectId, f, limit).issues;
    PagesDescend(tables, projectId, f, limit);
    assert Below(issues[j], issues[i]);
    ListedIsReal(tables, projectId, f, limit, issues[i]);
    ListedIsReal(tables, projectId, f, limit, issues[j]);
    TextOrderIsTimeOrder(issues[j].position.createdAt, issues[i].position.createdAt);
  }

  lemma ListedIsReal(tables: seq<Table>, projectId: string, f: Filter, limit: nat, row: Row)
    requires AllValid(tables) && limit >= 1 && row in WalkOver(tables, projectId, f, limit).issues
    ensures RealTimestamp(row.position.createdAt)
  {
    hide WalkOver, RealTimestamp;
    PagesWereRead(tables, projectId, f, limit, row);
    var k :| 0 <= k < |tables| && row in Matching(tables[k], projectId, f);
    assert ValidTable(tables[k]);
  }

  // A table at rest

  function Repeat(t: Table, n: nat): seq<Table> { seq(n, _ => t) }

  lemma RepeatFront(t: Table, n: nat)
    requires n > 0
    ensures Repeat(t, n)[..n - 1] == Repeat(t, n - 1) && Repeat(t, n)[n - 1] == t
  {
  }

  /** Until the last page, every page adds `limit` issues. */
  lemma {:induction false} WalkGrows(t: Table, projectId: string, f: Filter, limit: nat, n: nat)
    requires ValidTable(t) && limit >= 1
    ensures var w := WalkOver(Repeat(t, n), projectId, f, limit); !w.done ==> |w.issues| >= n
  {
    hide Precedes, Valid, Admits, Selected, Matching, ListPage;
    if n > 0 {
      RepeatFront(t, n);
      WalkGrows(t, projectId, f, limit, n - 1);
      PageIsExact(t, projectId, f, WalkOver(Repeat(t, n - 1), projectId, f, limit).after, limit);
    }
  }

  lemma WalkStaysWithin(t: Table, projectId: string, f: Filter, limit: nat, n: nat)
    requires ValidTable(t) && limit >= 1
    ensures var issues := WalkOver(Repeat(t, n), projectId, f, limit).issues;
            Members(issues) <= Matching(t, projectId, f) && |issues| <= |Matching(t, projectId, f)|
  {
    hide Precedes, Valid, Admits, Matching, ListPage, WalkOver;
    var issues := WalkOver(Repeat(t, n), projectId, f, limit).issues;
    forall row | row in Members(issues) ensures row in Matching(t, projectId, f) {
      PagesWereRead(Repeat(t, n), projectId, f, limit, row);
    }
    PagesDescend(Repeat(t, n), projectId, f, limit);
    DescendingSize(issues);
    assert Matching(t, projectId, f) == Members(issues) + (Matching(t, projectId, f) - Members(issues));
  }

  /** On a table that does not change, the client stops for every page size, and its list is the matching issues,
      sorted: the descending list of exactly that set. */
  lemma FixedTableIsFilterThenSort(t: Table, projectId: string, f: Filter, limit: nat, n: nat)
    requires ValidTable(t) && limit >= 1 && n > |Matching(t, projectId, f)|
    ensures WalkOver(Repeat(t, n), projectId, f, limit).done
    ensures Keyed(Matching(t, projectId, f))
    ensures WalkOver(Repeat(t, n), projectId, f, limit).issues == Newest(Matching(t, projectId, f), |Matching(t, projectId, f)|)
  {
    hide Precedes, Valid, Admits, ListPage, WalkOver, Matching, Newest;
    var tables := Repeat(t, n);
    var (all, w) := (Matching(t, projectId, f), WalkOver(tables, projectId, f, limit));
    WalkGrows(t, projectId, f, limit, n);
    WalkStaysWithin(t, projectId, f, limit, n);
    PagesDescend(tables, projectId, f, limit);
    forall row | row in all ensures row in Members(w.issues) {
      MatchingRowIsListed(t, projectId, f, limit, n, row);
    }
    SelectedIsKeyed(t, projectId, f, None);
    NewestIsTop(all, |all|);
    var sorted := Newest(all, |all|);
    DescendingSize(sorted);
    SameSize(Members(sorted), all);
    DescendingIsUnique(w.issues, sorted);
  }

  lemma MatchingRowIsListed(t: Table, projectId: string, f: Filter, limit: nat, n: nat, row: Row)
    requires ValidTable(t) && limit >= 1 && WalkOver(Repeat(t, n), projectId, f, limit).done && row in Matching(t, projectId, f)
    ensures row in WalkOver(Repeat(t, n), projectId, f, limit).issues
  {
    hide Precedes, Valid, Admits, ListPage, WalkOver;
    var tables := Repeat(t, n);
    var issues := WalkOver(tables, projectId, f, limit).issues;
    CompleteList(tables, projectId, f, limit, row.position.id);
    var i :| 0 <= i < |issues| && issues[i].position.id == row.position.id;
    PagesWereRead(tables, projectId, f, limit, issues[i]);
    assert t[issues[i].position.id] == issues[i] && t[row.position.id] == row;
  }

  /** The client's loop: it asks for pages until one has no next cursor. `tables` are what its reads meet; the loop
      ends early only when they run out. The cursors it sends back are always accepted. */
  method ListIssues(projectId: string, f: Filter, limit: nat, tables: seq<Table>)
    returns (issues: seq<Row>, pages: nat, complete: bool, rejected: bool)
    requires AllValid(tables) && limit >= 1 && tables != []
    ensures !rejected && 0 < pages <= |tables| && (complete || pages == |tables|)
    ensures var w := WalkOver(tables[..pages], projectId, f, limit); w.issues == issues && w.done == complete
  {
    hide ListPage, EncodeIssueCursor, DecodeIssueCursor, Valid, Selected, Matching, Admits;
    issues, pages, complete, rejected := [], 0, false, false;
    var cursor: Option<string> := None;
    while !complete && pages < |tables|
      invariant 0 <= pages <= |tables| && !rejected
      invariant complete ==> pages > 0
      invariant CursorOf(WalkOver(tables[..pages], projectId, f, limit).after) == cursor
      invariant var w := WalkOver(tables[..pages], projectId, f, limit); w.issues == issues && w.done == complete
    {
      assert tables[..pages + 1][..pages] == tables[..pages];
      CursorsAreAccepted(tables[..pages], projectId, f, limit);
      var response := Get(tables[pages], projectId, f, cursor, limit);
      if response.Err? {
        rejected := true;
        return;
      }
      issues := issues + response.value.items;
      cursor := response.value.nextCursor;
      pages := pages + 1;
      complete := cursor.None?;
    }
  }

  function CursorOf(after: Option<Position>): Option<string> {
    match after case None => None case Some(p) => Some(EncodeIssueCursor(p))
  }

  lemma CursorsAreAccepted(tables: seq<Table>, projectId: string, f: Filter, limit: nat)
    requires AllValid(tables) && limit >= 1
    ensures var w := WalkOver(tables, projectId, f, limit);
            w.after.Some? ==> EncodeIssueCursor(w.after.value) != "" && DecodeIssueCursor(EncodeIssueCursor(w.after.value)) == Ok(w.after.value)
  {
    hide ListPage, EncodeIssueCursor, DecodeIssueCursor, Valid, Admits, WalkOver;
    WalkGoesOnFromLast(tables, projectId, f, limit);
    var w := WalkOver(tables, projectId, f, limit);
    if w.after.Some? {
      var row := w.issues[|w.issues| - 1];
      PagesWereRead(tables, projectId, f, limit, row);
      var k :| 0 <= k < |tables| && row in Matching(tables[k], projectId, f);
      assert ValidTable(tables[k]);
      RoundTrip(row.position);
      EmptyIsNoCursor();
    }
  }

  lemma EmptyIsNoCursor()
    ensures DecodeIssueCursor("").Err?
  {
  }
}
