/**
 Keyset and offset pagination of db/pagination.go over an unchanging table.

 The engine is abstract: for an order column it lists the rows in that order,
 keeps those that meet the conditions and returns the first ones.  Following
 the cursors is compared with cutting the list of matching rows into pages.
 */
module Pagination {
  import opened Arithmetic

  type Row(!new)

  /** The rows, listed by each column, and the columns' values. */
  datatype Table = Table(listing: string -> seq<Row>, columns: set<string>, primaryKey: string, field: (Row, string) -> int)

  /** How a value becomes a cursor and is read back by the engine. */
  datatype Codec = Codec(render: int -> string, parse: string -> int)

  ghost predicate Faithful(c: Codec)
  {
    forall v :: c.render(v) != "" && c.parse(c.render(v)) == v
  }

  datatype Cond = After(value: int) | Equal(column: string, value: int)

  predicate Meets(t: Table, orderBy: string, c: Cond, r: Row)
  {
    match c
    case After(v) => t.field(r, orderBy) > v
    case Equal(col, v) => t.field(r, col) == v
  }

  /** The first n conditions hold of a row. */
  predicate MeetsAll(t: Table, orderBy: string, cs: seq<Cond>, r: Row, n: nat)
    requires n <= |cs|
  {
    n == 0 || (Meets(t, orderBy, cs[n - 1], r) && MeetsAll(t, orderBy, cs, r, n - 1))
  }

  /** The first n rows of a listing that meet the conditions. */
  function Kept(t: Table, orderBy: string, cs: seq<Cond>, rows: seq<Row>, n: nat): (r: seq<Row>)
    requires n <= |rows|
  {
    if n == 0 then []
    else
      var r := Kept(t, orderBy, cs, rows, n - 1);
      if MeetsAll(t, orderBy, cs, rows[n - 1], |cs|) then r + [rows[n - 1]] else r
  }

  function Filter(t: Table, orderBy: string, cs: seq<Cond>, rows: seq<Row>): (r: seq<Row>)
  {
    Kept(t, orderBy, cs, rows, |rows|)
  }

  function Limit(rows: seq<Row>, n: nat): (r: seq<Row>)
  {
    if n < |rows| then rows[..n] else rows
  }

  // -------------------------------------------------------------------- one page

  function CursorCond(c: Codec, cursor: string): (cs: seq<Cond>)
  {
    if cursor == "" then [] else [After(c.parse(cursor))]
  }

  function Equals(where: seq<(string, int)>, n: nat): (cs: seq<Cond>)
    requires n <= |where|
  {
    if n == 0 then [] else Equals(where, n - 1) + [Equal(where[n - 1].0, where[n - 1].1)]
  }

  /** The rows the filter selects, in order. */
  function Selected(t: Table, orderBy: string, where: seq<(string, int)>): (rows: seq<Row>)
  {
    Filter(t, orderBy, Equals(where, |where|), t.listing(orderBy))
  }

  /** A page of the rows after a cursor, and the next cursor. */
  function Page(t: Table, c: Codec, orderBy: string, rows: seq<Row>, cursor: string, s: nat): (r: (seq<Row>, string))
    requires s > 0
  {
    var got := Limit(Filter(t, orderBy, CursorCond(c, cursor), rows), s + 1);
    if |got| > s then (got[..s], c.render(t.field(got[s - 1], orderBy))) else (got, "")
  }

  datatype Result = Failed | Rows(rows: seq<Row>, next: string)

  predicate ValidQuery(t: Table, orderBy: string, where: seq<(string, int)>)
  {
    && (orderBy == "" || orderBy in t.columns)
    && forall i :: 0 <= i < |where| ==> where[i].0 in t.columns
  }

  /** QueryKeyset: the conditions are collected, one row more than the page is fetched, and the page is cut off. */
  method QueryKeyset(t: Table, c: Codec, cursor: string, size: int, orderBy: string, where: seq<(string, int)>)
    returns (r: Result)
    ensures r.Rows? <==> ValidQuery(t, orderBy, where)
    ensures r.Rows? ==>
      var col := if orderBy == "" then t.primaryKey else orderBy;
      (r.rows, r.next) == Page(t, c, col, Selected(t, col, where), cursor, if size < 1 then 10 else size)
  {
    var s: nat := if size < 1 then 10 else size;
    var col := orderBy;
    if orderBy == "" {
      col := t.primaryKey;
    } else if orderBy !in t.columns {
      return Failed;
    }
    var conds: seq<Cond> := [];
    if cursor != "" {
      conds := [After(c.parse(cursor))];
    }
    var i := 0;
    while i < |where|
      invariant 0 <= i <= |where| && conds == CursorCond(c, cursor) + Equals(where, i)
      invariant forall j :: 0 <= j < i ==> where[j].0 in t.columns
    {
      if where[i].0 !in t.columns {
        return Failed;
      }
      conds, i := conds + [Equal(where[i].0, where[i].1)], i + 1;
    }
    var all := Filter(t, col, conds, t.listing(col));
    FilterTwice(t, col, CursorCond(c, cursor), Equals(where, |where|), t.listing(col));
    var got := Limit(all, s + 1);
    var next := "";
    if |got| > s {
      next := c.render(t.field(got[s - 1], col));
      got := got[..s];
    }
    return Rows(got, next);
  }

  /** QueryPaginated for a valid order column: a page by number and the number of rows. */
  method QueryPaginated(t: Table, page: int, size: int, orderBy: string) returns (r: Result, total: nat)
    ensures r.Rows? <==> orderBy == "" || orderBy in t.columns
    ensures r.Rows? ==>
      var rows := t.listing(if orderBy == "" then t.primaryKey else orderBy);
      total == |rows| && r.rows == OffsetPage(rows, if page < 1 then 0 else page - 1, if size < 1 then 10 else size)
  {
    var p := if page < 1 then 1 else page;
    var s: nat := if size < 1 then 10 else size;
    var col := orderBy;
    if orderBy == "" {
      col := t.primaryKey;
    } else if orderBy !in t.columns {
      return Failed, 0;
    }
    MulNonNegative(p - 1, s);
    var offset: nat := (p - 1) * s;
    var rows := t.listing(col);
    total := |rows|;
    var tail := if offset < |rows| then rows[offset..] else [];
    return Rows(Limit(tail, s), ""), total;
  }

  /** LIMIT s OFFSET k * s. */
  function OffsetPage(rows: seq<Row>, k: nat, s: nat): (r: seq<Row>)
  {
    Chunk(rows, Boundary(k, s), s)
  }

  // ------------------------------------------------------------- filtering twice

  lemma {:induction false} MeetsFirst(t: Table, orderBy: string, a: seq<Cond>, b: seq<Cond>, r: Row, n: nat)
    requires n <= |a|
    ensures MeetsAll(t, orderBy, a + b, r, n) <==> MeetsAll(t, orderBy, a, r, n)
  {
    if n > 0 {
      MeetsFirst(t, orderBy, a, b, r, n - 1);
    }
  }

  lemma {:induction false} MeetsBoth(t: Table, orderBy: string, a: seq<Cond>, b: seq<Cond>, r: Row, n: nat)
    requires n <= |b|
    ensures MeetsAll(t, orderBy, a + b, r, |a| + n) <==> MeetsAll(t, orderBy, a, r, |a|) && MeetsAll(t, orderBy, b, r, n)
  {
    if n > 0 {
      MeetsBoth(t, orderBy, a, b, r, n - 1);
      assert (a + b)[|a| + n - 1] == b[n - 1];
    } else {
      MeetsFirst(t, orderBy, a, b, r, |a|);
    }
  }

  lemma {:induction false} KeptAppend(t: Table, orderBy: string, cs: seq<Cond>, rows: seq<Row>, x: Row, n: nat)
    requires n <= |rows|
    ensures Kept(t, orderBy, cs, rows + [x], n) == Kept(t, orderBy, cs, rows, n)
  {
    if n > 0 {
      KeptAppend(t, orderBy, cs, rows, x, n - 1);
    }
  }

  lemma {:induction false} KeptTwice(t: Table, orderBy: string, a: seq<Cond>, b: seq<Cond>, rows: seq<Row>, n: nat)
    requires n <= |rows|
    ensures Kept(t, orderBy, a + b, rows, n) == Filter(t, orderBy, a, Kept(t, orderBy, b, rows, n))
  {
    if n > 0 {
      KeptTwice(t, orderBy, a, b, rows, n - 1);
      MeetsBoth(t, orderBy, a, b, rows[n - 1], |b|);
      var inner := Kept(t, orderBy, b, rows, n - 1);
      KeptAppend(t, orderBy, a, inner, rows[n - 1], |inner|);
    }
  }

  lemma {:induction false} FilterTwice(t: Table, orderBy: string, a: seq<Cond>, b: seq<Cond>, rows: seq<Row>)
    ensures Filter(t, orderBy, a + b, rows) == Filter(t, orderBy, a, Filter(t, orderBy, b, rows))
  {
    KeptTwice(t, orderBy, a, b, rows, |rows|);
  }

  // ------------------------------------------------------ following the cursors

  ghost predicate Ordered(t: Table, col: string, rows: seq<Row>)
  {
    forall i, j :: 0 <= i < j < |rows| ==> t.field(rows[i], col) <= t.field(rows[j], col)
  }

  /** The first position from i on whose row is after v. */
  function FirstAfter(t: Table, col: string, rows: seq<Row>, v: int, i: nat): (j: nat)
    requires i <= |rows|
    ensures i <= j <= |rows| && (forall k :: i <= k < j ==> t.field(rows[k], col) <= v)
    ensures j < |rows| ==> t.field(rows[j], col) > v
    decreases |rows| - i
  {
    if i < |rows| && t.field(rows[i], col) <= v then FirstAfter(t, col, rows, v, i + 1) else i
  }

  /** Where the rows after a cursor start. */
  function Start(t: Table, c: Codec, col: string, rows: seq<Row>, cursor: string): (i: nat)
    ensures i <= |rows|
  {
    if cursor == "" then 0 else FirstAfter(t, col, rows, c.parse(cursor), 0)
  }

  /** The rows after v are those from position f on. */
  ghost predicate Cut(t: Table, col: string, rows: seq<Row>, v: int, f: nat)
  {
    f <= |rows| && forall m :: 0 <= m < |rows| ==> (t.field(rows[m], col) > v <==> m >= f)
  }

  lemma {:induction false} KeptAfter(t: Table, col: string, rows: seq<Row>, v: int, f: nat, n: nat)
    requires Cut(t, col, rows, v, f) && n <= |rows|
    ensures Kept(t, col, [After(v)], rows, n) == if n <= f then [] else rows[f..n]
  {
    if n > 0 {
      KeptAfter(t, col, rows, v, f, n - 1);
      var x := rows[n - 1];
      assert MeetsAll(t, col, [After(v)], x, 1) <==> Meets(t, col, [After(v)][0], x);
      if n > f {
        assert rows[f..n] == rows[f..n - 1] + [x];
      }
    }
  }

  lemma {:induction false} KeptEverything(t: Table, col: string, rows: seq<Row>, n: nat)
    requires n <= |rows|
    ensures Kept(t, col, [], rows, n) == rows[..n]
  {
    if n > 0 {
      KeptEverything(t, col, rows, n - 1);
    }
  }

  /** On ordered rows the rows after a cursor are a suffix. */
  lemma {:induction false} SuffixAfter(t: Table, c: Codec, col: string, rows: seq<Row>, cursor: string)
    requires Ordered(t, col, rows)
    ensures Filter(t, col, CursorCond(c, cursor), rows) == rows[Start(t, c, col, rows, cursor)..]
  {
    if cursor == "" {
      KeptEverything(t, col, rows, |rows|);
    } else {
      KeptAfter(t, col, rows, c.parse(cursor), Start(t, c, col, rows, cursor), |rows|);
    }
  }

  lemma {:induction false} CutOff(rows: seq<Row>, i: nat, s: nat)
    requires i <= |rows| && s > 0
    ensures var got := Limit(rows[i..], s + 1);
      if i + s < |rows| then |got| == s + 1 && got[..s] == rows[i..i + s] && got[s - 1] == rows[i + s - 1]
      else |got| <= s && got == rows[i..]
  {
  }

  lemma {:induction false} PageAt(t: Table, c: Codec, col: string, rows: seq<Row>, cursor: string, s: nat)
    requires Ordered(t, col, rows) && s > 0
    ensures var i := Start(t, c, col, rows, cursor);
      Page(t, c, col, rows, cursor, s)
        == if i + s < |rows| then (rows[i..i + s], c.render(t.field(rows[i + s - 1], col))) else (rows[i..], "")
  {
    var i := Start(t, c, col, rows, cursor);
    SuffixAfter(t, c, col, rows, cursor);
    CutOff(rows, i, s);
  }

  /** The next page starts after all rows that tie with the last one of this page. */
  lemma {:induction false} NextStart(t: Table, c: Codec, col: string, rows: seq<Row>, p: nat)
    requires Ordered(t, col, rows) && Faithful(c) && 0 < p <= |rows|
    ensures var v := t.field(rows[p - 1], col);
      Start(t, c, col, rows, c.render(v)) == FirstAfter(t, col, rows, v, p)
  {
    var v := t.field(rows[p - 1], col);
    assert c.render(v) != "" && c.parse(c.render(v)) == v;
  }

  lemma {:induction false} FollowShrinks(t: Table, c: Codec, col: string, rows: seq<Row>, cursor: string, s: nat)
    requires Ordered(t, col, rows) && Faithful(c) && s > 0 && Page(t, c, col, rows, cursor, s).1 != ""
    ensures Start(t, c, col, rows, Page(t, c, col, rows, cursor, s).1) > Start(t, c, col, rows, cursor)
  {
    PageAt(t, c, col, rows, cursor, s);
    NextStart(t, c, col, rows, Start(t, c, col, rows, cursor) + s);
  }

  /** One page or more. */
  datatype Pages = Last(page: seq<Row>) | Then(page: seq<Row>, more: Pages)

  function Flatten(pages: Pages): (rows: seq<Row>)
  {
    match pages
    case Last(page) => page
    case Then(page, more) => page + Flatten(more)
  }

  function Count(pages: Pages): (n: nat)
    ensures n > 0
  {
    if pages.Last? then 1 else 1 + Count(pages.more)
  }

  function Nth(pages: Pages, k: nat): (page: seq<Row>)
    requires k < Count(pages)
  {
    if k == 0 then pages.page else Nth(pages.more, k - 1)
  }

  /** The pages a client sees that follows the cursors until there is none. */
  ghost function Follow(t: Table, c: Codec, col: string, rows: seq<Row>, cursor: string, s: nat): (pages: Pages)
    requires Ordered(t, col, rows) && Faithful(c) && s > 0
    decreases |rows| - Start(t, c, col, rows, cursor)
  {
    var (page, next) := Page(t, c, col, rows, cursor, s);
    if next == "" then Last(page)
    else
      FollowShrinks(t, c, col, rows, cursor, s);
      Then(page, Follow(t, c, col, rows, next, s))
  }

  /** The same pages by position: each starts after the ties of the one before. */
  function Walk(t: Table, col: string, rows: seq<Row>, s: nat, i: nat): (pages: Pages)
    requires s > 0 && i <= |rows|
    decreases |rows| - i
  {
    if i + s >= |rows| then Last(rows[i..])
    else Then(rows[i..i + s], Walk(t, col, rows, s, FirstAfter(t, col, rows, t.field(rows[i + s - 1], col), i + s)))
  }

  lemma {:induction false} FollowNext(t: Table, c: Codec, col: string, rows: seq<Row>, cursor: string, s: nat, i: nat) returns (next: string)
    requires Ordered(t, col, rows) && Faithful(c) && s > 0 && i == Start(t, c, col, rows, cursor) && i + s < |rows|
    ensures Start(t, c, col, rows, next) == FirstAfter(t, col, rows, t.field(rows[i + s - 1], col), i + s)
    ensures Follow(t, c, col, rows, cursor, s) == Then(rows[i..i + s], Follow(t, c, col, rows, next, s))
  {
    next := c.render(t.field(rows[i + s - 1], col));
    PageAt(t, c, col, rows, cursor, s);
    NextStart(t, c, col, rows, i + s);
  }

  lemma {:induction false} FollowLast(t: Table, c: Codec, col: string, rows: seq<Row>, cursor: string, s: nat, i: nat)
    requires Ordered(t, col, rows) && Faithful(c) && s > 0 && i == Start(t, c, col, rows, cursor) && i + s >= |rows|
    ensures Follow(t, c, col, rows, cursor, s) == Last(rows[i..])
  {
    PageAt(t, c, col, rows, cursor, s);
  }

  lemma {:induction false} WalkNext(t: Table, col: string, rows: seq<Row>, s: nat, i: nat, j: nat)
    requires s > 0 && i + s < |rows| && j == FirstAfter(t, col, rows, t.field(rows[i + s - 1], col), i + s)
    ensures Walk(t, col, rows, s, i) == Then(rows[i..i + s], Walk(t, col, rows, s, j))
  {
  }

  lemma {:induction false} FollowIsWalk(t: Table, c: Codec, col: string, rows: seq<Row>, cursor: string, s: nat, i: nat)
    requires Ordered(t, col, rows) && Faithful(c) && s > 0 && i == Start(t, c, col, rows, cursor)
    ensures Follow(t, c, col, rows, cursor, s) == Walk(t, col, rows, s, i)
    decreases |rows| - i
  {
    if i + s < |rows| {
      var next := FollowNext(t, c, col, rows, cursor, s, i);
      var j := FirstAfter(t, col, rows, t.field(rows[i + s - 1], col), i + s);
      FollowIsWalk(t, c, col, rows, next, s, j);
      WalkNext(t, col, rows, s, i, j);
    } else {
      FollowLast(t, c, col, rows, cursor, s, i);
    }
  }

  // ------------------------------------------------------------ all rows, in order

  /** No two rows tie across a page boundary, counting from i. */
  predicate NoTieFrom(t: Table, col: string, rows: seq<Row>, s: nat, i: nat)
    requires s > 0
    decreases |rows| - i
  {
    i + s >= |rows|
    || (t.field(rows[i + s - 1], col) < t.field(rows[i + s], col) && NoTieFrom(t, col, rows, s, i + s))
  }

  /** The k-th boundary between full pages. */
  function Boundary(k: nat, s: nat): (p: nat)
  {
    MulNonNegative(k, s);
    k * s
  }

  predicate NoTieAt(t: Table, col: string, rows: seq<Row>, p: nat)
  {
    0 < p < |rows| ==> t.field(rows[p - 1], col) < t.field(rows[p], col)
  }

  /** The condition at the k-th boundary, for every k. */
  lemma {:induction false} NoTieBoundaries(t: Table, col: string, rows: seq<Row>, s: nat, j: nat)
    requires s > 0
    ensures NoTieFrom(t, col, rows, s, Boundary(j, s)) <==> forall k :: k > j ==> NoTieAt(t, col, rows, Boundary(k, s))
    decreases |rows| - Boundary(j, s)
  {
    var i := Boundary(j, s);
    assert Boundary(j + 1, s) == i + s;
    if i + s >= |rows| {
      forall k | k > j ensures NoTieAt(t, col, rows, Boundary(k, s)) {
        MulNonNegative(k - j - 1, s);
        assert k * s == j * s + s + (k - j - 1) * s;
      }
    } else {
      NoTieBoundaries(t, col, rows, s, j + 1);
      assert NoTieAt(t, col, rows, Boundary(j + 1, s)) <==> t.field(rows[i + s - 1], col) < t.field(rows[i + s], col);
      forall k | k > j && NoTieFrom(t, col, rows, s, i) ensures NoTieAt(t, col, rows, Boundary(k, s)) {
        if k == j + 1 {
          assert NoTieAt(t, col, rows, i + s);
        }
      }
    }
  }

  lemma {:induction false} WalkLength(t: Table, col: string, rows: seq<Row>, s: nat, i: nat)
    requires s > 0 && i <= |rows|
    ensures |Flatten(Walk(t, col, rows, s, i))| <= |rows| - i
    decreases |rows| - i
  {
    if i + s < |rows| {
      WalkLength(t, col, rows, s, FirstAfter(t, col, rows, t.field(rows[i + s - 1], col), i + s));
    }
  }

  lemma {:induction false} WalkComplete(t: Table, col: string, rows: seq<Row>, s: nat, i: nat)
    requires Ordered(t, col, rows) && s > 0 && i <= |rows|
    ensures Flatten(Walk(t, col, rows, s, i)) == rows[i..] <==> NoTieFrom(t, col, rows, s, i)
    decreases |rows| - i
  {
    if i + s < |rows| {
      var j := FirstAfter(t, col, rows, t.field(rows[i + s - 1], col), i + s);
      var rest := Flatten(Walk(t, col, rows, s, j));
      if j == i + s {
        WalkComplete(t, col, rows, s, j);
        SplitEqual(rows, i, i + s, rest);
      } else {
        WalkLength(t, col, rows, s, j);
        assert t.field(rows[i + s], col) <= t.field(rows[i + s - 1], col);
      }
    }
  }

  lemma {:induction false} SplitEqual(rows: seq<Row>, i: nat, m: nat, rest: seq<Row>)
    requires i <= m <= |rows|
    ensures rows[i..m] + rest == rows[i..] <==> rest == rows[m..]
  {
    if rows[i..m] + rest == rows[i..] {
      assert rest == (rows[i..m] + rest)[m - i..];
      assert rows[i..][m - i..] == rows[m..];
    }
    assert rows[i..] == rows[i..m] + rows[m..];
  }

  lemma {:induction false} CursorsCoverRows(t: Table, c: Codec, col: string, rows: seq<Row>, s: nat)
    requires Ordered(t, col, rows) && Faithful(c) && s > 0
    ensures Flatten(Follow(t, c, col, rows, "", s)) == rows <==> forall k :: k > 0 ==> NoTieAt(t, col, rows, Boundary(k, s))
  {
    FollowIsWalk(t, c, col, rows, "", s, 0);
    WalkComplete(t, col, rows, s, 0);
    NoTieBoundaries(t, col, rows, s, 0);
    assert rows[0..] == rows;
  }

  // --------------------------------------------------- the rows a query selects

  ghost predicate DistinctKeys(t: Table, col: string, rows: seq<Row>)
  {
    forall i, j :: 0 <= i < j < |rows| ==> t.field(rows[i], col) != t.field(rows[j], col)
  }

  /** A row that a filter keeps is one of the rows before. */
  lemma {:induction false} KeptRow(t: Table, orderBy: string, cs: seq<Cond>, rows: seq<Row>, n: nat, m: nat) returns (k: nat)
    requires n <= |rows| && m < |Kept(t, orderBy, cs, rows, n)|
    ensures k < n && Kept(t, orderBy, cs, rows, n)[m] == rows[k]
  {
    if m < |Kept(t, orderBy, cs, rows, n - 1)| {
      k := KeptRow(t, orderBy, cs, rows, n - 1, m);
    } else {
      k := n - 1;
    }
  }

  /** A filter keeps the order of a listing, and keys that are distinct. */
  lemma {:induction false} KeptOrdered(t: Table, col: string, cs: seq<Cond>, rows: seq<Row>, n: nat)
    requires Ordered(t, col, rows) && n <= |rows|
    ensures Ordered(t, col, Kept(t, col, cs, rows, n))
    ensures DistinctKeys(t, col, rows) ==> DistinctKeys(t, col, Kept(t, col, cs, rows, n))
  {
    if n > 0 {
      KeptOrdered(t, col, cs, rows, n - 1);
      var before := Kept(t, col, cs, rows, n - 1);
      forall m | 0 <= m < |before|
        ensures t.field(before[m], col) <= t.field(rows[n - 1], col)
        ensures DistinctKeys(t, col, rows) ==> t.field(before[m], col) != t.field(rows[n - 1], col)
      {
        var k := KeptRow(t, col, cs, rows, n - 1, m);
      }
    }
  }

  lemma {:induction false} SelectedOrdered(t: Table, col: string, where: seq<(string, int)>)
    requires Ordered(t, col, t.listing(col))
    ensures Ordered(t, col, Selected(t, col, where))
    ensures DistinctKeys(t, col, t.listing(col)) ==> DistinctKeys(t, col, Selected(t, col, where))
  {
    KeptOrdered(t, col, Equals(where, |where|), t.listing(col), |t.listing(col)|);
  }

  /** A row matches a filter: under each of its columns it has the value given for that column. */
  ghost predicate Matches(t: Table, where: seq<(string, int)>, r: Row)
  {
    forall i :: 0 <= i < |where| ==> t.field(r, where[i].0) == where[i].1
  }

  lemma {:induction false} MeetsEquals(t: Table, orderBy: string, where: seq<(string, int)>, r: Row, n: nat)
    requires n <= |where|
    ensures |Equals(where, n)| == n && (MeetsAll(t, orderBy, Equals(where, n), r, n) <==> Matches(t, where[..n], r))
  {
    if n > 0 {
      MeetsEquals(t, orderBy, where, r, n - 1);
      MeetsFirst(t, orderBy, Equals(where, n - 1), [Equal(where[n - 1].0, where[n - 1].1)], r, n - 1);
      assert where[..n] == where[..n - 1] + [where[n - 1]];
    }
  }

  lemma {:induction false} KeptMultiplicity(t: Table, orderBy: string, cs: seq<Cond>, rows: seq<Row>, n: nat, r: Row)
    requires n <= |rows|
    ensures multiset(Kept(t, orderBy, cs, rows, n))[r] == if MeetsAll(t, orderBy, cs, r, |cs|) then multiset(rows[..n])[r] else 0
  {
    if n > 0 {
      KeptMultiplicity(t, orderBy, cs, rows, n - 1, r);
      assert rows[..n] == rows[..n - 1] + [rows[n - 1]];
    }
  }

  /** A query selects exactly the rows that match its filter, as often as the listing has them. */
  lemma {:induction false} SelectedExactly(t: Table, col: string, where: seq<(string, int)>, r: Row)
    ensures multiset(Selected(t, col, where))[r] == if Matches(t, where, r) then multiset(t.listing(col))[r] else 0
  {
    var rows := t.listing(col);
    assert where[..|where|] == where && rows[..|rows|] == rows;
    MeetsEquals(t, col, where, r, |where|);
    KeptMultiplicity(t, col, Equals(where, |where|), rows, |rows|, r);
  }

  /**
   Following the cursors of a query from the start yields every selected row
   exactly once and in order, if and only if no two of them tie across a
   boundary between full pages.
   */
  lemma {:induction false} CursorsCoverAllIff(t: Table, c: Codec, col: string, where: seq<(string, int)>, s: nat)
    requires Ordered(t, col, t.listing(col)) && Faithful(c) && s > 0
    ensures var rows := Selected(t, col, where);
      && Ordered(t, col, rows)
      && (Flatten(Follow(t, c, col, rows, "", s)) == rows <==> forall k :: k > 0 ==> NoTieAt(t, col, rows, Boundary(k, s)))
  {
    SelectedOrdered(t, col, where);
    CursorsCoverRows(t, c, col, Selected(t, col, where), s);
  }

  lemma {:induction false} DistinctNoTie(t: Table, col: string, rows: seq<Row>, s: nat, i: nat)
    requires Ordered(t, col, rows) && DistinctKeys(t, col, rows) && s > 0
    ensures NoTieFrom(t, col, rows, s, i)
    decreases |rows| - i
  {
    if i + s < |rows| {
      assert t.field(rows[i + s - 1], col) <= t.field(rows[i + s], col);
      assert t.field(rows[i + s - 1], col) != t.field(rows[i + s], col);
      DistinctNoTie(t, col, rows, s, i + s);
    }
  }

  // ------------------------------------------------------------- page k, how many

  /** The page at position i of the ordered rows. */
  function Chunk(rows: seq<Row>, i: nat, s: nat): (r: seq<Row>)
  {
    Limit(if i < |rows| then rows[i..] else [], s)
  }

  lemma {:induction false} PageK(t: Table, col: string, rows: seq<Row>, s: nat, i: nat, k: nat)
    requires s > 0 && i <= |rows| && NoTieFrom(t, col, rows, s, i)
    requires k < Count(Walk(t, col, rows, s, i))
    ensures Nth(Walk(t, col, rows, s, i), k) == Chunk(rows, i + Boundary(k, s), s)
    decreases |rows| - i
  {
    if k > 0 {
      assert FirstAfter(t, col, rows, t.field(rows[i + s - 1], col), i + s) == i + s;
      PageK(t, col, rows, s, i + s, k - 1);
      assert Boundary(k - 1, s) + s == Boundary(k, s);
    } else if i + s < |rows| {
      assert rows[i..][..s] == rows[i..i + s];
    }
  }

  /** Pages for m rows: one at least. */
  function PageCount(m: nat, s: nat): (n: nat)
    requires s > 0
  {
    if m == 0 then 1 else (m + s - 1) / s
  }

  /** Pages counted one by one. */
  function Steps(m: nat, s: nat): (n: nat)
    requires s > 0
  {
    if m <= s then 1 else 1 + Steps(m - s, s)
  }

  lemma {:induction false} StepsArePages(m: nat, s: nat)
    requires s > 0
    ensures Steps(m, s) == PageCount(m, s)
  {
    if m > s {
      StepsArePages(m - s, s);
      var q, r := (m - 1) / s, (m - 1) % s;
      DivModUnique(m + s - 1, s, q + 1, r);
      DivModUnique(m - 1, s, q, r);
    } else if m > 0 {
      DivModUnique(m + s - 1, s, 1, m - 1);
    }
  }

  lemma {:induction false} WalkCount(t: Table, col: string, rows: seq<Row>, s: nat, i: nat)
    requires s > 0 && i <= |rows| && NoTieFrom(t, col, rows, s, i)
    ensures Count(Walk(t, col, rows, s, i)) == Steps(|rows| - i, s)
    decreases |rows| - i
  {
    if i + s < |rows| {
      assert FirstAfter(t, col, rows, t.field(rows[i + s - 1], col), i + s) == i + s;
      WalkCount(t, col, rows, s, i + s);
    }
  }

  lemma {:induction false} WalkPages(t: Table, col: string, rows: seq<Row>, s: nat)
    requires s > 0 && NoTieFrom(t, col, rows, s, 0)
    ensures var pages := Walk(t, col, rows, s, 0);
      Count(pages) == PageCount(|rows|, s) && forall k :: 0 <= k < Count(pages) ==> Nth(pages, k) == OffsetPage(rows, k, s)
  {
    WalkCount(t, col, rows, s, 0);
    StepsArePages(|rows|, s);
    var pages := Walk(t, col, rows, s, 0);
    forall k | 0 <= k < Count(pages) ensures Nth(pages, k) == OffsetPage(rows, k, s) {
      PageK(t, col, rows, s, 0, k);
    }
  }

  lemma {:induction false} RowsMatchOffset(t: Table, c: Codec, col: string, rows: seq<Row>, s: nat)
    requires Ordered(t, col, rows) && DistinctKeys(t, col, rows) && Faithful(c) && s > 0
    ensures var pages := Follow(t, c, col, rows, "", s);
      && Flatten(pages) == rows && Count(pages) == PageCount(|rows|, s)
      && forall k :: 0 <= k < Count(pages) ==> Nth(pages, k) == OffsetPage(rows, k, s)
  {
    DistinctNoTie(t, col, rows, s, 0);
    FollowIsWalk(t, c, col, rows, "", s, 0);
    WalkComplete(t, col, rows, s, 0);
    assert rows[0..] == rows;
    WalkPages(t, col, rows, s);
  }

  /**
   With distinct values in the order column, following the cursors of a query
   yields all selected rows in order in max(1, ceil(n / s)) pages, and page k is
   the one that LIMIT and OFFSET give.
   */
  lemma {:induction false} KeysetMatchesOffset(t: Table, c: Codec, col: string, where: seq<(string, int)>, s: nat)
    requires Ordered(t, col, t.listing(col)) && DistinctKeys(t, col, t.listing(col)) && Faithful(c) && s > 0
    ensures var rows := Selected(t, col, where);
      && Ordered(t, col, rows)
      && var pages := Follow(t, c, col, rows, "", s);
         && Flatten(pages) == rows && Count(pages) == PageCount(|rows|, s)
         && forall k :: 0 <= k < Count(pages) ==> Nth(pages, k) == OffsetPage(rows, k, s)
  {
    SelectedOrdered(t, col, where);
    RowsMatchOffset(t, c, col, Selected(t, col, where), s);
  }

  /** Without conditions all rows are selected: the pages are those of QueryPaginated. */
  lemma {:induction false} UnfilteredSelectsAll(t: Table, col: string)
    ensures Selected(t, col, []) == t.listing(col)
  {
    KeptEverything(t, col, t.listing(col), |t.listing(col)|);
  }

  /** A tie across a boundary is skipped: two equal rows and pages of one. */
  lemma {:induction false} TieSkipped(t: Table, c: Codec, col: string, rows: seq<Row>)
    requires |rows| == 2 && t.field(rows[0], col) == t.field(rows[1], col) && Faithful(c)
    ensures Ordered(t, col, rows) && Flatten(Follow(t, c, col, rows, "", 1)) != rows
  {
    CursorsCoverRows(t, c, col, rows, 1);
    assert !NoTieAt(t, col, rows, Boundary(1, 1));
  }
}
