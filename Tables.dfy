/**
  The tables of the analytics page of lib/server.js. They only read the
  store. Each table lists rows of a post (or a referrer) and a count,
  sorted by decreasing count with `sortTable`, followed by a `Total` row
  whose count is the sum of the rows above it.

  - the visits table of a window `[start, end)`: one row per post with at
    least one visit in the window;
  - the referrers table of a window: one row per distinct non-empty referrer
    of the visits in the window, over all posts;
  - the all-time table: one row per post with its lifetime counter.

  The row-building loops are methods proved against the row sets they must
  produce; `Array.prototype.sort` is modelled by the function `SortTable`.
*/
module Tables {
  import opened Wrappers
  import opened Store

  /** A table row: `post` is a post id or a referrer, `count` its number of visits. */
  datatype Row = Row(post: string, count: int)

  const TotalLabel := "Total"

  function Sum(rows: seq<Row>): int
  {
    if rows == [] then 0 else rows[0].count + Sum(rows[1..])
  }

  lemma {:induction false} SumAppend(a: seq<Row>, b: seq<Row>)
    ensures Sum(a + b) == Sum(a) + Sum(b)
    decreases |a|
  {
    if a == [] {
      assert a + b == b;
    } else {
      assert (a + b)[1..] == a[1..] + b;
      SumAppend(a[1..], b);
    }
  }

  /** Sorted as `sortTable` sorts: by non-increasing count. */
  predicate SortedDesc(rows: seq<Row>)
  {
    forall i, j :: 0 <= i < j < |rows| ==> rows[i].count >= rows[j].count
  }

  function Insert(r: Row, rows: seq<Row>): (s: seq<Row>)
    requires SortedDesc(rows)
    ensures SortedDesc(s)
    ensures multiset(s) == multiset(rows) + multiset{r}
    ensures Sum(s) == Sum(rows) + r.count
    ensures s != [] && (s[0] == r || (rows != [] && s[0] == rows[0]))
    decreases |rows|
  {
    if rows == [] || r.count >= rows[0].count then
      assert ([r] + rows)[1..] == rows;
      [r] + rows
    else
      var rest := Insert(r, rows[1..]);
      InsertBehind(r, rows, rest);
      [rows[0]] + rest
  }

  /** Placing the head of `rows` before the insertion into its tail keeps the order. */
  lemma InsertBehind(r: Row, rows: seq<Row>, rest: seq<Row>)
    requires rows != [] && r.count < rows[0].count && SortedDesc(rows)
    requires SortedDesc(rest) && multiset(rest) == multiset(rows[1..]) + multiset{r}
    requires Sum(rest) == Sum(rows[1..]) + r.count
    requires rest != [] && (rest[0] == r || (|rows| > 1 && rest[0] == rows[1]))
    ensures SortedDesc([rows[0]] + rest)
    ensures multiset([rows[0]] + rest) == multiset(rows) + multiset{r}
    ensures Sum([rows[0]] + rest) == Sum(rows) + r.count
  {
    assert rows == [rows[0]] + rows[1..];
    assert ([rows[0]] + rest)[1..] == rest;
    var s := [rows[0]] + rest;
    forall i, j | 0 <= i < j < |s|
      ensures s[i].count >= s[j].count
    {
      if i == 0 {
        assert s[j] == rest[j - 1];
        assert rest[0].count >= rest[j - 1].count;
      }
    }
  }

  /**
    `sortTable`: the rows in non-increasing order of count. The order of rows
    with equal counts is left to the sort algorithm; this one keeps it fixed.
  */
  function SortTable(rows: seq<Row>): (s: seq<Row>)
    ensures SortedDesc(s)
    ensures multiset(s) == multiset(rows)
    ensures Sum(s) == Sum(rows)
    decreases |rows|
  {
    if rows == [] then []
    else
      assert rows == [rows[0]] + rows[1..];
      Insert(rows[0], SortTable(rows[1..]))
  }

  /** The `Total` row appended after the rows, its count computed by a left fold. */
  method AppendTotal(rows: seq<Row>) returns (table: seq<Row>)
    ensures table == rows + [Row(TotalLabel, Sum(rows))]
  {
    var total := 0;
    var i := 0;
    while i < |rows|
      invariant 0 <= i <= |rows|
      invariant total + Sum(rows[i..]) == Sum(rows)
    {
      assert rows[i..][1..] == rows[i + 1..];
      total := total + rows[i].count;
      i := i + 1;
    }
    table := rows + [Row(TotalLabel, total)];
  }

  /**
    A rendered table for the row set `rows`: each row of `rows` exactly once,
    sorted by non-increasing count, then the `Total` row with their sum.
  */
  ghost predicate IsTable(table: seq<Row>, rows: set<Row>)
  {
    && |table| >= 1
    && var body := table[..|table| - 1];
       && multiset(body) == multiset(rows)
       && SortedDesc(body)
       && table[|table| - 1] == Row(TotalLabel, Sum(body))
  }

  /** Sorting rows whose multiset is that of `rows` and appending the total yields a table for `rows`. */
  method Render(rows: seq<Row>, ghost expected: set<Row>) returns (table: seq<Row>)
    requires multiset(rows) == multiset(expected)
    ensures IsTable(table, expected)
    ensures table[|table| - 1].count == Sum(rows)
  {
    var sorted := SortTable(rows);
    table := AppendTotal(sorted);
    assert table[..|table| - 1] == sorted;
  }

  /** The body of a table lists each expected row once, and nothing else. */
  lemma TableRows(body: seq<Row>, rows: set<Row>)
    requires multiset(body) == multiset(rows)
    ensures forall i :: 0 <= i < |body| ==> body[i] in rows
    ensures forall r :: r in rows ==> r in body
    ensures forall i, j :: 0 <= i < j < |body| ==> body[i] != body[j]
  {
    forall i | 0 <= i < |body|
      ensures body[i] in rows
    {
      assert body[i] in multiset(body);
    }
    forall r | r in rows
      ensures r in body
    {
      assert r in multiset(rows);
    }
    forall i, j | 0 <= i < j < |body|
      ensures body[i] != body[j]
    {
      RepeatedRow(body, i, j);
    }
  }

  lemma RepeatedRow(body: seq<Row>, i: int, j: int)
    requires 0 <= i < j < |body|
    ensures body[i] == body[j] ==> multiset(body)[body[j]] >= 2
  {
    assert body == body[..j] + body[j..];
    assert body[i] in body[..j];
    assert body[j] in body[j..];
    assert multiset(body)[body[j]] == multiset(body[..j])[body[j]] + multiset(body[j..])[body[j]];
  }

  /** A row set grown by a row it lacked. */
  lemma AddRow(s: set<Row>, x: Row)
    requires x !in s
    ensures multiset(s + {x}) == multiset(s) + multiset{x}
  {
  }

  // ---------------------------------------------------------------------
  // Visits table

  predicate InWindow(v: Visit, start: int, end: int)
  {
    start <= v.timestamp < end
  }

  /** The number of visits in `[start, end)`. */
  function CountInWindow(visits: seq<Visit>, start: int, end: int): (n: nat)
    ensures n <= |visits|
    decreases |visits|
  {
    if visits == [] then 0
    else CountInWindow(visits[..|visits| - 1], start, end) + (if InWindow(visits[|visits| - 1], start, end) then 1 else 0)
  }

  /** The inner counting loop of `calculateVisitsTable`. */
  method CountVisits(visits: seq<Visit>, start: int, end: int) returns (n: nat)
    ensures n == CountInWindow(visits, start, end)
  {
    n := 0;
    var i := 0;
    while i < |visits|
      invariant 0 <= i <= |visits|
      invariant n == CountInWindow(visits[..i], start, end)
    {
      assert visits[..i + 1][..i] == visits[..i];
      if InWindow(visits[i], start, end) {
        n := n + 1;
      }
      i := i + 1;
    }
    assert visits[..i] == visits;
  }

  /** The rows of the visits table over the posts in `keys`: posts with visits in the window. */
  ghost function VisitRowsOf(posts: Posts, keys: set<string>, start: int, end: int): set<Row>
  {
    set k | k in keys && k in posts && CountInWindow(posts[k].visits, start, end) > 0
      :: Row(k, CountInWindow(posts[k].visits, start, end))
  }

  ghost function VisitRows(posts: Posts, start: int, end: int): set<Row>
  {
    VisitRowsOf(posts, posts.Keys, start, end)
  }

  /** `calculateVisitsTable(start, end)`. */
  method CalculateVisitsTable(posts: Posts, start: int, end: int) returns (table: seq<Row>)
    ensures IsTable(table, VisitRows(posts, start, end))
  {
    var rows: seq<Row> := [];
    var pending := posts.Keys;
    while pending != {}
      invariant pending <= posts.Keys
      invariant multiset(rows) == multiset(VisitRowsOf(posts, posts.Keys - pending, start, end))
      decreases pending
    {
      var k :| k in pending;
      ghost var done := posts.Keys - pending;
      var n := CountVisits(posts[k].visits, start, end);
      if n > 0 {
        rows := rows + [Row(k, n)];
        assert VisitRowsOf(posts, done + {k}, start, end) == VisitRowsOf(posts, done, start, end) + {Row(k, n)};
      } else {
        assert VisitRowsOf(posts, done + {k}, start, end) == VisitRowsOf(posts, done, start, end);
      }
      pending := pending - {k};
      assert posts.Keys - pending == done + {k};
    }
    table := Render(rows, VisitRows(posts, start, end));
  }

  /**
    What a visits table says: each row is a post with its number of visits in
    the window, which is positive; every post with a visit in the window has
    a row; no post has two; the rows are sorted; the last row is the total.
  */
  lemma VisitsTableMeaning(posts: Posts, start: int, end: int, table: seq<Row>)
    requires IsTable(table, VisitRows(posts, start, end))
    ensures var body := table[..|table| - 1];
            && (forall i :: 0 <= i < |body| ==>
                  body[i].post in posts && body[i].count == CountInWindow(posts[body[i].post].visits, start, end) > 0)
            && (forall k :: k in posts && CountInWindow(posts[k].visits, start, end) > 0 ==>
                  exists i :: 0 <= i < |body| && body[i].post == k)
            && (forall i, j :: 0 <= i < j < |body| ==> body[i].post != body[j].post)
            && SortedDesc(body)
            && table[|table| - 1] == Row(TotalLabel, Sum(body))
  {
    var body := table[..|table| - 1];
    var rows := VisitRows(posts, start, end);
    TableRows(body, rows);
    forall k | k in posts && CountInWindow(posts[k].visits, start, end) > 0
      ensures exists i :: 0 <= i < |body| && body[i].post == k
    {
      var r := Row(k, CountInWindow(posts[k].visits, start, end));
      assert r in rows;
      var i :| 0 <= i < |body| && body[i] == r;
    }
  }

  /**
    Recording a visit adds exactly one to the post's count in every window
    that contains its timestamp, and nothing in other windows.
  */
  lemma RecordedVisitCounted(posts: Posts, id: string, v: Visit, start: int, end: int)
    requires AddVisit(posts, id, v).0 == Recorded
    ensures var after := AddVisit(posts, id, v).1;
            var before := if id in posts then posts[id].visits else [];
            CountInWindow(after[id].visits, start, end) == CountInWindow(before, start, end) + (if InWindow(v, start, end) then 1 else 0)
  {
    var after := AddVisit(posts, id, v).1;
    var before := if id in posts then posts[id].visits else [];
    assert after[id].visits[..|after[id].visits| - 1] == before;
  }

  // ---------------------------------------------------------------------
  // All-time table

  ghost function AllTimeRows(posts: Posts): set<Row>
  {
    AllTimeRowsOf(posts, posts.Keys)
  }

  ghost function AllTimeRowsOf(posts: Posts, keys: set<string>): set<Row>
  {
    set k | k in keys && k in posts && posts[k].numVisits.Some? :: Row(k, posts[k].numVisits.value)
  }

  /**
    The all-time visits table: every post with its lifetime counter, zeros
    included. When some post has no numeric counter the page shows an
    undefined entry and a `NaN` total; that table is `None` here.
  */
  method CalculateAllTimeTable(posts: Posts) returns (table: Option<seq<Row>>)
    ensures table.None? <==> exists k :: k in posts && posts[k].numVisits.None?
    ensures table.Some? ==> IsTable(table.value, AllTimeRows(posts))
  {
    var rows: seq<Row> := [];
    var counted := true;
    var pending := posts.Keys;
    while pending != {}
      invariant pending <= posts.Keys
      invariant counted <==> forall k :: k in posts.Keys - pending ==> posts[k].numVisits.Some?
      invariant multiset(rows) == multiset(AllTimeRowsOf(posts, posts.Keys - pending))
      decreases pending
    {
      var k :| k in pending;
      ghost var done := posts.Keys - pending;
      AllTimeRowsStep(posts, done, k);
      if posts[k].numVisits.Some? {
        rows := rows + [Row(k, posts[k].numVisits.value)];
      } else {
        counted := false;
      }
      pending := pending - {k};
      assert posts.Keys - pending == done + {k};
    }
    assert posts.Keys - pending == posts.Keys;
    if !counted {
      return None;
    }
    var t := Render(rows, AllTimeRows(posts));
    return Some(t);
  }

  lemma AllTimeRowsStep(posts: Posts, done: set<string>, k: string)
    requires k in posts && k !in done
    ensures multiset(AllTimeRowsOf(posts, done + {k})) ==
            multiset(AllTimeRowsOf(posts, done)) +
            (if posts[k].numVisits.Some? then multiset{Row(k, posts[k].numVisits.value)} else multiset{})
  {
    if posts[k].numVisits.Some? {
      var x := Row(k, posts[k].numVisits.value);
      assert AllTimeRowsOf(posts, done + {k}) == AllTimeRowsOf(posts, done) + {x};
      AddRow(AllTimeRowsOf(posts, done), x);
    } else {
      assert AllTimeRowsOf(posts, done + {k}) == AllTimeRowsOf(posts, done);
    }
  }

  /**
    What the all-time table says when every post has a counter: every post
    has exactly one row, with its lifetime count, zeros included; the rows are
    sorted and the last row is their total.
  */
  lemma AllTimeTableMeaning(posts: Posts, table: seq<Row>)
    requires IsTable(table, AllTimeRows(posts))
    requires forall k :: k in posts ==> posts[k].numVisits.Some?
    ensures var body := table[..|table| - 1];
            && (forall i :: 0 <= i < |body| ==> body[i].post in posts && Some(body[i].count) == posts[body[i].post].numVisits)
            && (forall k :: k in posts ==> exists i :: 0 <= i < |body| && body[i].post == k)
            && (forall i, j :: 0 <= i < j < |body| ==> body[i].post != body[j].post)
            && SortedDesc(body)
            && table[|table| - 1] == Row(TotalLabel, Sum(body))
  {
    var body := table[..|table| - 1];
    var rows := AllTimeRows(posts);
    TableRows(body, rows);
    forall k | k in posts
      ensures exists i :: 0 <= i < |body| && body[i].post == k
    {
      var r := Row(k, posts[k].numVisits.value);
      assert r in rows;
      var i :| 0 <= i < |body| && body[i] == r;
    }
  }

  // ---------------------------------------------------------------------
  // Referrers table

  predicate CountsReferrer(v: Visit, start: int, end: int)
  {
    InWindow(v, start, end) && v.referrer != ""
  }

  /** The non-empty referrers of the visits in the window, with multiplicity. */
  ghost function PostReferrers(visits: seq<Visit>, start: int, end: int): (bag: multiset<string>)
    ensures |bag| <= |visits|
    decreases |visits|
  {
    if visits == [] then multiset{}
    else
      var last := visits[|visits| - 1];
      PostReferrers(visits[..|visits| - 1], start, end) +
      (if CountsReferrer(last, start, end) then multiset{last.referrer} else multiset{})
  }

  /** The non-empty referrers of the in-window visits of all posts, with multiplicity. */
  ghost function ReferrerBag(posts: Posts, start: int, end: int): multiset<string>
    decreases posts.Keys
  {
    if posts == map[] then multiset{}
    else
      var k :| k in posts;
      PostReferrers(posts[k].visits, start, end) + ReferrerBag(posts - {k}, start, end)
  }

  /** The referrer bag does not depend on the order in which posts are taken. */
  lemma {:induction false} ReferrerBagRemove(posts: Posts, k: string, start: int, end: int)
    requires k in posts
    ensures ReferrerBag(posts, start, end) == PostReferrers(posts[k].visits, start, end) + ReferrerBag(posts - {k}, start, end)
    decreases posts.Keys
  {
    var j :| j in posts && ReferrerBag(posts, start, end) == PostReferrers(posts[j].visits, start, end) + ReferrerBag(posts - {j}, start, end);
    if j != k {
      assert posts - {k} - {j} == posts - {j} - {k};
      calc {
        ReferrerBag(posts, start, end);
        PostReferrers(posts[j].visits, start, end) + ReferrerBag(posts - {j}, start, end);
        { ReferrerBagRemove(posts - {j}, k, start, end); }
        PostReferrers(posts[j].visits, start, end) +
          (PostReferrers(posts[k].visits, start, end) + ReferrerBag(posts - {j} - {k}, start, end));
        PostReferrers(posts[k].visits, start, end) +
          (PostReferrers(posts[j].visits, start, end) + ReferrerBag(posts - {k} - {j}, start, end));
        { ReferrerBagRemove(posts - {k}, j, start, end); }
        PostReferrers(posts[k].visits, start, end) + ReferrerBag(posts - {k}, start, end);
      }
    }
  }

  /** A count map holding, for each referrer of `bag`, its multiplicity. */
  ghost predicate Counts(counts: map<string, int>, bag: multiset<string>)
  {
    counts == map r | r in bag :: bag[r]
  }

  /** Counting one more occurrence of `r`. */
  lemma CountOne(counts: map<string, int>, bag: multiset<string>, r: string)
    requires Counts(counts, bag)
    ensures Counts(if r in counts then counts[r := counts[r] + 1] else counts[r := 1], bag + multiset{r})
  {
    var bumped := if r in counts then counts[r := counts[r] + 1] else counts[r := 1];
    var grown := bag + multiset{r};
    assert forall q :: q in bumped <==> q in grown;
    assert forall q :: q in bumped ==> bumped[q] == grown[q];
  }

  lemma PostReferrersSnoc(visits: seq<Visit>, i: int, start: int, end: int)
    requires 0 <= i < |visits|
    ensures PostReferrers(visits[..i + 1], start, end) ==
            PostReferrers(visits[..i], start, end) +
            (if CountsReferrer(visits[i], start, end) then multiset{visits[i].referrer} else multiset{})
  {
    assert visits[..i + 1][..i] == visits[..i];
  }

  /** The inner loop of `calculateReferrersTable`: counts one post's in-window referrers. */
  method CountReferrers(counts: map<string, int>, visits: seq<Visit>, start: int, end: int, ghost bag: multiset<string>)
    returns (updated: map<string, int>)
    requires Counts(counts, bag)
    ensures Counts(updated, bag + PostReferrers(visits, start, end))
  {
    updated := counts;
    var i := 0;
    while i < |visits|
      invariant 0 <= i <= |visits|
      invariant Counts(updated, bag + PostReferrers(visits[..i], start, end))
    {
      PostReferrersSnoc(visits, i, start, end);
      ghost var before := bag + PostReferrers(visits[..i], start, end);
      var v := visits[i];
      if CountsReferrer(v, start, end) {
        CountOne(updated, before, v.referrer);
        if v.referrer !in updated {
          updated := updated[v.referrer := 1];
        } else {
          updated := updated[v.referrer := updated[v.referrer] + 1];
        }
        assert bag + PostReferrers(visits[..i + 1], start, end) == before + multiset{v.referrer};
      } else {
        assert bag + PostReferrers(visits[..i + 1], start, end) == before;
      }
      i := i + 1;
    }
    assert visits[..i] == visits;
  }

  ghost function ReferrerRowsOf(bag: multiset<string>, keys: set<string>): set<Row>
  {
    set r | r in bag && r in keys :: Row(r, bag[r])
  }

  /** The rows of the referrers table: each referrer of `bag` with its multiplicity. */
  ghost function ReferrerRows(bag: multiset<string>): set<Row>
  {
    ReferrerRowsOf(bag, set r | r in bag)
  }

  lemma ReferrerRowsStep(bag: multiset<string>, done: set<string>, r: string)
    requires r in bag && r !in done
    ensures multiset(ReferrerRowsOf(bag, done + {r})) == multiset(ReferrerRowsOf(bag, done)) + multiset{Row(r, bag[r])}
  {
    assert ReferrerRowsOf(bag, done + {r}) == ReferrerRowsOf(bag, done) + {Row(r, bag[r])};
    AddRow(ReferrerRowsOf(bag, done), Row(r, bag[r]));
  }

  /** The loop over the count object: one row per referrer. */
  method ReferrerTableRows(counts: map<string, int>, ghost bag: multiset<string>) returns (rows: seq<Row>)
    requires Counts(counts, bag)
    ensures multiset(rows) == multiset(ReferrerRows(bag))
  {
    rows := [];
    var pending := counts.Keys;
    while pending != {}
      invariant pending <= counts.Keys
      invariant multiset(rows) == multiset(ReferrerRowsOf(bag, counts.Keys - pending))
      decreases pending
    {
      var r :| r in pending;
      ghost var done := counts.Keys - pending;
      ReferrerRowsStep(bag, done, r);
      rows := rows + [Row(r, counts[r])];
      pending := pending - {r};
      assert counts.Keys - pending == done + {r};
    }
    assert ReferrerRowsOf(bag, counts.Keys) == ReferrerRows(bag);
  }

  /** `calculateReferrersTable(start, end)`. */
  method CalculateReferrersTable(posts: Posts, start: int, end: int) returns (table: seq<Row>)
    ensures IsTable(table, ReferrerRows(ReferrerBag(posts, start, end)))
  {
    var counts: map<string, int> := map[];
    ghost var bag: multiset<string> := multiset{};
    ghost var rest := posts;
    var pending := posts.Keys;
    while pending != {}
      invariant rest.Keys == pending && forall k :: k in rest ==> k in posts && rest[k] == posts[k]
      invariant bag + ReferrerBag(rest, start, end) == ReferrerBag(posts, start, end)
      invariant Counts(counts, bag)
      decreases pending
    {
      var k :| k in pending;
      ReferrerBagRemove(rest, k, start, end);
      ghost var here := PostReferrers(posts[k].visits, start, end);
      assert bag + here + ReferrerBag(rest - {k}, start, end) == ReferrerBag(posts, start, end);
      counts := CountReferrers(counts, posts[k].visits, start, end, bag);
      bag := bag + here;
      rest := rest - {k};
      pending := pending - {k};
    }
    assert rest == map[];
    assert bag == ReferrerBag(posts, start, end);
    var rows := ReferrerTableRows(counts, bag);
    table := Render(rows, ReferrerRows(bag));
  }

  /**
    What a referrers table says: each row is a distinct non-empty referrer
    with the number of in-window visits (over all posts) that carry it, and
    the total is the number of in-window visits with a non-empty referrer.
  */
  lemma ReferrersTableMeaning(bag: multiset<string>, table: seq<Row>)
    requires IsTable(table, ReferrerRows(bag))
    ensures var body := table[..|table| - 1];
            && (forall i :: 0 <= i < |body| ==> body[i].post in bag && body[i].count == bag[body[i].post])
            && (forall r :: r in bag ==> exists i :: 0 <= i < |body| && body[i].post == r)
            && (forall i, j :: 0 <= i < j < |body| ==> body[i].post != body[j].post)
            && table[|table| - 1].count == |bag|
  {
    var body := table[..|table| - 1];
    var rows := ReferrerRows(bag);
    TableRows(body, rows);
    forall r | r in bag
      ensures exists i :: 0 <= i < |body| && body[i].post == r
    {
      assert Row(r, bag[r]) in rows;
      var i :| 0 <= i < |body| && body[i] == Row(r, bag[r]);
    }
    TotalOfRows(bag, body);
  }

  /** Rows listing each element of a bag once with its multiplicity add up to the bag's size. */
  lemma {:induction false} TotalOfRows(bag: multiset<string>, body: seq<Row>)
    requires multiset(body) == multiset(ReferrerRows(bag))
    ensures Sum(body) == |bag|
    decreases |body|
  {
    if bag == multiset{} {
      assert ReferrerRows(bag) == {};
      assert |multiset(body)| == 0;
    } else {
      var q :| q in bag;
      assert Row(q, bag[q]) in multiset(body);
      var x := body[0];
      assert x in multiset(body);
      var r := x.post;
      var smaller := bag[r := 0];
      ReferrerRowsDrop(bag, r);
      assert body == [x] + body[1..];
      assert multiset(body[1..]) == multiset(body) - multiset{x};
      RemoveRow(ReferrerRows(bag), x);
      TotalOfRows(smaller, body[1..]);
    }
  }

  /** Taking a referrer out of the bag takes its row out of the rows. */
  lemma ReferrerRowsDrop(bag: multiset<string>, r: string)
    requires r in bag
    ensures ReferrerRows(bag[r := 0]) == ReferrerRows(bag) - {Row(r, bag[r])}
    ensures |bag[r := 0]| == |bag| - bag[r]
  {
    var smaller := bag[r := 0];
    forall x | x in ReferrerRows(bag) - {Row(r, bag[r])}
      ensures x in ReferrerRows(smaller)
    {
      assert x.post in smaller;
    }
    var single := multiset{}[r := bag[r]];
    assert bag == smaller + single;
  }

  lemma RemoveRow(s: set<Row>, x: Row)
    requires x in s
    ensures multiset(s - {x}) == multiset(s) - multiset{x}
  {
  }
}
