/**
 The display history: a table of at most 1000 rows ordered by the string `displayedAt`, and its pages.
 The order of rows with equal keys is the database's choice, so queries are relations here.
 */
module History {
  import opened Timestamps
  import opened Wrappers

  const MAX_ROWS := 1000

  /** `id` is a fresh UUID; `displayedAt` is compared as a string; `fields` stands for the remaining columns. */
  datatype Row = Row(id: string, displayedAt: string, fields: seq<string>)

  // ----- inserting ------------------------------------------------------------------------------

  predicate IsOldest(rows: seq<Row>, k: nat)
  {
    k < |rows| && forall j | 0 <= j < |rows| :: !Less(rows[j].displayedAt, rows[k].displayedAt)
  }

  function Without(rows: seq<Row>, k: nat): seq<Row>
    requires k < |rows|
  {
    rows[..k] + rows[k + 1..]
  }

  /** One insert: a full table first loses a row with the smallest key. */
  ghost predicate Inserted(before: seq<Row>, row: Row, after: seq<Row>)
  {
    if |before| < MAX_ROWS then after == before + [row]
    else exists k :: IsOldest(before, k) && after == Without(before, k) + [row]
  }

  lemma {:induction false} SomeOldest(rows: seq<Row>) returns (k: nat)
    requires rows != []
    ensures IsOldest(rows, k)
  {
    var last := |rows| - 1;
    if last == 0 {
      k := 0;
      if Less(rows[0].displayedAt, rows[0].displayedAt) { LessIsAsymmetric(rows[0].displayedAt, rows[0].displayedAt); }
    } else {
      k := SomeOldest(rows[..last]);
      assert forall j | 0 <= j < last :: rows[..last][j] == rows[j];
      if Less(rows[last].displayedAt, rows[k].displayedAt) {
        var old_ := k;
        k := last;
        forall j | 0 <= j < |rows|
          ensures !Less(rows[j].displayedAt, rows[last].displayedAt)
        {
          if Less(rows[j].displayedAt, rows[last].displayedAt) {
            if j == last {
              LessIsAsymmetric(rows[j].displayedAt, rows[last].displayedAt);
            } else {
              LessIsTransitive(rows[j].displayedAt, rows[last].displayedAt, rows[old_].displayedAt);
            }
          }
        }
      }
    }
  }

  class HistoryTable {
    var rows: seq<Row>

    constructor ()
      ensures rows == []
    {
      rows := [];
    }

    method Insert(fields: seq<string>, newId: string, now: string) returns (row: Row)
      modifies this
      ensures row == Row(newId, now, fields)
      ensures Inserted(old(rows), row, rows)
    {
      row := Row(newId, now, fields);
      var count := |rows|;
      if count >= MAX_ROWS {
        ghost var some := SomeOldest(rows);
        var oldest: nat :| oldest < |rows| && IsOldest(rows, oldest);
        rows := Without(rows, oldest);
      }
      rows := rows + [row];
    }

    method FindAll(matches: Row -> bool) returns (items: seq<Row>)
      ensures IsAnswer(items, Matching(rows, matches))
      ensures forall r :: multiset(items)[r] == if matches(r) then multiset(rows)[r] else 0
      ensures forall i, j | 0 <= i < j < |items| :: !Less(items[i].displayedAt, items[j].displayedAt)
    {
      items := AnOrder(Matching(rows, matches));
      AnOrderIsAnswer(Matching(rows, matches));
      forall r ensures multiset(items)[r] == if matches(r) then multiset(rows)[r] else 0 {
        MatchingCounts(rows, matches, r);
      }
    }

    /** Pages are numbered from 1. */
    method FindPaginated(matches: Row -> bool, page: nat, size: nat) returns (items: seq<Row>, total: nat)
      requires page >= 1 && size >= 1
      ensures exists q :: IsAnswer(q, Matching(rows, matches)) && total == |q| &&
                          items == Page(q, size, page)
      ensures exists q :: Answers(q, rows, matches) && items == Page(q, size, page)
      ensures total == |set k | 0 <= k < |rows| && matches(rows[k])|
    {
      var q := FindAll(matches);
      MatchingSize(rows, matches);
      SameLength(q, Matching(rows, matches));
      assert Answers(q, rows, matches);
      total := |q|;
      items := Page(q, size, page);
    }

    /** GET /history: whatever page and size are asked for, a page from 1 on of 1 to 200 rows is looked up. */
    method Browse(matches: Row -> bool, page: Option<int>, size: Option<int>)
      returns (items: seq<Row>, total: nat, usedPage: nat, usedSize: nat)
      ensures match page
              case None => usedPage == 1
              case Some(p) => if p < 1 then usedPage == 1 else usedPage == p
      ensures match size
              case None => usedSize == 20
              case Some(n) => if n < 1 then usedSize == 1 else if n > 200 then usedSize == 200 else usedSize == n
      ensures exists q :: IsAnswer(q, Matching(rows, matches)) && total == |q| &&
                          items == Page(q, usedSize, usedPage)
      ensures exists q :: Answers(q, rows, matches) && items == Page(q, usedSize, usedPage)
      ensures total == |set k | 0 <= k < |rows| && matches(rows[k])|
    {
      usedPage := if page.None? || page.value < 1 then 1 else page.value;
      usedSize := if size.None? then 20 else if size.value < 1 then 1 else if size.value > 200 then 200 else size.value;
      items, total := FindPaginated(matches, usedPage, usedSize);
    }
  }

  /** A table after each of a series of inserts into an empty one. */
  ghost predicate IsRun(tables: seq<seq<Row>>, inserted: seq<Row>)
  {
    |tables| == |inserted| + 1 && tables[0] == [] &&
    forall i | 0 <= i < |inserted| :: Inserted(tables[i], inserted[i], tables[i + 1])
  }

  predicate Increasing(rows: seq<Row>)
  {
    forall i, j | 0 <= i < j < |rows| :: Less(rows[i].displayedAt, rows[j].displayedAt)
  }

  function Last(rows: seq<Row>, n: nat): seq<Row> { if |rows| <= n then rows else rows[|rows| - n..] }

  /** Whatever the keys, the table never outgrows its limit, and the newest row is in it. */
  lemma {:induction false} NeverTooMany(tables: seq<seq<Row>>, inserted: seq<Row>)
    requires IsRun(tables, inserted)
    ensures |tables[|inserted|]| == if |inserted| < 1000 then |inserted| else 1000
    ensures inserted != [] ==> inserted[|inserted| - 1] in tables[|inserted|]
  {
    if inserted != [] {
      var n := |inserted| - 1;
      NeverTooMany(tables[..n + 1], inserted[..n]);
      assert Inserted(tables[n], inserted[n], tables[n + 1]);
      assert tables[n + 1][|tables[n + 1]| - 1] == inserted[n];
    }
  }

  predicate DistinctRows(rows: seq<Row>) { forall i, j | 0 <= i < j < |rows| :: rows[i] != rows[j] }

  /** A row's key is smaller than those of the 999 rows after it, if it has to go before the series is over. */
  predicate EvictsInOrder(inserted: seq<Row>)
  {
    forall i, j | 0 <= i < j < i + MAX_ROWS < |inserted| :: Less(inserted[i].displayedAt, inserted[j].displayedAt)
  }

  /** After every insert the table is the last 1000 rows inserted, in order. */
  ghost predicate AlwaysTheLast(tables: seq<seq<Row>>, inserted: seq<Row>)
    requires |tables| == |inserted| + 1
  {
    forall n | 0 <= n <= |inserted| :: tables[n] == Last(inserted[..n], MAX_ROWS)
  }

  lemma OldestIsFirst(rows: seq<Row>, k: nat)
    requires forall j | 0 < j < |rows| :: Less(rows[0].displayedAt, rows[j].displayedAt)
    requires IsOldest(rows, k)
    ensures k == 0
  {
    hide Less;
    assert !Less(rows[0].displayedAt, rows[k].displayedAt);
  }

  lemma SliceStep(rows: seq<Row>, low: nat, n: nat)
    requires low < n < |rows|
    ensures Without(rows[low..n], 0) + [rows[n]] == rows[low + 1..n + 1]
  {
  }

  lemma LastIs(rows: seq<Row>, n: nat)
    requires n <= |rows|
    ensures Last(rows[..n], MAX_ROWS) == rows[if n < MAX_ROWS then 0 else n - MAX_ROWS..n]
  {
  }

  /** A step of the sliding window of the last 1000 rows. */
  lemma SlidesOn(inserted: seq<Row>, n: nat, after: seq<Row>)
    requires n < |inserted| && EvictsInOrder(inserted)
    requires Inserted(Last(inserted[..n], MAX_ROWS), inserted[n], after)
    ensures after == Last(inserted[..n + 1], MAX_ROWS)
  {
    LastIs(inserted, n);
    LastIs(inserted, n + 1);
    hide Less, Last;
    if n >= MAX_ROWS {
      var low := n - MAX_ROWS;
      var before := inserted[low..n];
      var k: nat :| IsOldest(before, k) && after == Without(before, k) + [inserted[n]];
      forall j | 0 < j < |before|
        ensures Less(before[0].displayedAt, before[j].displayedAt)
      {
        assert before[j] == inserted[low + j];
      }
      hide EvictsInOrder;
      OldestIsFirst(before, k);
      SliceStep(inserted, low, n);
    } else {
      assert inserted[..n + 1] == inserted[..n] + [inserted[n]];
    }
  }

  lemma NothingLasts()
    ensures Last([], MAX_ROWS) == []
  {
  }

  lemma {:induction false} TableIsLast(tables: seq<seq<Row>>, inserted: seq<Row>, n: nat)
    requires IsRun(tables, inserted) && EvictsInOrder(inserted) && n <= |inserted|
    ensures tables[n] == Last(inserted[..n], MAX_ROWS)
  {
    hide Inserted, Last, EvictsInOrder;
    if n == 0 {
      NothingLasts();
      assert inserted[..0] == [];
    } else {
      TableIsLast(tables, inserted, n - 1);
      SlidesOn(inserted, n - 1, tables[n]);
    }
  }

  lemma SomeInsert(before: seq<Row>, row: Row) returns (after: seq<Row>)
    ensures Inserted(before, row, after)
  {
    if |before| < MAX_ROWS {
      after := before + [row];
    } else {
      var k := SomeOldest(before);
      after := Without(before, k) + [row];
    }
  }

  /** Every run can go on to the end of the series. */
  lemma {:induction false} RunGoesOn(tables: seq<seq<Row>>, inserted: seq<Row>, n: nat) returns (full: seq<seq<Row>>)
    requires n <= |inserted| && IsRun(tables, inserted[..n])
    ensures IsRun(full, inserted) && full[..n + 1] == tables
    decreases |inserted| - n
  {
    hide Inserted;
    if n == |inserted| {
      assert inserted[..n] == inserted;
      full := tables;
    } else {
      var after := SomeInsert(tables[n], inserted[n]);
      full := RunGoesOn(tables + [after], inserted, n + 1);
      assert full[..n + 1] == full[..n + 2][..n + 1] == tables;
    }
  }

  /** If the first row's key is not smaller than another's, the database may delete some other row. */
  lemma OtherOldest(rows: seq<Row>, j: nat) returns (k: nat)
    requires 0 < j < |rows| && !Less(rows[0].displayedAt, rows[j].displayedAt)
    ensures k > 0 && IsOldest(rows, k)
  {
    k := SomeOldest(rows);
    if k == 0 {
      assert !Less(rows[j].displayedAt, rows[0].displayedAt);
      LessIsTotal(rows[0].displayedAt, rows[j].displayedAt);
      k := j;
    }
  }

  /** An insert that deletes another row than the one inserted first. */
  lemma WrongInsert(inserted: seq<Row>, n: nat, j: nat) returns (after: seq<Row>)
    requires DistinctRows(inserted) && MAX_ROWS <= n < |inserted| && n - MAX_ROWS < j < n
    requires !Less(inserted[n - MAX_ROWS].displayedAt, inserted[j].displayedAt)
    ensures Inserted(inserted[n - MAX_ROWS..n], inserted[n], after) && after != inserted[n + 1 - MAX_ROWS..n + 1]
  {
    hide Less, IsOldest;
    var low := n - MAX_ROWS;
    var before := inserted[low..n];
    assert before[j - low] == inserted[j] && before[0] == inserted[low];
    var k := OtherOldest(before, j - low);
    after := Without(before, k) + [inserted[n]];
    assert after[0] == inserted[low] != inserted[low + 1];
  }

  /** A run whose step n is such an insert. */
  lemma WrongEviction(tables: seq<seq<Row>>, inserted: seq<Row>, n: nat, j: nat) returns (full: seq<seq<Row>>)
    requires IsRun(tables, inserted) && DistinctRows(inserted)
    requires MAX_ROWS <= n < |inserted| && n - MAX_ROWS < j < n
    requires !Less(inserted[n - MAX_ROWS].displayedAt, inserted[j].displayedAt)
    requires tables[n] == Last(inserted[..n], MAX_ROWS)
    ensures IsRun(full, inserted) && full[n + 1] != Last(inserted[..n + 1], MAX_ROWS)
  {
    hide Less, Last, Inserted;
    LastIs(inserted, n);
    LastIs(inserted, n + 1);
    var after := WrongInsert(inserted, n, j);
    hide DistinctRows;
    full := RunGoesOn(tables[..n + 1] + [after], inserted, n + 1);
    assert full[n + 1] == full[..n + 2][n + 1] == after;
  }

  /**
   However the database chooses among smallest keys, the table is the last 1000 rows inserted after every insert,
   if and only if each time it is full the row inserted first has a key smaller than all others in it.
   */
  lemma {:induction false} KeepsTheLastIff(inserted: seq<Row>)
    requires DistinctRows(inserted)
    ensures (forall tables | IsRun(tables, inserted) :: AlwaysTheLast(tables, inserted)) <==> EvictsInOrder(inserted)
  {
    hide Less, Inserted, Last;
    if EvictsInOrder(inserted) {
      forall tables | IsRun(tables, inserted)
        ensures AlwaysTheLast(tables, inserted)
      {
        forall n | 0 <= n <= |inserted|
          ensures tables[n] == Last(inserted[..n], MAX_ROWS)
        {
          TableIsLast(tables, inserted, n);
        }
      }
    } else {
      var i, j :| 0 <= i < j < i + MAX_ROWS < |inserted| && !Less(inserted[i].displayedAt, inserted[j].displayedAt);
      assert IsRun([[]], inserted[..0]);
      var tables := RunGoesOn([[]], inserted, 0);
      if AlwaysTheLast(tables, inserted) {
        var wrong := WrongEviction(tables, inserted, i + MAX_ROWS, j);
        assert !AlwaysTheLast(wrong, inserted);
      }
    }
  }

  /** With strictly increasing keys it always is. */
  lemma {:induction false} KeepsTheLast(tables: seq<seq<Row>>, inserted: seq<Row>)
    requires IsRun(tables, inserted) && Increasing(inserted)
    ensures tables[|inserted|] == Last(inserted, MAX_ROWS)
  {
    assert inserted[..|inserted|] == inserted;
    TableIsLast(tables, inserted, |inserted|);
  }

  /** The keys are the instants of a clock that only goes forward. */
  ghost predicate Stamped(inserted: seq<Row>, clock: seq<Instant>)
  {
    |clock| == |inserted| &&
    (forall i | 0 <= i < |clock| :: InRange(clock[i]) && inserted[i].displayedAt == ToString(clock[i])) &&
    (forall i, j | 0 <= i < j < |clock| :: Before(clock[i], clock[j]))
  }

  /**
   Even with a clock that only goes forward, the table is always the last 1000 rows if and only if no full
   table holds, from the second of its first row, a row with more digits that begin with the first row's.
   */
  lemma {:induction false} ClockKeepsTheLastIff(inserted: seq<Row>, clock: seq<Instant>)
    requires DistinctRows(inserted) && Stamped(inserted, clock)
    ensures (forall tables | IsRun(tables, inserted) :: AlwaysTheLast(tables, inserted))
       <==> forall i, j | 0 <= i < j < i + MAX_ROWS < |inserted| :: !CutShort(clock[i], clock[j])
  {
    hide Less, Inserted, Last, ToString, CutShort, Before, InRange, IsRun, AlwaysTheLast, DistinctRows;
    KeepsTheLastIff(inserted);
    forall i, j | 0 <= i < j < i + MAX_ROWS < |inserted|
      ensures Less(inserted[i].displayedAt, inserted[j].displayedAt) <==> !CutShort(clock[i], clock[j])
    {
      StringOrderIsClockOrderIff(clock[i], clock[j]);
    }
  }

  // ----- querying -------------------------------------------------------------------------------

  function Matching(rows: seq<Row>, matches: Row -> bool): seq<Row>
  {
    if rows == [] then []
    else Matching(rows[..|rows| - 1], matches) + if matches(rows[|rows| - 1]) then [rows[|rows| - 1]] else []
  }

  /** A row is among them as often as it is in the table, if it matches, and otherwise never. */
  lemma {:induction false} MatchingCounts(rows: seq<Row>, matches: Row -> bool, r: Row)
    ensures multiset(Matching(rows, matches))[r] == if matches(r) then multiset(rows)[r] else 0
  {
    if rows != [] {
      MatchingCounts(rows[..|rows| - 1], matches, r);
      assert rows == rows[..|rows| - 1] + [rows[|rows| - 1]];
    }
  }

  lemma {:induction false} MatchingSize(rows: seq<Row>, matches: Row -> bool)
    ensures |Matching(rows, matches)| == |set k | 0 <= k < |rows| && matches(rows[k])|
  {
    var places := set k | 0 <= k < |rows| && matches(rows[k]);
    if rows == [] {
      assert places == {};
    } else {
      var n := |rows| - 1;
      var before := set k | 0 <= k < n && matches(rows[..n][k]);
      MatchingSize(rows[..n], matches);
      if matches(rows[n]) {
        assert places == before + {n};
      } else {
        assert places == before;
      }
    }
  }

  /** All rows that match, each as often as the table has it and no others, newest key first. */
  ghost predicate Answers(items: seq<Row>, rows: seq<Row>, matches: Row -> bool)
  {
    (forall r :: multiset(items)[r] == if matches(r) then multiset(rows)[r] else 0) &&
    (forall i, j | 0 <= i < j < |items| :: !Less(items[i].displayedAt, items[j].displayedAt))
  }

  predicate Descending(rows: seq<Row>)
  {
    forall i, j | 0 <= i < j < |rows| :: !Less(rows[i].displayedAt, rows[j].displayedAt)
  }

  /** What a query may return: the matching rows, newest key first, rows of equal keys in any order. */
  ghost predicate IsAnswer(answer: seq<Row>, matched: seq<Row>)
  {
    multiset(answer) == multiset(matched) && Descending(answer)
  }

  /** LIMIT size OFFSET offset */
  function Slice(rows: seq<Row>, offset: nat, size: nat): seq<Row>
  {
    if offset >= |rows| then [] else if offset + size >= |rows| then rows[offset..] else rows[offset..offset + size]
  }

  /** Page k of size rows, counted from 1. */
  function Page(rows: seq<Row>, size: nat, k: nat): seq<Row>
    requires k >= 1
  {
    Slice(rows, (k - 1) * size, size)
  }

  lemma PlaceIsRight(rows: seq<Row>, row: Row, i: nat, j: nat)
    requires Descending(rows) && i <= |rows| && j < |rows|
    requires forall j | 0 <= j < i :: Less(row.displayedAt, rows[j].displayedAt)
    requires i < |rows| ==> !Less(row.displayedAt, rows[i].displayedAt)
    ensures if j < i then !Less(rows[j].displayedAt, row.displayedAt) else !Less(row.displayedAt, rows[j].displayedAt)
  {
    if j < i {
      LessIsAsymmetric(row.displayedAt, rows[j].displayedAt);
    } else if Less(row.displayedAt, rows[j].displayedAt) && i < j {
      LessIsTotal(rows[i].displayedAt, rows[j].displayedAt);
      LessIsTransitive(row.displayedAt, rows[j].displayedAt, rows[i].displayedAt);
    }
  }

  /** The place of a row among rows in descending order. */
  function PlaceOf(rows: seq<Row>, row: Row): (i: nat)
    ensures i <= |rows| && (i < |rows| ==> !Less(row.displayedAt, rows[i].displayedAt))
    ensures forall j | 0 <= j < i :: Less(row.displayedAt, rows[j].displayedAt)
  {
    if rows == [] || !Less(row.displayedAt, rows[0].displayedAt) then 0 else 1 + PlaceOf(rows[1..], row)
  }

  /** One order the database may choose. */
  function AnOrder(matched: seq<Row>): seq<Row>
  {
    if matched == [] then []
    else
      var rest, row := AnOrder(matched[..|matched| - 1]), matched[|matched| - 1];
      rest[..PlaceOf(rest, row)] + [row] + rest[PlaceOf(rest, row)..]
  }

  lemma {:induction false} AnOrderIsAnswer(matched: seq<Row>)
    ensures IsAnswer(AnOrder(matched), matched)
  {
    if matched != [] {
      var front, row := matched[..|matched| - 1], matched[|matched| - 1];
      AnOrderIsAnswer(front);
      assert matched == front + [row];
      RowPlaced(AnOrder(front), row);
    }
  }

  lemma PlacedDescending(rows: seq<Row>, row: Row, i: nat)
    requires Descending(rows) && i <= |rows|
    requires forall j | 0 <= j < |rows| ::
               if j < i then !Less(rows[j].displayedAt, row.displayedAt)
               else !Less(row.displayedAt, rows[j].displayedAt)
    ensures Descending(rows[..i] + [row] + rows[i..])
  {
    hide Less;
  }

  lemma RowPlaced(rows: seq<Row>, row: Row)
    requires Descending(rows)
    ensures var i := PlaceOf(rows, row); var q := rows[..i] + [row] + rows[i..];
            Descending(q) && multiset(q) == multiset(rows) + multiset{row}
  {
    hide Less, PlaceOf;
    var i := PlaceOf(rows, row);
    assert rows == rows[..i] + rows[i..];
    forall j | 0 <= j < |rows|
      ensures if j < i then !Less(rows[j].displayedAt, row.displayedAt) else !Less(row.displayedAt, rows[j].displayedAt)
    {
      PlaceIsRight(rows, row, i, j);
    }
    PlacedDescending(rows, row, i);
    hide Descending;
  }

  /** No two rows, at different places, share a key. */
  predicate DistinctKeys(rows: seq<Row>)
  {
    forall i, j | 0 <= i < j < |rows| :: rows[i].displayedAt != rows[j].displayedAt
  }

  lemma TwiceInMultiset(rows: seq<Row>, i: nat, j: nat)
    requires i < j < |rows|
    ensures rows[i] == rows[j] ==> multiset(rows)[rows[i]] >= 2
  {
    assert rows == rows[..j] + rows[j..];
    assert rows[i] in rows[..j] && rows[j] in rows[j..];
  }

  lemma {:induction false} DistinctMeansOnce(rows: seq<Row>, r: Row)
    requires DistinctRows(rows)
    ensures multiset(rows)[r] <= 1
  {
    if rows != [] {
      var n := |rows| - 1;
      DistinctMeansOnce(rows[..n], r);
      assert rows == rows[..n] + [rows[n]];
      if r == rows[n] { assert r !in rows[..n]; }
    }
  }

  /** Distinct keys, like distinct rows, are a matter of the multiset. */
  lemma KeysOfPermutation(p: seq<Row>, q: seq<Row>)
    requires multiset(p) == multiset(q) && DistinctKeys(p)
    ensures DistinctKeys(q)
  {
    forall i, j | 0 <= i < j < |q|
      ensures q[i].displayedAt != q[j].displayedAt
    {
      DistinctMeansOnce(p, q[i]);
      TwiceInMultiset(q, i, j);
      assert q[i] in multiset(p) && q[j] in multiset(p);
    }
  }

  /** With distinct keys there is only one answer. */
  lemma {:induction false} AnswersAgree(p: seq<Row>, q: seq<Row>)
    requires multiset(p) == multiset(q) && DistinctKeys(p) && Descending(p) && Descending(q)
    ensures p == q
  {
    SameLength(p, q);
    if p != [] {
      HeadsAgree(p, q);
      TailsMatch(p, q);
      AnswersAgree(p[1..], q[1..]);
      assert p == [p[0]] + p[1..] && q == [q[0]] + q[1..];
    }
  }

  lemma TailsMatch(p: seq<Row>, q: seq<Row>)
    requires p != [] && q != [] && p[0] == q[0] && multiset(p) == multiset(q)
    requires DistinctKeys(p) && Descending(p) && Descending(q)
    ensures multiset(p[1..]) == multiset(q[1..]) && DistinctKeys(p[1..]) && Descending(p[1..]) && Descending(q[1..])
  {
    hide Less;
    assert p == [p[0]] + p[1..];
    assert q == [q[0]] + q[1..];
    assert multiset(p[1..]) == multiset(p) - multiset{p[0]};
    assert multiset(q[1..]) == multiset(q) - multiset{p[0]};
  }

  lemma HeadsAgree(p: seq<Row>, q: seq<Row>)
    requires multiset(p) == multiset(q) && DistinctKeys(p) && Descending(p) && Descending(q) && p != [] && q != []
    ensures p[0] == q[0]
  {
    assert p[0] in multiset(q) && q[0] in multiset(p);
    LessIsTotal(p[0].displayedAt, q[0].displayedAt);
  }

  // ----- pages ----------------------------------------------------------------------------------

  /** Page count of the history page. */
  function PageCount(total: nat, size: nat): nat
    requires size >= 1
  {
    (total + size - 1) / size
  }

  /** The first n pages one after another, each cut from an answer of its own. */
  function Pages(answers: seq<seq<Row>>, size: nat, n: nat): seq<Row>
    requires n <= |answers|
  {
    if n == 0 then [] else Pages(answers, size, n - 1) + Page(answers[n - 1], size, n)
  }

  /** Someone browses all pages, and someone asks for all rows, while the table does not change. */
  ghost predicate IsBrowse(answers: seq<seq<Row>>, all: seq<Row>, matched: seq<Row>, size: nat)
    requires size >= 1
  {
    |answers| == PageCount(|matched|, size) && IsAnswer(all, matched) &&
    forall p | 0 <= p < |answers| :: IsAnswer(answers[p], matched)
  }

  /** The rows on the first k pages. */
  function Front(rows: seq<Row>, size: nat, k: nat): seq<Row>
  {
    if k * size < |rows| then rows[..k * size] else rows
  }

  lemma PageAfterFront(p: seq<Row>, size: nat, n: nat)
    requires n > 0
    ensures Front(p, size, n) == Front(p, size, n - 1) + Page(p, size, n)
  {
    assert n * size == (n - 1) * size + size;
  }

  lemma NoFront(p: seq<Row>, size: nat)
    ensures Front(p, size, 0) == []
  {
    if p != [] { assert p[..0] == []; }
  }

  lemma {:induction false} PagesOfOne(answers: seq<seq<Row>>, q: seq<Row>, size: nat, n: nat)
    requires n <= |answers| && forall p | 0 <= p < n :: answers[p] == q
    ensures Pages(answers, size, n) == Front(q, size, n)
  {
    hide Page, Front;
    if n > 0 {
      PagesOfOne(answers, q, size, n - 1);
      PageAfterFront(q, size, n);
    } else {
      NoFront(q, size);
    }
  }

  lemma PagesReachEnd(total: nat, size: nat)
    requires size >= 1
    ensures PageCount(total, size) * size >= total
    ensures total > 0 ==> (PageCount(total, size) - 1) * size < total
    ensures total == 0 ==> PageCount(total, size) == 0
  {
    var a := total + size - 1;
    assert a == size * (a / size) + a % size;
    assert (a / size - 1) * size == size * (a / size) - size;
  }

  /** Another answer: two rows with the same key change places. */
  lemma SwappedAnswer(q: seq<Row>, matched: seq<Row>, i: nat, j: nat)
    requires IsAnswer(q, matched) && i < j < |q| && q[i].displayedAt == q[j].displayedAt
    ensures IsAnswer(q[i := q[j]][j := q[i]], matched)
  {
    var q' := q[i := q[j]][j := q[i]];
    assert forall k | 0 <= k < |q| :: q'[k].displayedAt == q[k].displayedAt;
  }

  lemma OnePages(q: seq<Row>, size: nat) returns (answers: seq<seq<Row>>)
    requires size >= 1
    ensures |answers| == PageCount(|q|, size) && (forall p | 0 <= p < |answers| :: answers[p] == q)
    ensures Pages(answers, size, |answers|) == q
  {
    answers := seq(PageCount(|q|, size), _ => q);
    PagesOfOne(answers, q, size, |answers|);
    PagesReachEnd(|q|, size);
  }

  /**
   The pages put one after another are the list that findAll returns, for every way the database may order
   rows of equal keys, if and only if no two matching rows have the same key.
   */
  lemma {:induction false} PagesCoverIffDistinct(matched: seq<Row>, size: nat)
    requires size >= 1 && DistinctRows(matched)
    ensures (forall answers, all :: IsBrowse(answers, all, matched, size) ==> Pages(answers, size, |answers|) == all)
       <==> DistinctKeys(matched)
  {
    if DistinctKeys(matched) {
      forall answers, all | IsBrowse(answers, all, matched, size)
        ensures Pages(answers, size, |answers|) == all
      {
        BrowseIsWhole(answers, all, matched, size);
      }
    } else {
      var q := AnOrder(matched);
      AnOrderIsAnswer(matched);
      if DistinctKeys(q) { KeysOfPermutation(q, matched); }
      var i, j :| 0 <= i < j < |q| && q[i].displayedAt == q[j].displayedAt;
      var q' := q[i := q[j]][j := q[i]];
      SwappedAnswer(q, matched, i, j);
      TwiceInMultiset(q, i, j);
      DistinctMeansOnce(matched, q[i]);
      assert q' != q;
      SameLength(q', matched);
      var answers := OnePages(q', size);
      assert IsBrowse(answers, q, matched, size);
    }
  }

  lemma SameLength(q: seq<Row>, matched: seq<Row>)
    requires multiset(q) == multiset(matched)
    ensures |q| == |matched|
  {
    assert |multiset(q)| == |q| && |multiset(matched)| == |matched|;
  }

  lemma BrowseIsWhole(answers: seq<seq<Row>>, all: seq<Row>, matched: seq<Row>, size: nat)
    requires size >= 1 && DistinctKeys(matched) && IsBrowse(answers, all, matched, size)
    ensures Pages(answers, size, |answers|) == all
  {
    KeysOfPermutation(matched, all);
    SameLength(all, matched);
    forall p | 0 <= p < |answers|
      ensures answers[p] == all
    {
      AnswersAgree(all, answers[p]);
    }
    PagesOfOne(answers, all, size, |answers|);
    PagesReachEnd(|all|, size);
  }

  // ----- pages as collections -------------------------------------------------------------------

  function RowSet(rows: seq<Row>): set<Row> { set r | r in rows }

  lemma {:induction false} SizeOfRowSet(rows: seq<Row>)
    requires DistinctRows(rows)
    ensures |RowSet(rows)| == |rows|
  {
    if rows != [] {
      var front, last := rows[..|rows| - 1], rows[|rows| - 1];
      SizeOfRowSet(front);
      assert rows == front + [last];
      assert RowSet(rows) == RowSet(front) + {last} && last !in front;
    }
  }

  lemma {:induction false} SubsetSize(a: set<Row>, b: set<Row>)
    requires a <= b
    ensures |a| <= |b| && (|a| == |b| ==> a == b)
  {
    if r :| r in a { SubsetSize(a - {r}, b - {r}); }
  }

  lemma SameRows(p: seq<Row>, q: seq<Row>)
    requires DistinctRows(p) && DistinctRows(q) && RowSet(p) == RowSet(q)
    ensures multiset(p) == multiset(q)
  {
    forall r: Row
      ensures multiset(p)[r] == multiset(q)[r]
    {
      DistinctMeansOnce(p, r);
      DistinctMeansOnce(q, r);
      assert r in p <==> r in RowSet(p);
      assert r in q <==> r in RowSet(q);
    }
  }

  /** No key has rows both on page k and behind it. */
  predicate CleanCut(q: seq<Row>, size: nat, k: nat)
  {
    0 < k * size < |q| ==> q[k * size - 1].displayedAt != q[k * size].displayedAt
  }

  /** No key has rows on both sides of a page boundary. */
  ghost predicate CleanCuts(q: seq<Row>, size: nat) { forall k: nat :: CleanCut(q, size, k) }

  lemma DistinctPermutation(p: seq<Row>, q: seq<Row>)
    requires multiset(p) == multiset(q) && DistinctRows(q)
    ensures DistinctRows(p) && RowSet(p) == RowSet(q)
  {
    forall i, j | 0 <= i < j < |p|
      ensures p[i] != p[j]
    {
      TwiceInMultiset(p, i, j);
      DistinctMeansOnce(q, p[i]);
    }
    assert forall r: Row :: r in p <==> r in multiset(p);
    assert forall r: Row :: r in q <==> r in multiset(q);
  }

  /** A row before a clean cut has a greater key than a row behind it. */
  lemma CutSeparates(q: seq<Row>, b: nat, i: nat, j: nat)
    requires Descending(q) && i < b <= j < |q| && q[b - 1].displayedAt != q[b].displayedAt
    ensures Less(q[j].displayedAt, q[i].displayedAt)
  {
    hide Less;
    var high, low := q[b - 1].displayedAt, q[b].displayedAt;
    LessIsTotal(low, high);
    assert Less(low, high);
    if i < b - 1 {
      LessIsTotal(q[i].displayedAt, high);
      if q[i].displayedAt != high { LessIsTransitive(low, high, q[i].displayedAt); }
    }
    if b < j {
      LessIsTotal(q[j].displayedAt, low);
      if q[j].displayedAt != low { LessIsTransitive(q[j].displayedAt, low, q[i].displayedAt); }
    }
  }

  /** If another answer has a row from behind the cut at place i, all rows from before the cut are in front of it. */
  lemma HighRowsInFront(p: seq<Row>, q: seq<Row>, b: nat, i: nat)
    requires RowSet(p) == RowSet(q) && Descending(p) && Descending(q)
    requires 0 < b < |q| && q[b - 1].displayedAt != q[b].displayedAt && i < |p| && p[i] !in q[..b]
    ensures RowSet(q[..b]) <= RowSet(p[..i])
  {
    assert p[i] in RowSet(p);
    var j :| 0 <= j < |q| && q[j] == p[i];
    forall r | r in q[..b]
      ensures r in p[..i]
    {
      var k :| 0 <= k < b && q[k] == r;
      assert r in RowSet(q);
      var l :| 0 <= l < |p| && p[l] == r;
      CutSeparates(q, b, k, j);
      hide Less;
      assert l < i;
      assert p[..i][l] == r;
    }
  }

  /** At a clean cut every answer has the same rows in front. */
  lemma SameFront(p: seq<Row>, q: seq<Row>, b: nat)
    requires multiset(p) == multiset(q) && DistinctRows(q) && Descending(p) && Descending(q)
    requires 0 < b < |q| && q[b - 1].displayedAt != q[b].displayedAt
    ensures |p| == |q| && multiset(p[..b]) == multiset(q[..b])
  {
    SameLength(p, q);
    DistinctPermutation(p, q);
    SizeOfRowSet(p[..b]);
    SizeOfRowSet(q[..b]);
    forall i | 0 <= i < b
      ensures p[i] in q[..b]
    {
      if p[i] !in q[..b] {
        HighRowsInFront(p, q, b, i);
        SizeOfRowSet(p[..i]);
        SubsetSize(RowSet(q[..b]), RowSet(p[..i]));
      }
    }
    SubsetSize(RowSet(p[..b]), RowSet(q[..b]));
    SameRows(p[..b], q[..b]);
  }

  lemma SameFronts(p: seq<Row>, q: seq<Row>, size: nat, k: nat)
    requires IsAnswer(p, q) && DistinctRows(q) && Descending(q) && CleanCut(q, size, k)
    ensures multiset(Front(p, size, k)) == multiset(Front(q, size, k))
  {
    SameLength(p, q);
    if 0 < k * size < |q| {
      SameFront(p, q, k * size);
    } else if q != [] && k * size == 0 {
      assert p[..0] == q[..0] == [];
    }
  }

  lemma JoinedAs(a: seq<Row>, b: seq<Row>, c: seq<Row>)
    ensures multiset(a) == multiset(b) ==> multiset(a + c) == multiset(b + c)
  {
  }

  lemma {:induction false} PagesAreFront(answers: seq<seq<Row>>, q: seq<Row>, size: nat, n: nat)
    requires n <= |answers| && DistinctRows(q) && Descending(q) && CleanCuts(q, size)
    requires forall p | 0 <= p < |answers| :: IsAnswer(answers[p], q)
    ensures multiset(Pages(answers, size, n)) == multiset(Front(q, size, n))
  {
    hide IsAnswer, CleanCut, DistinctRows, Descending, Page, Front;
    if n > 0 {
      PagesAreFront(answers, q, size, n - 1);
      var p := answers[n - 1];
      SameFronts(p, q, size, n - 1);
      SameFronts(p, q, size, n);
      PageAfterFront(p, size, n);
      JoinedAs(Pages(answers, size, n - 1), Front(p, size, n - 1), Page(p, size, n));
    } else {
      NoFront(q, size);
    }
  }

  /** Every page is cut from an answer of its own; what findAll returns does not matter. */
  ghost predicate IsPaging(answers: seq<seq<Row>>, matched: seq<Row>, size: nat)
    requires size >= 1
  {
    |answers| == PageCount(|matched|, size) && forall p | 0 <= p < |answers| :: IsAnswer(answers[p], matched)
  }

  lemma CleanPages(answers: seq<seq<Row>>, matched: seq<Row>, q: seq<Row>, size: nat)
    requires size >= 1 && DistinctRows(matched) && IsAnswer(q, matched) && CleanCuts(q, size)
    requires IsPaging(answers, matched, size)
    ensures multiset(Pages(answers, size, |answers|)) == multiset(matched)
  {
    SameLength(q, matched);
    DistinctPermutation(q, matched);
    PagesReachEnd(|q|, size);
    hide PageCount;
    assert forall p | 0 <= p < |answers| :: IsAnswer(answers[p], q);
    PagesAreFront(answers, q, size, |answers|);
  }

  lemma Monotone(k: nat, n: nat, size: nat)
    requires k <= n
    ensures k * size <= n * size
  {
    assert n * size == k * size + (n - k) * size;
  }

  lemma DropOfSum(a: seq<Row>, b: seq<Row>, c: seq<Row>, n: nat)
    requires n <= |b|
    ensures a + b[n..] + c == a + (b + c)[n..]
  {
  }

  lemma FrontLength(p: seq<Row>, size: nat, k: nat, n: nat)
    requires k <= n && k * size < |p|
    ensures Front(p, size, k) == p[..k * size] && |Front(p, size, k)| <= |Front(p, size, n)|
  {
    Monotone(k, n, size);
  }

  /** The first k pages cut from one answer, the later ones from another. */
  lemma {:induction false} PagesOfTwo(answers: seq<seq<Row>>, q: seq<Row>, q': seq<Row>, size: nat, k: nat, n: nat)
    requires k <= n <= |answers| && |q| == |q'| && k * size < |q|
    requires forall p | 0 <= p < |answers| :: answers[p] == if p < k then q else q'
    ensures |Front(q', size, n)| >= |Front(q, size, k)|
    ensures Pages(answers, size, n) == Front(q, size, k) + Front(q', size, n)[|Front(q, size, k)|..]
  {
    hide Page, Front;
    FrontLength(q, size, k, n);
    FrontLength(q', size, k, n);
    if n == k {
      PagesOfOne(answers, q, size, k);
    } else {
      PagesOfTwo(answers, q, q', size, k, n - 1);
      PageAfterFront(q', size, n);
      DropOfSum(Front(q, size, k), Front(q', size, n - 1), Page(q', size, n), |Front(q, size, k)|);
    }
  }

  lemma PagesFollow(total: nat, size: nat, k: nat)
    requires size >= 1 && k * size < total
    ensures k < PageCount(total, size) && total <= PageCount(total, size) * size
  {
    PagesReachEnd(total, size);
    if PageCount(total, size) <= k { Monotone(PageCount(total, size), k, size); }
  }

  lemma TwiceIsNotOnce(rows: seq<Row>, matched: seq<Row>, b: nat)
    requires DistinctRows(matched) && 0 < b < |rows| && rows[b - 1] == rows[b]
    ensures multiset(rows) != multiset(matched)
  {
    TwiceInMultiset(rows, b - 1, b);
    DistinctMeansOnce(matched, rows[b]);
  }

  /** Rows of one key on both sides of a boundary: one can be shown on both pages, the other on neither. */
  lemma CutKeyRepeats(matched: seq<Row>, q: seq<Row>, size: nat, k: nat) returns (answers: seq<seq<Row>>)
    requires size >= 1 && DistinctRows(matched) && IsAnswer(q, matched) && !CleanCut(q, size, k)
    ensures IsPaging(answers, matched, size) && multiset(Pages(answers, size, |answers|)) != multiset(matched)
  {
    var b := k * size;
    var q' := q[b - 1 := q[b]][b := q[b - 1]];
    SwappedAnswer(q, matched, b - 1, b);
    SameLength(q, matched);
    PagesFollow(|q|, size, k);
    hide IsAnswer, PageCount, DistinctRows;
    var n := PageCount(|q|, size);
    answers := seq(n, p => if p < k then q else q');
    PagesOfTwo(answers, q, q', size, k, n);
    assert Front(q, size, k) == q[..b] && Front(q', size, n) == q';
    hide Front, Pages;
    TwiceIsNotOnce(Pages(answers, size, n), matched, b);
  }

  /**
   The pages put together hold every matching row once, for every way the database may order rows of equal
   keys from page to page, if and only if, with the rows in descending order, no key has rows on both sides
   of a page boundary.
   */
  lemma {:induction false} PagesMissNothingIff(matched: seq<Row>, q: seq<Row>, size: nat)
    requires size >= 1 && DistinctRows(matched) && IsAnswer(q, matched)
    ensures (forall answers :: IsPaging(answers, matched, size) ==>
               multiset(Pages(answers, size, |answers|)) == multiset(matched))
       <==> CleanCuts(q, size)
  {
    hide Pages, IsPaging, IsAnswer, CleanCut, DistinctRows;
    if CleanCuts(q, size) {
      forall answers | IsPaging(answers, matched, size)
        ensures multiset(Pages(answers, size, |answers|)) == multiset(matched)
      {
        CleanPages(answers, matched, q, size);
      }
    } else {
      var k: nat :| !CleanCut(q, size, k);
      var answers := CutKeyRepeats(matched, q, size, k);
    }
  }
}
