/** `ORDER BY` and `LIMIT` of the report query, and the page/total-count relation. */
module Ordering {
  import opened Store
  import opened Report

  /** The sortable columns of the grid. */
  datatype Column = Name | TotalQuantitySold | TotalPriceSold | TotalWholeSalePriceSold | TotalPageViewed

  datatype Direction = Asc | Desc

  /** Lexicographic order on strings by character code. */
  predicate LexLe(a: string, b: string) {
    |a| == 0 || (|b| > 0 && (a[0] < b[0] || (a[0] == b[0] && LexLe(a[1..], b[1..]))))
  }

  lemma {:induction false} LexLeTotal(a: string, b: string)
    ensures LexLe(a, b) || LexLe(b, a)
  {
    if |a| > 0 && |b| > 0 && a[0] == b[0] {
      LexLeTotal(a[1..], b[1..]);
    }
  }

  lemma {:induction false} LexLeTransitive(a: string, b: string, c: string)
    requires LexLe(a, b) && LexLe(b, c)
    ensures LexLe(a, c)
  {
    if |a| > 0 && |b| > 0 && |c| > 0 && a[0] == b[0] && b[0] == c[0] {
      LexLeTransitive(a[1..], b[1..], c[1..]);
    }
  }

  /** SQL string order with NULL first. */
  predicate NameLe(a: Option<string>, b: Option<string>) {
    a.None? || (b.Some? && LexLe(a.value, b.value))
  }

  /** Ascending order on one column. The cost column is compared on the query's value,
      the rounded cost, before it is turned into a margin. */
  predicate KeyLe(col: Column, a: ReportRow, b: ReportRow) {
    match col
    case Name => NameLe(a.name, b.name)
    case TotalQuantitySold => a.totalQuantitySold <= b.totalQuantitySold
    case TotalPriceSold => a.totalPriceSold <= b.totalPriceSold
    case TotalWholeSalePriceSold => a.totalWholeSalePriceSold <= b.totalWholeSalePriceSold
    case TotalPageViewed => a.totalPageViewed <= b.totalPageViewed
  }

  predicate RowLe(col: Column, dir: Direction, a: ReportRow, b: ReportRow) {
    if dir == Asc then KeyLe(col, a, b) else KeyLe(col, b, a)
  }

  lemma RowLeTotal(col: Column, dir: Direction, a: ReportRow, b: ReportRow)
    ensures RowLe(col, dir, a, b) || RowLe(col, dir, b, a)
  {
    if col == Name && a.name.Some? && b.name.Some? {
      LexLeTotal(a.name.value, b.name.value);
    }
  }

  lemma RowLeTransitive(col: Column, dir: Direction, a: ReportRow, b: ReportRow, c: ReportRow)
    requires RowLe(col, dir, a, b) && RowLe(col, dir, b, c)
    ensures RowLe(col, dir, a, c)
  {
    if col == Name && a.name.Some? && b.name.Some? && c.name.Some? {
      if dir == Asc {
        LexLeTransitive(a.name.value, b.name.value, c.name.value);
      } else {
        LexLeTransitive(c.name.value, b.name.value, a.name.value);
      }
    }
  }

  /** `s` is ordered by `col` in direction `dir`. */
  predicate SortedBy(col: Column, dir: Direction, s: seq<ReportRow>) {
    forall i, j :: 0 <= i < j < |s| ==> RowLe(col, dir, s[i], s[j])
  }

  function Insert(col: Column, dir: Direction, x: ReportRow, s: seq<ReportRow>): seq<ReportRow> {
    if |s| == 0 then [x]
    else if RowLe(col, dir, x, s[0]) then [x] + s
    else [s[0]] + Insert(col, dir, x, s[1..])
  }

  /** One ordering the server may return; among rows with equal keys MySQL fixes no order. */
  function SortRows(col: Column, dir: Direction, s: seq<ReportRow>): seq<ReportRow> {
    if |s| == 0 then [] else Insert(col, dir, s[0], SortRows(col, dir, s[1..]))
  }

  lemma {:induction false} InsertPermutes(col: Column, dir: Direction, x: ReportRow, s: seq<ReportRow>)
    ensures multiset(Insert(col, dir, x, s)) == multiset(s) + multiset{x}
  {
    if |s| > 0 {
      assert s == [s[0]] + s[1..];
      if !RowLe(col, dir, x, s[0]) {
        InsertPermutes(col, dir, x, s[1..]);
      }
    }
  }

  lemma SortedTail(col: Column, dir: Direction, s: seq<ReportRow>)
    requires |s| > 0 && SortedBy(col, dir, s)
    ensures SortedBy(col, dir, s[1..])
  {
  }

  lemma SortedCons(col: Column, dir: Direction, h: ReportRow, t: seq<ReportRow>)
    requires SortedBy(col, dir, t)
    requires forall j :: 0 <= j < |t| ==> RowLe(col, dir, h, t[j])
    ensures SortedBy(col, dir, [h] + t)
  {
  }

  lemma {:induction false} InsertSorted(col: Column, dir: Direction, x: ReportRow, s: seq<ReportRow>)
    requires SortedBy(col, dir, s)
    ensures SortedBy(col, dir, Insert(col, dir, x, s))
  {
    if |s| == 0 {
    } else if RowLe(col, dir, x, s[0]) {
      forall j | 0 <= j < |s| ensures RowLe(col, dir, x, s[j]) {
        if j > 0 {
          RowLeTransitive(col, dir, x, s[0], s[j]);
        }
      }
      SortedCons(col, dir, x, s);
    } else {
      RowLeTotal(col, dir, x, s[0]);
      var tail := s[1..];
      SortedTail(col, dir, s);
      InsertSorted(col, dir, x, tail);
      InsertPermutes(col, dir, x, tail);
      var t := Insert(col, dir, x, tail);
      forall j | 0 <= j < |t| ensures RowLe(col, dir, s[0], t[j]) {
        assert t[j] in multiset(t);
        if t[j] != x {
          assert t[j] in multiset(tail);
          var m :| 0 <= m < |tail| && tail[m] == t[j];
          assert s[m + 1] == t[j];
        }
      }
      SortedCons(col, dir, s[0], t);
    }
  }

  /** `ORDER BY col dir` yields the same rows, ordered. */
  lemma {:induction false} SortRowsCorrect(col: Column, dir: Direction, s: seq<ReportRow>)
    ensures multiset(SortRows(col, dir, s)) == multiset(s)
    ensures SortedBy(col, dir, SortRows(col, dir, s))
  {
    if |s| > 0 {
      SortRowsCorrect(col, dir, s[1..]);
      InsertPermutes(col, dir, s[0], SortRows(col, dir, s[1..]));
      InsertSorted(col, dir, s[0], SortRows(col, dir, s[1..]));
      assert s == [s[0]] + s[1..];
    }
  }

  /** The `ORDER BY` clause, present only when the sort key validated; the direction
      only when it validated too (otherwise the server's default, ascending). */
  datatype OrderClause = OrderClause(col: Column, dir: Option<Direction>)

  /** The `LIMIT start, count` clause. */
  datatype LimitClause = LimitClause(start: nat, count: nat)

  /** `ORDER BY col dir`: the same rows, ordered; without the clause, table order. */
  function OrderBy(rows: seq<ReportRow>, order: Option<OrderClause>): (ordered: seq<ReportRow>)
    ensures multiset(ordered) == multiset(rows)
    ensures order.Some? ==> SortedBy(order.value.col, order.value.dir.GetOr(Asc), ordered)
    ensures order.None? ==> ordered == rows
  {
    match order
    case None => rows
    case Some(o) =>
      SortRowsCorrect(o.col, o.dir.GetOr(Asc), rows);
      SortRows(o.col, o.dir.GetOr(Asc), rows)
  }

  /** The rows at positions `[start, start + count)`, cut at the end of `rows`. */
  function Slice(rows: seq<ReportRow>, start: nat, count: nat): (page: seq<ReportRow>)
    ensures |page| == if start >= |rows| then 0 else if start + count <= |rows| then count else |rows| - start
    ensures forall i :: 0 <= i < |page| ==> page[i] == rows[start + i]
  {
    if start >= |rows| then [] else rows[start..if start + count <= |rows| then start + count else |rows|]
  }

  /** `LIMIT start, count`: a contiguous run of the rows from `start` on; without the
      clause, all rows. */
  function Limit(rows: seq<ReportRow>, limit: Option<LimitClause>): (page: seq<ReportRow>)
    ensures limit.None? ==> page == rows
    ensures |page| <= |rows|
    ensures limit.Some? ==>
      forall i :: 0 <= i < |page| ==> limit.value.start + i < |rows| && page[i] == rows[limit.value.start + i]
  {
    match limit
    case None => rows
    case Some(l) => Slice(rows, l.start, l.count)
  }

  /** Whatever the clauses, the query returns rows of the filtered set: every row it
      returns is a filtered row, it returns no more rows than the pre-`LIMIT` count, and
      without `LIMIT` it returns all of them, ordered when `ORDER BY` is present. */
  lemma ClausesKeepRows(rows: seq<ReportRow>, order: Option<OrderClause>, limit: Option<LimitClause>)
    ensures multiset(OrderBy(rows, order)) == multiset(rows)
    ensures |Limit(OrderBy(rows, order), limit)| <= |rows|
    ensures forall r :: r in Limit(OrderBy(rows, order), limit) ==> r in rows
    ensures limit.None? ==> multiset(Limit(OrderBy(rows, order), limit)) == multiset(rows)
    ensures order.Some? ==> SortedBy(order.value.col, order.value.dir.GetOr(Asc), OrderBy(rows, order))
  {
    var ordered := OrderBy(rows, order);
    if order.Some? {
      SortRowsCorrect(order.value.col, order.value.dir.GetOr(Asc), rows);
    }
    assert |multiset(ordered)| == |multiset(rows)|;
    forall r | r in Limit(ordered, limit) ensures r in rows {
      assert r in ordered;
      assert r in multiset(ordered);
    }
  }

  /** The pages of size `count` from position `start` on, in order. */
  function PagesFrom(rows: seq<ReportRow>, start: nat, count: nat): seq<ReportRow>
    requires count > 0
    decreases |rows| - start
  {
    if start >= |rows| then [] else Slice(rows, start, count) + PagesFrom(rows, start + count, count)
  }

  /** Concatenating the pages of any positive size reproduces the rows exactly, so the
      page sizes add up to the count taken before `LIMIT`. */
  lemma {:induction false} PagesReassemble(rows: seq<ReportRow>, start: nat, count: nat)
    requires count > 0
    requires start <= |rows|
    ensures PagesFrom(rows, start, count) == rows[start..]
    decreases |rows| - start
  {
    if start < |rows| {
      if start + count <= |rows| {
        PagesReassemble(rows, start + count, count);
        assert rows[start..] == rows[start..start + count] + rows[start + count..];
      } else {
        assert PagesFrom(rows, start + count, count) == [];
      }
    }
  }
}
