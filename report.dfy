/** The rows of the report query before `ORDER BY` and `LIMIT`: one row per category,
    grouped by category id, filtered by the scope list, the leaf-only mode and the
    `HAVING` that drops the root category. */
module Report {
  import opened Store
  import opened Money
  import opened Sales
  import opened Traffic
  import Scope

  /** One result row of the query, in the column order of the grid. */
  datatype ReportRow = ReportRow(
    id: int,
    name: Option<string>,
    totalQuantitySold: int,
    totalPriceSold: real,
    totalWholeSalePriceSold: real,
    totalPageViewed: nat,
    hasChildren: nat)

  /** `CONCAT(parent.name, ' > ', calang.name)`: NULL when either name is missing. */
  function Breadcrumb(names: map<int, string>, c: Category): (b: Option<string>)
    ensures b.None? <==> c.parentId !in names || c.id !in names
    ensures b.Some? ==>
      var n := |names[c.parentId]|;
      |b.value| == n + 3 + |names[c.id]| &&
      b.value[..n] == names[c.parentId] && b.value[n..n + 3] == " > " && b.value[n + 3..] == names[c.id]
  {
    if c.parentId in names && c.id in names then Some(names[c.parentId] + " > " + names[c.id]) else None
  }

  /** The row of category `c`. With `joinSales` false no `t` row joins, so the three
      sales columns are `IFNULL(NULL, 0)`. Revenue and cost are rounded once, here. */
  function BuildRow(db: Db, w: Window, c: Category, joinSales: bool): ReportRow {
    var t := if joinSales then CategorySales(db, w, db.links, c.id) else Totals(0, 0.0, 0.0);
    ReportRow(c.id, Breadcrumb(db.names, c), t.quantity, Round2(t.revenue), Round2(t.cost),
              PageViews(db, w, c.id), ChildCount(db.categories, c.id))
  }

  /** The columns of a category's row: its id, its breadcrumb, its page views and child
      count; the sales sums of its links rounded once to a whole number of hundredths,
      an exact half going away from zero, or zeros when no `t` row joins. */
  lemma BuildRowColumns(db: Db, w: Window, c: Category, joinSales: bool)
    ensures var r := BuildRow(db, w, c, joinSales);
      r.id == c.id && r.name == Breadcrumb(db.names, c) &&
      r.totalPageViewed == PageViews(db, w, c.id) && r.hasChildren == ChildCount(db.categories, c.id)
    ensures var r := BuildRow(db, w, c, joinSales);
      !joinSales ==> r.totalQuantitySold == 0 && r.totalPriceSold == 0.0 && r.totalWholeSalePriceSold == 0.0
    ensures var r, t := BuildRow(db, w, c, joinSales), CategorySales(db, w, db.links, c.id);
      joinSales ==>
        r.totalQuantitySold == t.quantity &&
        -0.005 <= r.totalPriceSold - t.revenue <= 0.005 && -0.005 <= r.totalWholeSalePriceSold - t.cost <= 0.005
    ensures var r := BuildRow(db, w, c, joinSales);
      (r.totalPriceSold * 100.0).Floor as real == r.totalPriceSold * 100.0 &&
      (r.totalWholeSalePriceSold * 100.0).Floor as real == r.totalWholeSalePriceSold * 100.0
    ensures var r, t := BuildRow(db, w, c, joinSales), CategorySales(db, w, db.links, c.id);
      joinSales ==>
        (t.revenue >= 0.0 ==> -0.005 < r.totalPriceSold - t.revenue) &&
        (t.cost >= 0.0 ==> -0.005 < r.totalWholeSalePriceSold - t.cost) &&
        (t.revenue < 0.0 ==> r.totalPriceSold - t.revenue < 0.005) &&
        (t.cost < 0.0 ==> r.totalWholeSalePriceSold - t.cost < 0.005)
  {
    if !joinSales {
      var z := Round2(0.0);
      assert -0.5 <= z * 100.0 <= 0.5;
    }
  }

  /** The filters on a category: the scope list (none when it is empty), the leaf-only
      mode and `HAVING ca.id_category != 1`. */
  predicate Selected(db: Db, scope: seq<int>, leafOnly: bool, c: Category) {
    (|scope| == 0 || c.id in scope) && (!leafOnly || ChildCount(db.categories, c.id) == 0) && c.id != 1
  }

  /** The filtered rows of the categories `cats`, in table order. */
  function RowsOf(db: Db, w: Window, cats: seq<Category>, scope: seq<int>, leafOnly: bool): (rows: seq<ReportRow>)
    ensures |rows| <= |cats|
    ensures forall r :: r in rows ==> r.id != 1
    ensures forall r :: r in rows <==>
      exists k :: 0 <= k < |cats| && Selected(db, scope, leafOnly, cats[k]) && r == BuildRow(db, w, cats[k], true)
  {
    if |cats| == 0 then []
    else
      var init := cats[..|cats| - 1];
      var last := cats[|cats| - 1];
      var rest := RowsOf(db, w, init, scope, leafOnly);
      assert forall k :: 0 <= k < |init| ==> init[k] == cats[k];
      if Selected(db, scope, leafOnly, last) then rest + [BuildRow(db, w, last, true)] else rest
  }

  /** The query's rows before `ORDER BY` and `LIMIT`. */
  function Rows(db: Db, w: Window, scope: seq<int>, leafOnly: bool): seq<ReportRow> {
    RowsOf(db, w, db.categories, scope, leafOnly)
  }

  /** Category id 1 never appears, and every row belongs to a category of the table that
      passes the filters, whatever the scope and mode. */
  lemma RowsFiltered(db: Db, w: Window, scope: seq<int>, leafOnly: bool, r: ReportRow)
    requires r in Rows(db, w, scope, leafOnly)
    ensures r.id != 1
    ensures |scope| > 0 ==> r.id in scope
    ensures leafOnly ==> r.hasChildren == 0
  {
  }

  /** In leaf-only mode no category of the table has a surviving row's category as parent. */
  lemma LeafOnlyRowsAreLeaves(db: Db, w: Window, scope: seq<int>, r: ReportRow)
    requires r in Rows(db, w, scope, true)
    ensures r.hasChildren == 0
    ensures forall j :: 0 <= j < |db.categories| ==> db.categories[j].parentId != r.id
  {
  }

  /** With an empty scope list no category restriction applies: every category other
      than 1 (and, in leaf-only mode, without children) has its row. */
  lemma EmptyScopeRestrictsNothing(db: Db, w: Window, leafOnly: bool, k: int)
    requires 0 <= k < |db.categories|
    requires db.categories[k].id != 1
    requires leafOnly ==> ChildCount(db.categories, db.categories[k].id) == 0
    ensures BuildRow(db, w, db.categories[k], true) in Rows(db, w, [], leafOnly)
  {
  }

  /** With the scope list built for a shop context, every row's category lies inside
      the interval of a root category of a context shop. */
  lemma ScopedRowUnderShopRoot(db: Db, w: Window, contextShops: seq<int>, leafOnly: bool, r: ReportRow)
    requires |Scope.ScopeIds(db, false, contextShops)| > 0
    requires r in Rows(db, w, Scope.ScopeIds(db, false, contextShops), leafOnly)
    ensures exists k, j ::
              0 <= k < |db.categories| && 0 <= j < |db.categories| &&
              db.categories[k].id == r.id && Scope.IsShopRoot(db.shops, contextShops, db.categories[j].id) &&
              Scope.Within(db.categories[k], Scope.IntervalOf(db.categories[j]))
  {
    RowsFiltered(db, w, Scope.ScopeIds(db, false, contextShops), leafOnly, r);
    Scope.ScopeMembership(db, contextShops, r.id);
  }

  /** No two rows share a category id. */
  predicate DistinctRowIds(rows: seq<ReportRow>) {
    forall i, j :: 0 <= i < j < |rows| ==> rows[i].id != rows[j].id
  }

  /** Grouping by category id gives at most one row per category: when the table's
      ids are distinct, so are the rows' ids. */
  lemma {:induction false} RowsOfDistinctIds(db: Db, w: Window, cats: seq<Category>, scope: seq<int>, leafOnly: bool)
    requires DistinctIds(cats)
    ensures DistinctRowIds(RowsOf(db, w, cats, scope, leafOnly))
  {
    if |cats| > 0 {
      var init, last := cats[..|cats| - 1], cats[|cats| - 1];
      assert DistinctIds(init) by {
        assert forall k :: 0 <= k < |init| ==> init[k] == cats[k];
      }
      RowsOfDistinctIds(db, w, init, scope, leafOnly);
      var rest := RowsOf(db, w, init, scope, leafOnly);
      forall i | 0 <= i < |rest|
        ensures rest[i].id != last.id
      {
        assert rest[i] in rest;
        var k :| 0 <= k < |init| && Selected(db, scope, leafOnly, init[k]) && rest[i] == BuildRow(db, w, init[k], true);
        assert init[k] == cats[k];
      }
      if Selected(db, scope, leafOnly, last) {
        var rows := rest + [BuildRow(db, w, last, true)];
        assert RowsOf(db, w, cats, scope, leafOnly) == rows;
        forall i, j | 0 <= i < j < |rows|
          ensures rows[i].id != rows[j].id
        {
          assert rows[i] == rest[i];
          if j < |rest| {
            assert rows[j] == rest[j];
          } else {
            assert rows[j].id == last.id;
          }
        }
      }
    }
  }

  // The query text as written. With an empty scope list no `WHERE` precedes the
  // leaf-only fragment, so `AND NOT EXISTS (…)` becomes part of the `ON` condition of
  // the last `LEFT JOIN`: it no longer drops categories, it only keeps the sales of a
  // category with children from joining.

  predicate SelectedAsWritten(db: Db, scope: seq<int>, leafOnly: bool, c: Category) {
    if |scope| == 0 then c.id != 1 else Selected(db, scope, leafOnly, c)
  }

  predicate JoinsSalesAsWritten(db: Db, scope: seq<int>, leafOnly: bool, c: Category) {
    !(|scope| == 0 && leafOnly) || ChildCount(db.categories, c.id) == 0
  }

  function RowsAsWrittenOf(db: Db, w: Window, cats: seq<Category>, scope: seq<int>, leafOnly: bool): (rows: seq<ReportRow>)
    ensures |rows| <= |cats|
    ensures forall r :: r in rows <==>
      exists k :: 0 <= k < |cats| && SelectedAsWritten(db, scope, leafOnly, cats[k]) &&
        r == BuildRow(db, w, cats[k], JoinsSalesAsWritten(db, scope, leafOnly, cats[k]))
  {
    if |cats| == 0 then []
    else
      var init := cats[..|cats| - 1];
      var last := cats[|cats| - 1];
      var rest := RowsAsWrittenOf(db, w, init, scope, leafOnly);
      assert forall k :: 0 <= k < |init| ==> init[k] == cats[k];
      if SelectedAsWritten(db, scope, leafOnly, last)
      then rest + [BuildRow(db, w, last, JoinsSalesAsWritten(db, scope, leafOnly, last))]
      else rest
  }

  /** The query's rows as the statement is written, before `ORDER BY` and `LIMIT`. */
  function RowsAsWritten(db: Db, w: Window, scope: seq<int>, leafOnly: bool): seq<ReportRow> {
    RowsAsWrittenOf(db, w, db.categories, scope, leafOnly)
  }

  /** What the statement as written still guarantees of each row: category 1 never
      appears, a scope list restricts the rows, leaf-only mode with a scope list keeps only
      leaves, and leaf-only mode without one zeroes the sales of a category with children. */
  lemma RowsAsWrittenFiltered(db: Db, w: Window, scope: seq<int>, leafOnly: bool, r: ReportRow)
    requires r in RowsAsWritten(db, w, scope, leafOnly)
    ensures r.id != 1
    ensures |scope| > 0 ==> r.id in scope
    ensures leafOnly && |scope| > 0 ==> r.hasChildren == 0
    ensures leafOnly && |scope| == 0 && r.hasChildren > 0 ==>
      r.totalQuantitySold == 0 && r.totalPriceSold == 0.0 && r.totalWholeSalePriceSold == 0.0
  {
  }

  /** The query as written agrees with `Rows` except in leaf-only mode without a scope list. */
  lemma {:induction false} AsWrittenAgrees(db: Db, w: Window, cats: seq<Category>, scope: seq<int>, leafOnly: bool)
    requires |scope| > 0 || !leafOnly
    ensures RowsAsWrittenOf(db, w, cats, scope, leafOnly) == RowsOf(db, w, cats, scope, leafOnly)
  {
    if |cats| > 0 {
      AsWrittenAgrees(db, w, cats[..|cats| - 1], scope, leafOnly);
    }
  }

  /** The statement as written also groups by category id: distinct table ids give
      distinct row ids. */
  lemma {:induction false} RowsAsWrittenOfDistinctIds(db: Db, w: Window, cats: seq<Category>, scope: seq<int>, leafOnly: bool)
    requires DistinctIds(cats)
    ensures DistinctRowIds(RowsAsWrittenOf(db, w, cats, scope, leafOnly))
  {
    if |cats| > 0 {
      var init, last := cats[..|cats| - 1], cats[|cats| - 1];
      assert DistinctIds(init) by {
        assert forall k :: 0 <= k < |init| ==> init[k] == cats[k];
      }
      RowsAsWrittenOfDistinctIds(db, w, init, scope, leafOnly);
      var rest := RowsAsWrittenOf(db, w, init, scope, leafOnly);
      forall i | 0 <= i < |rest|
        ensures rest[i].id != last.id
      {
        assert rest[i] in rest;
        var k :| 0 <= k < |init| && SelectedAsWritten(db, scope, leafOnly, init[k]) &&
          rest[i] == BuildRow(db, w, init[k], JoinsSalesAsWritten(db, scope, leafOnly, init[k]));
        assert init[k] == cats[k];
      }
      if SelectedAsWritten(db, scope, leafOnly, last) {
        var rows := rest + [BuildRow(db, w, last, JoinsSalesAsWritten(db, scope, leafOnly, last))];
        assert RowsAsWrittenOf(db, w, cats, scope, leafOnly) == rows;
        forall i, j | 0 <= i < j < |rows|
          ensures rows[i].id != rows[j].id
        {
          assert rows[i] == rest[i];
          if j < |rest| {
            assert rows[j] == rest[j];
          }
        }
      }
    }
  }

  /** In leaf-only mode without a scope list the query as written still reports a
      category that has a child: here category 2, parent of 3, with zeroed sales. */
  lemma LeafOnlyUnscopedKeepsParents(w: Window)
    ensures
      var db := Db([Category(1, 0, 1, 6), Category(2, 1, 2, 5), Category(3, 2, 3, 4)],
                   map[], [], [], [], [], [], [], [], [], []);
      (exists r :: r in RowsAsWrittenOf(db, w, db.categories, [], true) && r.id == 2 && r.hasChildren == 1) &&
      (forall r :: r in Rows(db, w, [], true) ==> r.hasChildren == 0)
  {
    var db := Db([Category(1, 0, 1, 6), Category(2, 1, 2, 5), Category(3, 2, 3, 4)],
                 map[], [], [], [], [], [], [], [], [], []);
    var c := db.categories[1];
    assert ChildCount(db.categories, 2) == 1 by {
      assert db.categories[1..][1..][1..] == [];
    }
    var r := BuildRow(db, w, c, false);
    assert SelectedAsWritten(db, [], true, c) && !JoinsSalesAsWritten(db, [], true, c);
    assert r in RowsAsWrittenOf(db, w, db.categories, [], true);
    forall r | r in Rows(db, w, [], true) ensures r.hasChildren == 0 {
      RowsFiltered(db, w, [], true, r);
    }
  }
}
