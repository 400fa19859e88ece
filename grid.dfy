/** The report module object: `getData()` computes the scope list, completes the query
    with its `ORDER BY` and `LIMIT` clauses, runs it, rewrites each returned row in place
    and stores the rows and the total count in its fields. */
module Grid {
  import opened Store
  import opened Report
  import opened Ordering
  import Names
  import Scope

  /** The request-level inputs of `getData()`: the date window, the shop context
      (all shops, or the list of context shop ids), `onlyChildren` and `export`. */
  datatype Request = Request(window: Window, contextAll: bool, contextShops: seq<int>, onlyChildren: int, forExport: bool)

  /** The statement `getData()` runs: the scope list and leaf-only mode of its text, and
      the clauses appended to it. */
  datatype ReportQuery = ReportQuery(scope: seq<int>, leafOnly: bool, order: Option<OrderClause>, limit: Option<LimitClause>)

  /** The rows the statement, as written, returns: rows of the filtered set, no more of
      them than the set holds, and without `LIMIT` all of them. */
  function Execute(db: Db, w: Window, q: ReportQuery): (page: seq<ReportRow>)
    ensures forall r :: r in page ==> r in RowsAsWritten(db, w, q.scope, q.leafOnly)
    ensures |page| <= |RowsAsWritten(db, w, q.scope, q.leafOnly)|
    ensures q.limit.None? ==> multiset(page) == multiset(RowsAsWritten(db, w, q.scope, q.leafOnly))
  {
    var rows := RowsAsWritten(db, w, q.scope, q.leafOnly);
    ClausesKeepRows(rows, q.order, q.limit);
    Limit(OrderBy(rows, q.order), q.limit)
  }

  /** `FOUND_ROWS()` after `SQL_CALC_FOUND_ROWS`: the number of rows without the `LIMIT`,
      which is the size of the filtered set whatever the `ORDER BY`. */
  function FoundRows(db: Db, w: Window, q: ReportQuery): (n: nat)
    ensures n == |RowsAsWritten(db, w, q.scope, q.leafOnly)|
  {
    var ordered := OrderBy(RowsAsWritten(db, w, q.scope, q.leafOnly), q.order);
    assert |multiset(ordered)| == |ordered|;
    |ordered|
  }

  /** What one pass of the post-processing loop makes of a row: outside an export the
      name is decorated; everywhere the cost column becomes revenue minus cost. */
  function PostProcessRow(r: ReportRow, forExport: bool): ReportRow {
    r.(name := if forExport then r.name else Some(Names.Decorate(r.name, r.hasChildren)),
       totalWholeSalePriceSold := r.totalPriceSold - r.totalWholeSalePriceSold)
  }

  /** The loop's effect on the result set: the same rows in the same order, each with the
      cost column replaced by revenue minus cost and, outside an export, the name
      decorated; the other columns are untouched. */
  function PostProcessed(rows: seq<ReportRow>, forExport: bool): (ps: seq<ReportRow>)
    ensures |ps| == |rows|
    ensures forall i :: 0 <= i < |rows| ==>
      ps[i].(name := rows[i].name, totalWholeSalePriceSold := rows[i].totalWholeSalePriceSold) == rows[i] &&
      ps[i].totalWholeSalePriceSold == rows[i].totalPriceSold - rows[i].totalWholeSalePriceSold
    ensures forExport ==> forall i :: 0 <= i < |rows| ==> ps[i].name == rows[i].name
    ensures !forExport ==> forall i :: 0 <= i < |rows| ==> ps[i].name == Some(Names.Decorate(rows[i].name, rows[i].hasChildren))
  {
    seq(|rows|, i requires 0 <= i < |rows| => PostProcessRow(rows[i], forExport))
  }

  /** The name rewrite of the loop body, step by step: split at `>`, then icon, trimmed
      first part, `" > "`, the marker, trimmed second part. */
  method DecorateName(name: Option<string>, hasChildren: nat) returns (decorated: string)
    ensures decorated == Names.Decorate(name, hasChildren)
  {
    var parts := Names.Explode(name.GetOr(""), '>');
    decorated := Names.FolderIcon + Names.Trim(parts[0]) + " > ";
    if hasChildren == 0 {
      decorated := decorated + Names.Bullet;
    } else {
      decorated := decorated + Names.FolderIcon;
    }
    decorated := decorated + Names.Trim(if |parts| > 1 then parts[1] else "");
  }

  /** The body of the `foreach ($values as &$value)` loop for one row. */
  method PostProcessValue(value: ReportRow, forExport: bool) returns (processed: ReportRow)
    ensures processed == PostProcessRow(value, forExport)
  {
    processed := value;
    if !forExport {
      var name := DecorateName(value.name, value.hasChildren);
      processed := processed.(name := Some(name));
    }
    // The cost column is never NULL (it is `ROUND(IFNULL(…, 0), 2)`), so it is always set.
    processed := processed.(totalWholeSalePriceSold := value.totalPriceSold - value.totalWholeSalePriceSold);
  }

  /** The `foreach ($values as &$value)` loop: rewrites every row in place. */
  method PostProcess(values: array<ReportRow>, forExport: bool)
    modifies values
    ensures values[..] == PostProcessed(old(values[..]), forExport)
  {
    ghost var rows := values[..];
    for i := 0 to values.Length
      invariant forall k {:trigger values[k]} :: 0 <= k < i ==> values[k] == PostProcessRow(rows[k], forExport)
      invariant forall k {:trigger values[k]} :: i <= k < values.Length ==> values[k] == rows[k]
    {
      values[i] := PostProcessValue(values[i], forExport);
    }
  }

  /** The result set of `executeS`, as the array the loop then rewrites. */
  method ResultArray(rows: seq<ReportRow>) returns (page: array<ReportRow>)
    ensures fresh(page) && page[..] == rows
  {
    page := new ReportRow[|rows|](i requires 0 <= i < |rows| => rows[i]);
  }

  /** `executeS` of the statement, the post-processing loop over its rows, and the
      `SELECT FOUND_ROWS()` that follows. */
  method RunQuery(db: Db, w: Window, q: ReportQuery, forExport: bool) returns (rows: seq<ReportRow>, found: nat)
    ensures rows == PostProcessed(Execute(db, w, q), forExport)
    ensures found == FoundRows(db, w, q)
  {
    var page := ResultArray(Execute(db, w, q));
    PostProcess(page, forExport);
    rows := page[..];
    found := FoundRows(db, w, q);
  }

  class StatsBestCategories {
    /** The grid's sort column, when it validated as a name. */
    var sort: Option<Column>
    /** The grid's sort direction, when it is set and validated. */
    var direction: Option<Direction>
    /** The grid's paging offset and size, when each is an unsigned integer. */
    var start: Option<nat>
    var limit: Option<nat>
    var query: ReportQuery
    var values: seq<ReportRow>
    var totalCount: nat

    constructor(sort: Option<Column>, direction: Option<Direction>, start: Option<nat>, limit: Option<nat>)
      ensures this.sort == sort && this.direction == direction
      ensures this.start == start && this.limit == limit
      ensures values == [] && totalCount == 0
    {
      this.sort := sort;
      this.direction := direction;
      this.start := start;
      this.limit := limit;
      query := ReportQuery([], false, None, None);
      values := [];
      totalCount := 0;
    }

    /** The statement `getData()` assembles: the scope list and leaf-only mode in its
        text, then `ORDER BY` only for a validated sort column and `LIMIT` only when both
        paging values are set. */
    method BuildQuery(db: Db, req: Request) returns (q: ReportQuery)
      ensures q.scope == Scope.ScopeIds(db, req.contextAll, req.contextShops)
      ensures q.leafOnly == (req.onlyChildren == 1)
      ensures q.order == if sort.Some? then Some(OrderClause(sort.value, direction)) else None
      ensures q.limit == if start.Some? && limit.Some? then Some(LimitClause(start.value, limit.value)) else None
    {
      var categories := Scope.ShopScope(db, req.contextAll, req.contextShops);
      var leafOnly := req.onlyChildren == 1;
      q := ReportQuery(categories, leafOnly, None, None);
      if sort.Some? {
        q := q.(order := Some(OrderClause(sort.value, direction)));
      }
      if start.Some? && limit.Some? {
        q := q.(limit := Some(LimitClause(start.value, limit.value)));
      }
    }

    method GetData(db: Db, req: Request)
      modifies this
      ensures sort == old(sort) && direction == old(direction) && start == old(start) && limit == old(limit)
      ensures query.scope == Scope.ScopeIds(db, req.contextAll, req.contextShops)
      ensures query.leafOnly == (req.onlyChildren == 1)
      ensures query.order == if sort.Some? then Some(OrderClause(sort.value, direction)) else None
      ensures query.limit == if start.Some? && limit.Some? then Some(LimitClause(start.value, limit.value)) else None
      ensures values == PostProcessed(Execute(db, req.window, query), req.forExport)
      ensures totalCount == FoundRows(db, req.window, query)
    {
      query := BuildQuery(db, req);
      values, totalCount := RunQuery(db, req.window, query, req.forExport);
    }
  }

  /** The page holds no more rows than `FOUND_ROWS()`, and without `LIMIT` exactly that many. */
  lemma PageWithinTotal(db: Db, w: Window, q: ReportQuery)
    ensures |Execute(db, w, q)| <= FoundRows(db, w, q)
    ensures q.limit.None? ==> |Execute(db, w, q)| == FoundRows(db, w, q)
  {
    if q.limit.None? {
      assert |multiset(Execute(db, w, q))| == |multiset(RowsAsWritten(db, w, q.scope, q.leafOnly))|;
    }
  }

  /** The `LIMIT start, count` page is the slice `[start, start + count)` of the ordered
      rows, and the pages of one size, concatenated, give back all ordered rows. */
  lemma PageIsSlice(db: Db, w: Window, q: ReportQuery, count: nat)
    requires q.limit.Some?
    ensures var ordered := OrderBy(RowsAsWritten(db, w, q.scope, q.leafOnly), q.order);
      var l := q.limit.value;
      forall i :: 0 <= i < |Execute(db, w, q)| ==> l.start + i < |ordered| && Execute(db, w, q)[i] == ordered[l.start + i]
    ensures var ordered := OrderBy(RowsAsWritten(db, w, q.scope, q.leafOnly), q.order);
      count > 0 ==> PagesFrom(ordered, 0, count) == ordered
  {
    var ordered := OrderBy(RowsAsWritten(db, w, q.scope, q.leafOnly), q.order);
    var l := q.limit.value;
    assert Execute(db, w, q) == Slice(ordered, l.start, l.count);
    if count > 0 {
      PagesReassemble(ordered, 0, count);
    }
  }

  /** Every displayed row keeps what the statement as written guarantees: never category
      1, inside a non-empty scope list, a leaf in leaf-only mode with a scope list, and in
      leaf-only mode without one a category with children shows no sales. The displayed
      margin is the statement's revenue minus its cost. */
  lemma DisplayedRows(db: Db, w: Window, q: ReportQuery, forExport: bool, i: int)
    requires 0 <= i < |Execute(db, w, q)|
    ensures var shown := PostProcessed(Execute(db, w, q), forExport)[i];
      var row := Execute(db, w, q)[i];
      shown.id == row.id && shown.id != 1 &&
      (|q.scope| > 0 ==> shown.id in q.scope) &&
      (q.leafOnly && |q.scope| > 0 ==> shown.hasChildren == 0) &&
      (q.leafOnly && |q.scope| == 0 && shown.hasChildren > 0 ==>
         shown.totalQuantitySold == 0 && shown.totalPriceSold == 0.0 && shown.totalWholeSalePriceSold == 0.0) &&
      shown.totalWholeSalePriceSold == row.totalPriceSold - row.totalWholeSalePriceSold
  {
    var row := Execute(db, w, q)[i];
    assert row in Execute(db, w, q);
    RowsAsWrittenFiltered(db, w, q.scope, q.leafOnly, row);
  }

  /** In the interactive grid a category whose own and parent names contain no `>` and
      no surrounding spaces shows as the parent, the marker of a leaf or of a category
      with children, and its own name. */
  lemma DisplayedName(db: Db, w: Window, c: Category, joinSales: bool)
    requires c.parentId in db.names && c.id in db.names
    requires '>' !in db.names[c.parentId] && '>' !in db.names[c.id]
    requires Names.Trimmed(db.names[c.parentId]) && Names.Trimmed(db.names[c.id])
    ensures PostProcessRow(BuildRow(db, w, c, joinSales), false).name ==
      Some(Names.FolderIcon + db.names[c.parentId] + " > " +
           (if ChildCount(db.categories, c.id) == 0 then Names.Bullet else Names.FolderIcon) + db.names[c.id])
  {
    Names.DecorateBreadcrumb(db.names[c.parentId], db.names[c.id], ChildCount(db.categories, c.id));
  }

  /** The export and the interactive grid show the same rows in the same order with the
      same numbers; only the name differs. */
  lemma ExportParity(rows: seq<ReportRow>, i: int)
    requires 0 <= i < |rows|
    ensures PostProcessed(rows, true)[i] == PostProcessed(rows, false)[i].(name := rows[i].name)
  {
  }

  // A worked scenario: one valid order in the window with rate 1 holding three units
  // at 20.00 with a 5.00 cost snapshot, of product 10 linked to the leaf category 2,
  // whose product page has 10 views over a date range inside the window.

  const ScenarioWindow: Window := Window(1, 31)

  function ScenarioDb(): Db {
    Db([Category(1, 0, 1, 4), Category(2, 1, 2, 3)], map[], [CategoryProduct(2, 10)],
       [Product(10, 0.0)], [], [Order(100, 1, 15, 1.0)], [OrderLine(100, 10, 0, 3, 20.0, 5.0)],
       [Page(50, 1, 10)], [PageViewed(50, 7, 10)], [DateRange(7, 2, 30)], [])
  }

  lemma ScenarioSales()
    ensures Sales.CategorySales(ScenarioDb(), ScenarioWindow, ScenarioDb().links, 2) == Sales.Totals(3, 60.0, 15.0)
  {
    var db, w := ScenarioDb(), ScenarioWindow;
    var line, order := db.lines[0], db.orders[0];
    assert FindOrder(db.orders, 100) == Some(order);
    assert Sales.QualifyingLine(db, w, db.lines, 10, 0);
    var s := Sales.SalesOf(db, w, db.lines, 10);
    assert db.lines[..0] == [];
    assert s == [Sales.Sale(line, order)];
    assert s[..0] == [];
    assert Sales.LineCost(db, db.products[0], line) == 15.0;
    assert Sales.SumSales(db, db.products[0], s) == Sales.Totals(3, 60.0, 15.0);
    var d60, d15 := Money.Div(60.0, 1.0), Money.Div(15.0, 1.0);
    assert d60 == Some(60.0) && d15 == Some(15.0);
    assert Sales.ProductSales(db, w, db.products[0]) == Some(Sales.ProductTotals(3, Some(60.0), Some(15.0)));
    assert FindProduct(db.products, 10) == Some(db.products[0]);
    assert db.links[..0] == [];
  }

  lemma ScenarioViews()
    ensures Traffic.PageViews(ScenarioDb(), ScenarioWindow, 2) == 10
  {
    var db, w := ScenarioDb(), ScenarioWindow;
    assert FindPage(db.pages, 50) == Some(db.pages[0]);
    assert FindRange(db.ranges, 7) == Some(db.ranges[0]);
    assert FindProduct(db.products, 10) == Some(db.products[0]);
    assert Linked(db.links, 2, 10) by {
      assert db.links[0] == CategoryProduct(2, 10);
    }
    assert Traffic.CountsFor(db, w, db.views[0], 2);
    assert db.views[..0] == [];
  }

  lemma ScenarioRows()
    ensures Rows(ScenarioDb(), ScenarioWindow, [], false) == [BuildRow(ScenarioDb(), ScenarioWindow, ScenarioDb().categories[1], true)]
  {
    var db, w := ScenarioDb(), ScenarioWindow;
    assert db.categories[..1] == [db.categories[0]];
    assert db.categories[..1][..0] == [];
    assert !Selected(db, [], false, db.categories[0]);
    assert Selected(db, [], false, db.categories[1]);
  }

  /** Run in the all-shops context without leaf-only mode, sorting or paging, the
      statement returns the scenario's one row: 3 units, 60.00, 10 views and no children,
      and after post-processing a margin of 45.00. */
  lemma EndToEndScenario()
    ensures var rows := Execute(ScenarioDb(), ScenarioWindow, ReportQuery([], false, None, None));
      |rows| == 1 && rows[0].id == 2 && rows[0].totalQuantitySold == 3 && rows[0].totalPriceSold == 60.0 &&
      rows[0].totalPageViewed == 10 && rows[0].hasChildren == 0 &&
      PostProcessed(rows, true)[0].totalWholeSalePriceSold == 45.0
  {
    var db, w := ScenarioDb(), ScenarioWindow;
    AsWrittenAgrees(db, w, db.categories, [], false);
    assert Execute(db, w, ReportQuery([], false, None, None)) == Rows(db, w, [], false);
    ScenarioRows();
    ScenarioSales();
    ScenarioViews();
    assert ChildCount(db.categories, 2) == 0 by {
      assert db.categories[1..][1..] == [];
    }
    assert Money.Round2(60.0) == 60.0 by {
      assert 60.0 * 100.0 + 0.5 == 6000.5;
    }
    assert Money.Round2(15.0) == 15.0 by {
      assert 15.0 * 100.0 + 0.5 == 1500.5;
    }
  }
}
