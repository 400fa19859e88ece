# Best categories statistics report — a Dafny model

This project models the data method of PrestaShop's "best categories" statistics
module: `getData()` in `statsbestcategories.php`. For every product category it
reports the units sold, the revenue and the margin over a date window, together with
the views of the category's product pages. The method works in five steps:

1. It builds the list of categories inside the trees of the context shops.
2. It assembles one SQL statement. The statement rolls sales up from order lines to
   products to categories, and can restrict the result to the context shops' categories
   and to leaf categories.
3. It appends `ORDER BY` and `LIMIT` clauses from the grid's sort and paging state.
4. It rewrites every returned row in place: a decorated breadcrumb name, and the
   margin in the cost column.
5. It stores the rows and the total row count on the module object.

The model represents the database as sequences of records (`Store.Db`). It gives the
SQL statement's meaning as functions over those records:

- `Sales` covers the inner derived table, the cost fallback `CASE` and the roll-up
  over `category_product`.
- `Traffic` covers the page-view subquery.
- `Report` covers the grouping, the filters and `HAVING`.
- `Ordering` covers `ORDER BY` and `LIMIT`.

The imperative parts take the source's own shape:

- `Scope.ShopScope` copies the shop roots' nested-set intervals and collects the
  category ids with two loops.
- `Grid.PostProcess` is the loop that rewrites each row of the result array in place.
- `Grid.StatsBestCategories` is the module object. Its fields are the grid's sort,
  direction, start and limit, the built query, the rows and the total count.
  `GetData` updates them.

Money is modelled as exact rationals (`real`). `ROUND(x, 2)` rounds a half away from
zero. A division by a conversion rate of zero yields SQL NULL (`None`). `SUM` skips
NULLs. The `IFNULL(…, 0)` wrappers turn the sum of an empty or all-NULL group into 0.

The inputs come from outside the method and are parameters of the model:

- the date window,
- the shop context (all shops, or the list of context shop ids),
- the `onlyChildren` and `export` request values,
- the validated sort and paging values.

Three behaviours of the code are easy to misread, and the model follows the code:

- An empty list of shop root categories means no category restriction, because the
  `WHERE` is then omitted (`statsbestcategories.php:251`). It does not mean an empty
  report: the membership clause of `Report.RowsAsWrittenOf` keeps every category whose
  id is not 1, in either mode.
- Revenue and cost are divided by a conversion rate once, after `SUM`, per product
  group (`statsbestcategories.php:230`, `:240`). They are not converted line by line:
  see `Sales.SingleRateConversion` and `Sales.MixedRatesDivideOnce`.
- A sort key that does not validate is not rejected. The statement simply has no
  `ORDER BY` (`statsbestcategories.php:257-262`).

`getData()` runs the statement exactly as its text reads. `Grid.Execute` and
`Grid.FoundRows` therefore use `Report.RowsAsWritten`. In leaf-only mode with an empty
scope list, the statement as written differs from what the mode intends (see
"## Findings"). `Report.Rows` is the intended statement; `Report.AsWrittenAgrees`
proves that the two agree in every other case.

## Model

| member | source | states |
|---|---|---|
| Store.ChildCount | statsbestcategories.php:217-219 | the `hasChildren` count is the number of categories whose parent is this one; so it is zero exactly when there is none, and at most the number of categories |
| Money.Div | statsbestcategories.php:229-240 | dividing by a conversion rate yields NULL exactly when the rate is zero, and otherwise a quotient that multiplied by the rate gives the sum back |
| Money.Round2 | statsbestcategories.php:203-204 | `ROUND(…, 2)` is a whole number of hundredths within half a hundredth of its argument; an exact half goes away from zero (strictly above `x - 0.005` for `x >= 0`, strictly below `x + 0.005` for `x < 0`); a non-negative amount stays non-negative |
| Money.Round2Idempotent | statsbestcategories.php:203-204 | rounding an already rounded amount changes nothing |
| Money.Round2HalfUp | statsbestcategories.php:203-204 | a half hundredth rounds away from zero: 10.005 to 10.01 and -10.005 to -10.01 |
| Scope.RootIntervals | statsbestcategories.php:167-178 | an interval is collected exactly when it is the `nleft`/`nright` of a category that is the root category of a context shop |
| Scope.IdsWithin | statsbestcategories.php:180-188 | a category id is collected exactly when its category lies inside one of the collected intervals |
| Scope.ShopScope | statsbestcategories.php:164-191 | the two loops compute exactly the scope list: empty in the all-shops context or when no root is found, otherwise the ids of all categories inside a root interval |
| Scope.ScopeMembership | statsbestcategories.php:164-191 | outside the all-shops context, an id is in the scope list exactly when some category with that id lies inside the interval of some context shop's root category |
| Scope.RootInOwnScope | statsbestcategories.php:177 | each context shop's root category belongs to its own scope, since the interval bounds are inclusive |
| Scope.ScopeEmptyIffNoRoot | statsbestcategories.php:174-191 | outside the all-shops context the scope list is empty exactly when no category is the root of a context shop |
| Sales.UnitCost | statsbestcategories.php:231-240 | a line's unit cost is the first non-zero of the line's cost snapshot, the variant's price and the product's price, and NULL exactly when all three are zero |
| Sales.SalesOf | statsbestcategories.php:241-248 | a joined line is kept exactly when it is a line of the product whose order exists, is valid and was invoiced inside the window; there are no more joined rows than lines |
| Sales.SalesOfCons | statsbestcategories.php:241-248 | one more order line adds its joined row exactly once when it qualifies and nothing otherwise, so the joined rows count each qualifying line once |
| Sales.SumSalesConcat | statsbestcategories.php:229-240 | the three `SUM`s over two runs of rows are the sums of the runs added together |
| Sales.LineCountsOnce | statsbestcategories.php:229-248 | one more order line adds its quantity, revenue and cost to its product's sums when it qualifies, and changes nothing otherwise |
| Sales.ProductSales | statsbestcategories.php:224-249 | a product has a derived-table row exactly when it has a qualifying line; the row's quantity is the summed quantity; revenue and cost are NULL together, exactly when the rate read is zero, and otherwise multiply by that rate to the sums |
| Sales.NoTotalsIffNoQualifyingLine | statsbestcategories.php:224-249 | a product has no derived-table row exactly when none of its lines belongs to a valid order invoiced inside the window |
| Sales.SingleRateConversion | statsbestcategories.php:229-230 | when all orders of a product share one non-zero rate, dividing the revenue sum once equals converting each line's revenue by its own order's rate |
| Sales.MixedRatesDivideOnce | statsbestcategories.php:229-230 | with two lines of 10.00 at rates 1 and 2, per-line conversion gives 15.00, but the one division gives 20.00 with the model's rate and 10.00 with the other: 15.00 with neither |
| Sales.CategoryWithoutSalesIsZero | statsbestcategories.php:200-204 | a category none of whose linked products has sales in the window reports 0 for quantity, revenue and cost, never NULL |
| Sales.SalesForProduct | statsbestcategories.php:224-249 | the joined totals are NULL exactly when the product id is not in `product` (no row joins) or the product has no qualifying line (its row's totals are NULL after the `LEFT JOIN`) |
| Sales.CategorySales | statsbestcategories.php:202-204 | a category with no `category_product` row gets 0 for quantity, revenue and cost |
| Sales.CategorySalesSnoc | statsbestcategories.php:223-250 | one more `category_product` row adds its product's totals to its own category and leaves the others unchanged |
| Sales.LinkCountsInFull | statsbestcategories.php:223-250 | each `category_product` row adds the whole totals of its product to its own category and changes no other category |
| Sales.SumSalesNonNegative | statsbestcategories.php:229-240 | with non-negative prices a product's summed quantity, revenue and cost are non-negative |
| Sales.CategorySalesNonNegative | statsbestcategories.php:202-204 | with non-negative prices and positive rates every category's quantity, revenue and cost are non-negative |
| Traffic.ViewSumZeroIff | statsbestcategories.php:205-216 | a category's page views (`PageViews`, the sum over the counter table) are zero exactly when every counter row that passes the subquery's joins and conditions for it (`CountsFor`) is zero |
| Traffic.UnlinkedCategoryHasNoViews | statsbestcategories.php:205-212 | a category with no `category_product` row gets 0 page views, never NULL |
| Traffic.PartialRangeIgnored | statsbestcategories.php:214-215 | a counter over a date range that starts or ends outside the window adds nothing |
| Report.Breadcrumb | statsbestcategories.php:201 | the name is NULL exactly when the parent's or the category's name is missing, and otherwise the parent's name, `" > "` and the category's name |
| Report.BuildRowColumns | statsbestcategories.php:201-219 | a category's row carries its id, its breadcrumb, its page views and its child count; its revenue and cost columns are whole numbers of hundredths, rounded once from the link sums (within half a hundredth, an exact half going away from zero), or zeros when no `t` row joins |
| Report.RowsOf | statsbestcategories.php:200-254 | there are no more rows than categories, no row for category 1, and a row is present exactly when its category passes the scope, leaf and `HAVING` filters and the row is built from that category |
| Report.RowsOfDistinctIds | statsbestcategories.php:253 | with distinct category ids, no two rows share an id: one row per category |
| Report.RowsFiltered | statsbestcategories.php:251-254 | every row's id differs from 1, is in a non-empty scope list, and in leaf-only mode belongs to a category without children |
| Report.LeafOnlyRowsAreLeaves | statsbestcategories.php:193-196 | in leaf-only mode no category of the table has a reported category as its parent |
| Report.EmptyScopeRestrictsNothing | statsbestcategories.php:251 | with an empty scope list every category other than 1 (in leaf-only mode: every leaf) has its row |
| Report.ScopedRowUnderShopRoot | statsbestcategories.php:164-191 | with a non-empty scope list built for a shop context, every reported category lies inside the interval of a root category of a context shop |
| Report.RowsAsWrittenOf | statsbestcategories.php:251-252 | the statement as written keeps every category other than 1 when the scope list is empty; in leaf-only mode it then only stops the sales of categories with children from joining; there are no more rows than categories |
| Report.RowsAsWrittenOfDistinctIds | statsbestcategories.php:253 | the statement as written also gives one row per category when the category ids are distinct |
| Report.RowsAsWrittenFiltered | statsbestcategories.php:251-254 | every row of the statement as written is not category 1, lies in a non-empty scope list, is a leaf in leaf-only mode with a scope list, and in leaf-only mode without one shows zero sales when it has children |
| Report.AsWrittenAgrees | statsbestcategories.php:251-252 | the statement as written and the corrected one agree except in leaf-only mode with an empty scope list |
| Report.LeafOnlyUnscopedKeepsParents | statsbestcategories.php:251-252 | in leaf-only mode with an empty scope list the statement as written reports category 2, which has a child, while the corrected rows hold only leaves |
| Ordering.SortRowsCorrect | statsbestcategories.php:257-261 | `ORDER BY` returns a permutation of the rows, ordered by the chosen column in the chosen direction |
| Ordering.OrderBy | statsbestcategories.php:257-262 | `ORDER BY` returns the same rows, ordered by the column and direction when the clause is present, and otherwise in table order, the order the model fixes where MySQL leaves it open |
| Ordering.Limit | statsbestcategories.php:264-266 | `LIMIT start, count` returns at most all rows, each the row `start` places further on; without the clause, all rows |
| Ordering.Slice | statsbestcategories.php:264-265 | `LIMIT start, count` returns the rows at positions start to start + count - 1, cut at the end, and no rows when start is past the end |
| Ordering.ClausesKeepRows | statsbestcategories.php:257-266 | with any clauses the statement returns only filtered rows and no more than the rows without `LIMIT`; without `LIMIT` it returns all of them; with `ORDER BY` they are ordered |
| Ordering.PagesReassemble | statsbestcategories.php:264-265 | the consecutive pages of any positive size, concatenated, give back all ordered rows |
| Names.Explode | statsbestcategories.php:271 | `explode` always yields at least one part, so `$parts[0]` exists |
| Names.ExplodeImplode | statsbestcategories.php:271 | `explode` loses nothing: joining the parts with `>` gives the name back, and no part contains `>` |
| Names.ExplodeAt | statsbestcategories.php:271 | a name `a > b` with no `>` in `a` splits into `a` followed by the parts of `b` |
| Names.Trim | statsbestcategories.php:272-278 | `trim` leaves no space character at either end, and returns a string that has none there unchanged |
| Names.TrimCutsOnlySpaces | statsbestcategories.php:272-278 | `trim` returns a contiguous piece of its input, and everything cut off on either side is a space character |
| Names.DecorateBreadcrumb | statsbestcategories.php:271-278 | a breadcrumb `parent > name` shows as the icon, the parent, `" > "`, a bullet for a leaf or an icon otherwise, and the name |
| Names.DecorateKeepsTwoParts | statsbestcategories.php:271-278 | of a breadcrumb `a > b > c`, only `a > b` is shown |
| Names.DecorateMissingName | statsbestcategories.php:271-278 | a NULL breadcrumb shows as just the icon, `" > "` and the marker |
| Grid.Execute | statsbestcategories.php:268 | the statement as written returns only rows of its filtered set, no more of them than the set holds, and all of them without `LIMIT` |
| Grid.FoundRows | statsbestcategories.php:288 | `FOUND_ROWS()` is the size of the filtered set whatever the `ORDER BY` |
| Grid.PostProcessed | statsbestcategories.php:269-285 | post-processing keeps row order and every column but two: the cost column becomes revenue minus cost, and the name is decorated outside an export and kept in one |
| Grid.DecorateName | statsbestcategories.php:271-278 | the step-by-step string building of the loop body yields the decorated breadcrumb |
| Grid.PostProcessValue | statsbestcategories.php:270-284 | one pass of the loop decorates the name outside an export, turns the cost column into revenue minus cost, and changes nothing else |
| Grid.PostProcess | statsbestcategories.php:269-285 | the loop rewrites every element of the result array in place into its post-processed row |
| Grid.RunQuery | statsbestcategories.php:268-288 | the stored rows are the post-processed rows of the statement as written, and the count is the number of its rows before `LIMIT` |
| Grid.StatsBestCategories.BuildQuery | statsbestcategories.php:164-266 | the assembled statement has the shop scope list, leaf-only mode exactly when `onlyChildren == 1`, `ORDER BY` only for a valid sort and `LIMIT` only for valid paging |
| Grid.StatsBestCategories.GetData | statsbestcategories.php:152-289 | the method builds the scope list, sets leaf-only mode from `onlyChildren == 1`, appends `ORDER BY` only for a valid sort and `LIMIT` only for valid paging, stores the post-processed rows of the statement as written and its count, and leaves the sort and paging fields unchanged |
| Grid.PageWithinTotal | statsbestcategories.php:264-288 | the page holds no more rows than `FOUND_ROWS()`, and exactly that many without `LIMIT` |
| Grid.PageIsSlice | statsbestcategories.php:264-265 | the page is a contiguous run of the ordered rows starting at `start`, and pages of one size reassemble the ordered rows |
| Grid.DisplayedRows | statsbestcategories.php:269-285 | every displayed row keeps what the statement as written guarantees (not category 1; in a non-empty scope list; a leaf in leaf-only mode with a scope list; zero sales for a category with children in leaf-only mode without one), and its margin is the statement's revenue minus its cost |
| Grid.DisplayedName | statsbestcategories.php:271-278 | in the interactive grid a category shows as its parent's name, the leaf or parent marker and its own name |
| Grid.ExportParity | statsbestcategories.php:270 | the export and the interactive grid show the same rows with the same numbers; only the name differs |
| Grid.EndToEndScenario | statsbestcategories.php:200-268 | run without scope, leaf-only mode, sorting or paging: three units at 20.00 with a 5.00 cost snapshot, in a valid order at rate 1, of a product of leaf category 2 whose page has 10 views give one row: 3 units, 60.00, 10 views, no children, margin 45.00 |

## Left out

- `formatPrice` with the shop locale and currency (`statsbestcategories.php:282-284`)
  is presentation and is not modelled. The model keeps the two amounts as numbers:
  the cost column holds the margin, and the revenue column is unchanged.
- PHP floating-point and MySQL `DECIMAL` scales are not modelled. The exact division
  result is rounded only by `ROUND(…, 2)`.
- The `SHOW COLUMNS` / `ALTER TABLE` migration (`statsbestcategories.php:158-162`) is
  not modelled. The model assumes the `original_wholesale_price` column exists.
- `Shop::addSqlRestriction(SHARE_ORDER, 'o')` (`statsbestcategories.php:245`) is not
  part of this model. Its fragment stands in the `ON` condition of the
  `product_attribute` join (`:244`), before the `WHERE` (`:246`). So it never filters
  orders; it can only stop a variant's price from joining.
- Sales.UnitCost: the variant's wholesale price always joins when the variant row
  exists. The model ignores that the shop fragment above can keep it from joining for
  an order of another shop, which would move such a line to the product-price tier.
- `Shop::addSqlRestrictionOnLang` and the language join are not modelled as such. The
  names of the report language and shop are an input map from category id to name.
  A missing entry plays the part of a missing `category_lang` row.
- `Shop::getContext`, `Shop::getContextListShopID`, `Tools::getValue`,
  `Tools::getIsset`, `Validate::IsName`, `Validate::isSortDirection` and
  `Validate::IsUnsignedInt` are not part of this model. Their results are parameters:
  - the shop context,
  - `onlyChildren`,
  - `export`,
  - an optional sort column and direction,
  - optional start and limit.
- The sort column ranges over five report columns. Other sort names are not modelled:
  for example `hasChildren` (`statsbestcategories.php:219`), a select-list column the
  server can order by, or names of no column.
- MySQL leaves open which order's `conversion_rate` a product group reads. The model
  uses the group's first qualifying line.
- MySQL also leaves the order of rows with equal sort keys open, and without `ORDER BY`
  the order of all rows. The model fixes one order: an insertion sort for ties, and
  table order without the clause (`Ordering.OrderBy`).
- MySQL compares names by collation; the model compares them by character code.
- Primary keys are not assumed unique. Every lookup by id takes the first matching
  record. One row per category is proved only for distinct category ids
  (`Report.RowsOfDistinctIds`).
- Report.RowsOf: builds one row per `category` record. With two records sharing an
  id, `GROUP BY ca.id_category` (`statsbestcategories.php:253`) would give one row
  carrying both records' joined sums; the report rows match the query only when
  `id_category` is unique, as its primary key makes it.
- Names.Trim: strips the six characters PHP's `trim` strips by default. It has no
  notion of multibyte encodings.
- Grid.PostProcessValue: PHP reads a missing `$parts[1]` as NULL and `trim(NULL)` as
  the empty string. The model uses the empty string directly and does not model the
  notice PHP emits.
- `csvExport`, `display`, installation and the module's user interface are outside
  `getData()` and are not modelled.

## Findings

The module object models the code as written: `Grid.Execute` runs
`Report.RowsAsWritten`. The corrected rows, `Report.Rows`, have the intended property
proved (`Report.LeafOnlyRowsAreLeaves`). `Report.AsWrittenAgrees` proves that the two
differ only in leaf-only mode with an empty scope list.

| source | as written | input that shows it | evidently intended | confidence | as-written member | corrected member |
|---|---|---|---|---|---|---|
| statsbestcategories.php:251-252 | with an empty scope list no `WHERE` is emitted, so the leaf-only fragment `AND NOT EXISTS (…)` becomes part of the `ON` condition of the last `LEFT JOIN`; categories with children stay in the report with zeroed sales | the all-shops context with `onlyChildren=1` and categories 1 → 2 → 3: category 2, which has child 3, is still reported | leaf-only mode keeps only categories without children, with or without a scope list | not executed | Report.RowsAsWrittenOf, Report.LeafOnlyUnscopedKeepsParents | Report.RowsOf, Report.LeafOnlyRowsAreLeaves |
