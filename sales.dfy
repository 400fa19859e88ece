/** Per-product sales totals over the date window (the inner derived table of the
    report query) and their roll-up to categories over `category_product`. */
module Sales {
  import opened Store
  import opened Money

  /** The variant's wholesale price as the `CASE` sees it: a missing variant row gives
      NULL, which never passes `<> 0`, so it acts as a zero tier. */
  function VariantPrice(v: Option<Variant>): real {
    if v.Some? then v.value.wholesalePrice else 0.0
  }

  /** The unit cost of an order line: the first non-zero of the line's snapshot, the
      variant's and the product's wholesale price; NULL (`None`) when all are zero. */
  function UnitCost(line: OrderLine, variant: Option<Variant>, product: Product): (c: Option<real>)
    ensures c.Some? ==> c.value != 0.0
    ensures line.originalWholesalePrice != 0.0 ==> c == Some(line.originalWholesalePrice)
    ensures line.originalWholesalePrice == 0.0 && VariantPrice(variant) != 0.0
      ==> c == Some(VariantPrice(variant))
    ensures line.originalWholesalePrice == 0.0 && VariantPrice(variant) == 0.0 && product.wholesalePrice != 0.0
      ==> c == Some(product.wholesalePrice)
    ensures c.None? <==>
      line.originalWholesalePrice == 0.0 && VariantPrice(variant) == 0.0 && product.wholesalePrice == 0.0
  {
    if line.originalWholesalePrice != 0.0 then Some(line.originalWholesalePrice)
    else if variant.Some? && variant.value.wholesalePrice != 0.0 then Some(variant.value.wholesalePrice)
    else if product.wholesalePrice != 0.0 then Some(product.wholesalePrice)
    else None
  }

  /** One row of `order_detail` joined with its order. */
  datatype Sale = Sale(line: OrderLine, order: Order)

  /** The inner `WHERE`: a valid order invoiced inside the window. */
  predicate Qualifies(o: Order, w: Window) {
    o.valid == 1 && Between(o.invoiceDate, w)
  }

  /** The line at index `k` is a line of product `pid` whose order qualifies. */
  predicate QualifyingLine(db: Db, w: Window, lines: seq<OrderLine>, pid: int, k: int)
    requires 0 <= k < |lines|
  {
    lines[k].productId == pid &&
    match FindOrder(db.orders, lines[k].orderId)
    case Some(o) => Qualifies(o, w)
    case None => false
  }

  /** The joined rows of product `pid` that pass the inner `WHERE`, in table order. */
  function SalesOf(db: Db, w: Window, lines: seq<OrderLine>, pid: int): (s: seq<Sale>)
    ensures |s| <= |lines|
    ensures forall x :: x in s <==>
      exists k :: 0 <= k < |lines| && QualifyingLine(db, w, lines, pid, k) &&
        x == Sale(lines[k], FindOrder(db.orders, lines[k].orderId).value)
  {
    if |lines| == 0 then []
    else
      var init := lines[..|lines| - 1];
      var rest := SalesOf(db, w, init, pid);
      assert forall k :: 0 <= k < |init| ==> lines[k] == init[k];
      assert forall k :: 0 <= k < |init| ==>
        (QualifyingLine(db, w, lines, pid, k) <==> QualifyingLine(db, w, init, pid, k));
      if QualifyingLine(db, w, lines, pid, |lines| - 1) then
        rest + [Sale(lines[|lines| - 1], FindOrder(db.orders, lines[|lines| - 1].orderId).value)]
      else rest
  }

  /** Prepending a line to the table prepends its sale when it qualifies and changes
      nothing else: the joined rows are counted once per qualifying line, in table order. */
  lemma {:induction false} SalesOfCons(db: Db, w: Window, l: OrderLine, lines: seq<OrderLine>, pid: int)
    ensures SalesOf(db, w, [l] + lines, pid) ==
      (if QualifyingLine(db, w, [l], pid, 0) then [Sale(l, FindOrder(db.orders, l.orderId).value)] else []) +
      SalesOf(db, w, lines, pid)
  {
    var all := [l] + lines;
    var head := if QualifyingLine(db, w, [l], pid, 0) then [Sale(l, FindOrder(db.orders, l.orderId).value)] else [];
    if |lines| == 0 {
      assert all[..0] == [];
      assert lines[..0] == [];
      assert all == [l];
    } else {
      var init, last := lines[..|lines| - 1], lines[|lines| - 1];
      assert all[..|all| - 1] == [l] + init;
      assert all[|all| - 1] == last;
      SalesOfCons(db, w, l, init, pid);
      assert QualifyingLine(db, w, all, pid, |all| - 1) <==> QualifyingLine(db, w, lines, pid, |lines| - 1);
      if QualifyingLine(db, w, lines, pid, |lines| - 1) {
        var x := Sale(last, FindOrder(db.orders, last.orderId).value);
        assert SalesOf(db, w, all, pid) == (head + SalesOf(db, w, init, pid)) + [x];
        assert SalesOf(db, w, lines, pid) == SalesOf(db, w, init, pid) + [x];
      }
    }
  }

  /** Quantity, revenue and cost of some rows, before currency conversion. */
  datatype Totals = Totals(quantity: int, revenue: real, cost: real)

  function Plus(a: Totals, b: Totals): Totals {
    Totals(a.quantity + b.quantity, a.revenue + b.revenue, a.cost + b.cost)
  }

  /** A line's cost, `CASE … END * product_quantity`; `SUM` skips a NULL, so it adds 0. */
  function LineCost(db: Db, product: Product, line: OrderLine): real {
    match UnitCost(line, FindVariant(db.variants, line.variantId), product)
    case Some(u) => u * line.quantity as real
    case None => 0.0
  }

  function SaleTotals(db: Db, product: Product, x: Sale): Totals {
    Totals(x.line.quantity, x.line.unitPriceTaxExcl * x.line.quantity as real, LineCost(db, product, x.line))
  }

  /** The three `SUM`s of the inner query. */
  function SumSales(db: Db, product: Product, s: seq<Sale>): Totals {
    if |s| == 0 then Totals(0, 0.0, 0.0)
    else Plus(SumSales(db, product, s[..|s| - 1]), SaleTotals(db, product, s[|s| - 1]))
  }

  lemma {:induction false} SumSalesConcat(db: Db, product: Product, a: seq<Sale>, b: seq<Sale>)
    ensures SumSales(db, product, a + b) == Plus(SumSales(db, product, a), SumSales(db, product, b))
  {
    if |b| == 0 {
      assert a + b == a;
    } else {
      var init := b[..|b| - 1];
      assert (a + b)[..|a + b| - 1] == a + init;
      assert (a + b)[|a + b| - 1] == b[|b| - 1];
      SumSalesConcat(db, product, a, init);
    }
  }

  /** Each qualifying order line is summed exactly once: adding a line to the table adds
      its quantity, revenue and cost to its product's sums when it qualifies, and
      nothing otherwise. */
  lemma LineCountsOnce(db: Db, w: Window, product: Product, l: OrderLine, lines: seq<OrderLine>)
    ensures SumSales(db, product, SalesOf(db, w, [l] + lines, product.id)) ==
      if QualifyingLine(db, w, [l], product.id, 0)
      then Plus(SaleTotals(db, product, Sale(l, FindOrder(db.orders, l.orderId).value)),
                SumSales(db, product, SalesOf(db, w, lines, product.id)))
      else SumSales(db, product, SalesOf(db, w, lines, product.id))
  {
    SalesOfCons(db, w, l, lines, product.id);
    if QualifyingLine(db, w, [l], product.id, 0) {
      var x := Sale(l, FindOrder(db.orders, l.orderId).value);
      SumSalesConcat(db, product, [x], SalesOf(db, w, lines, product.id));
      assert [x][..0] == [];
    } else {
      assert [] + SalesOf(db, w, lines, product.id) == SalesOf(db, w, lines, product.id);
    }
  }

  /** One row of the derived table `t`: the sums, with revenue and cost divided by the
      group's conversion rate (NULL when the rate is zero). */
  datatype ProductTotals = ProductTotals(quantity: int, revenue: Option<real>, cost: Option<real>)

  /** The rate the model takes for the group, which MySQL leaves open: the order of its
      first row. */
  function GroupRate(s: seq<Sale>): real
    requires |s| > 0
  {
    s[0].order.conversionRate
  }

  /** The inner derived table for one product: absent (NULL after the outer join) when
      the product has no qualifying line; otherwise the sums, divided by the rate once,
      after summing. */
  function ProductSales(db: Db, w: Window, product: Product): (r: Option<ProductTotals>)
    ensures r.None? <==> |SalesOf(db, w, db.lines, product.id)| == 0
    ensures r.Some? ==> r.value.quantity == SumSales(db, product, SalesOf(db, w, db.lines, product.id)).quantity
    ensures r.Some? ==> (r.value.revenue.None? <==> GroupRate(SalesOf(db, w, db.lines, product.id)) == 0.0)
    ensures r.Some? ==> (r.value.revenue.None? <==> r.value.cost.None?)
    ensures r.Some? && r.value.revenue.Some? ==>
      var s := SalesOf(db, w, db.lines, product.id);
      r.value.revenue.value * GroupRate(s) == SumSales(db, product, s).revenue &&
      r.value.cost.value * GroupRate(s) == SumSales(db, product, s).cost
  {
    var s := SalesOf(db, w, db.lines, product.id);
    if |s| == 0 then None
    else
      var t := SumSales(db, product, s);
      Some(ProductTotals(t.quantity, Div(t.revenue, GroupRate(s)), Div(t.cost, GroupRate(s))))
  }

  /** The totals the outer derived table joins on `capr.id_product`: NULL for a product id
      that is not in `product` (no row joins), and NULL for a product without a
      qualifying line (its row's totals are NULL after the `LEFT JOIN`). */
  function SalesForProduct(db: Db, w: Window, pid: int): (r: Option<ProductTotals>)
    ensures FindProduct(db.products, pid).None? ==> r.None?
    ensures r.None? <==> FindProduct(db.products, pid).None? || |SalesOf(db, w, db.lines, pid)| == 0
  {
    match FindProduct(db.products, pid)
    case Some(p) => ProductSales(db, w, p)
    case None => None
  }

  /** What one joined `t` row adds to the outer `SUM`s: NULLs add nothing. */
  function Contribution(t: Option<ProductTotals>): Totals {
    match t
    case None => Totals(0, 0.0, 0.0)
    case Some(p) => Totals(p.quantity, p.revenue.GetOr(0.0), p.cost.GetOr(0.0))
  }

  /** The outer `IFNULL(SUM(…), 0)`s of category `c`, over every link row of `c`. */
  function CategorySales(db: Db, w: Window, links: seq<CategoryProduct>, c: int): (t: Totals)
    ensures (forall k :: 0 <= k < |links| ==> links[k].categoryId != c) ==> t == Totals(0, 0.0, 0.0)
  {
    if |links| == 0 then Totals(0, 0.0, 0.0)
    else
      assert forall k :: 0 <= k < |links| - 1 ==> links[..|links| - 1][k] == links[k];
      var rest := CategorySales(db, w, links[..|links| - 1], c);
      var last := links[|links| - 1];
      if last.categoryId == c then Plus(rest, Contribution(SalesForProduct(db, w, last.productId))) else rest
  }

  /** A product has no totals exactly when none of its lines belongs to a valid order
      invoiced inside the window. */
  lemma NoTotalsIffNoQualifyingLine(db: Db, w: Window, product: Product)
    ensures ProductSales(db, w, product).None? <==>
      forall k :: 0 <= k < |db.lines| ==> !QualifyingLine(db, w, db.lines, product.id, k)
  {
    var s := SalesOf(db, w, db.lines, product.id);
    if |s| > 0 {
      assert s[0] in s;
    }
    if exists k :: 0 <= k < |db.lines| && QualifyingLine(db, w, db.lines, product.id, k) {
      var k :| 0 <= k < |db.lines| && QualifyingLine(db, w, db.lines, product.id, k);
      assert Sale(db.lines[k], FindOrder(db.orders, db.lines[k].orderId).value) in s;
    }
  }

  /** Revenue converted line by line, each with its own order's rate: the reference
      for what one division after the `SUM` computes. */
  function PerLineRevenue(s: seq<Sale>): real
    requires forall x :: x in s ==> x.order.conversionRate != 0.0
  {
    if |s| == 0 then 0.0
    else
      var x := s[|s| - 1];
      assert x in s;
      PerLineRevenue(s[..|s| - 1]) + x.line.unitPriceTaxExcl * x.line.quantity as real / x.order.conversionRate
  }

  /** When every order of the group carries the same non-zero rate, dividing once after
      the `SUM` equals converting line by line. */
  lemma {:induction false} SingleRateConversion(db: Db, product: Product, s: seq<Sale>, rate: real)
    requires rate != 0.0
    requires forall x :: x in s ==> x.order.conversionRate == rate
    ensures SumSales(db, product, s).revenue / rate == PerLineRevenue(s)
  {
    if |s| > 0 {
      var init := s[..|s| - 1];
      var x := s[|s| - 1];
      assert x in s;
      assert forall y :: y in init ==> y in s;
      SingleRateConversion(db, product, init, rate);
      var a := SumSales(db, product, init).revenue;
      var b := SaleTotals(db, product, x).revenue;
      assert SumSales(db, product, s).revenue == a + b;
      assert PerLineRevenue(s) == PerLineRevenue(init) + b / rate;
      DivAdd(a, b, rate);
    }
  }

  /** With orders at different rates the group is divided by one rate only: two
      lines of 10.00 at rates 1 and 2 give 15.00 converted line by line, but 20.00 or
      10.00 divided once, whichever of the two rates the group reads. */
  lemma MixedRatesDivideOnce(db: Db, p: Product)
    ensures
      var s := [Sale(OrderLine(1, p.id, 0, 1, 10.0, 0.0), Order(1, 1, 0, 1.0)),
                Sale(OrderLine(2, p.id, 0, 1, 10.0, 0.0), Order(2, 1, 0, 2.0))];
      PerLineRevenue(s) == 15.0 &&
      Div(SumSales(db, p, s).revenue, GroupRate(s)) == Some(20.0) &&
      Div(SumSales(db, p, s).revenue, s[1].order.conversionRate) == Some(10.0)
  {
    var s := [Sale(OrderLine(1, p.id, 0, 1, 10.0, 0.0), Order(1, 1, 0, 1.0)),
              Sale(OrderLine(2, p.id, 0, 1, 10.0, 0.0), Order(2, 1, 0, 2.0))];
    assert s[..1] == [s[0]];
    assert s[..1][..0] == [];
    assert SaleTotals(db, p, s[0]).revenue == 10.0;
    assert SaleTotals(db, p, s[1]).revenue == 10.0;
    assert SumSales(db, p, s[..1]).revenue == 10.0;
    assert SumSales(db, p, s).revenue == 20.0;
    assert PerLineRevenue(s[..1]) == 10.0;
    assert 10.0 / 2.0 == 5.0;
  }

  /** A category none of whose linked products has totals (no link, no sale in the
      window, or a dangling product id) gets zero for all three sums. */
  lemma {:induction false} CategoryWithoutSalesIsZero(db: Db, w: Window, links: seq<CategoryProduct>, c: int)
    requires forall k :: 0 <= k < |links| && links[k].categoryId == c ==>
      SalesForProduct(db, w, links[k].productId).None?
    ensures CategorySales(db, w, links, c) == Totals(0, 0.0, 0.0)
  {
    if |links| > 0 {
      var init := links[..|links| - 1];
      assert forall k :: 0 <= k < |init| ==> init[k] == links[k];
      CategoryWithoutSalesIsZero(db, w, init, c);
    }
  }

  /** Every link row counts its product in full: adding a link of `c` to `p` adds `p`'s
      whole totals to `c` and leaves every other category as it was. */
  lemma {:induction false} LinkCountsInFull(db: Db, w: Window, links: seq<CategoryProduct>, c: int, p: int, d: int)
    ensures CategorySales(db, w, [CategoryProduct(c, p)] + links, c) ==
      Plus(CategorySales(db, w, links, c), Contribution(SalesForProduct(db, w, p)))
    ensures d != c ==> CategorySales(db, w, [CategoryProduct(c, p)] + links, d) == CategorySales(db, w, links, d)
  {
    var l := CategoryProduct(c, p);
    if |links| == 0 {
      assert [l] + links == [] + [l];
      CategorySalesSnoc(db, w, [], l, c);
      CategorySalesSnoc(db, w, [], l, d);
    } else {
      var init, last := links[..|links| - 1], links[|links| - 1];
      assert links == init + [last];
      assert [l] + links == ([l] + init) + [last];
      LinkCountsInFull(db, w, init, c, p, d);
      CategorySalesSnoc(db, w, [l] + init, last, c);
      CategorySalesSnoc(db, w, init, last, c);
      if d != c {
        CategorySalesSnoc(db, w, [l] + init, last, d);
        CategorySalesSnoc(db, w, init, last, d);
      }
    }
  }

  /** One more link row at the end adds its product's totals to its own category only. */
  lemma CategorySalesSnoc(db: Db, w: Window, links: seq<CategoryProduct>, x: CategoryProduct, c: int)
    ensures CategorySales(db, w, links + [x], c) ==
      if x.categoryId == c then Plus(CategorySales(db, w, links, c), Contribution(SalesForProduct(db, w, x.productId)))
      else CategorySales(db, w, links, c)
  {
    assert (links + [x])[..|links|] == links;
  }

  /** The store's prices are non-negative and its rates positive. */
  predicate NonNegativePrices(db: Db) {
    (forall k :: 0 <= k < |db.lines| ==>
      db.lines[k].unitPriceTaxExcl >= 0.0 && db.lines[k].originalWholesalePrice >= 0.0) &&
    (forall k :: 0 <= k < |db.variants| ==> db.variants[k].wholesalePrice >= 0.0) &&
    (forall k :: 0 <= k < |db.products| ==> db.products[k].wholesalePrice >= 0.0) &&
    (forall k :: 0 <= k < |db.orders| ==> db.orders[k].conversionRate > 0.0)
  }

  lemma {:induction false} SumSalesNonNegative(db: Db, w: Window, product: Product, s: seq<Sale>)
    requires NonNegativePrices(db)
    requires product in db.products
    requires forall x :: x in s ==> x.line in db.lines
    ensures SumSales(db, product, s).quantity >= 0
    ensures SumSales(db, product, s).revenue >= 0.0 && SumSales(db, product, s).cost >= 0.0
  {
    if |s| > 0 {
      var x := s[|s| - 1];
      assert x in s;
      assert forall y :: y in s[..|s| - 1] ==> y in s;
      SumSalesNonNegative(db, w, product, s[..|s| - 1]);
      var v := FindVariant(db.variants, x.line.variantId);
      assert UnitCost(x.line, v, product).Some? ==> UnitCost(x.line, v, product).value >= 0.0;
    }
  }

  /** With such a store what one link row adds is non-negative. */
  lemma ContributionNonNegative(db: Db, w: Window, pid: int)
    requires NonNegativePrices(db)
    ensures var t := Contribution(SalesForProduct(db, w, pid));
      t.quantity >= 0 && t.revenue >= 0.0 && t.cost >= 0.0
  {
    match FindProduct(db.products, pid)
    case None =>
    case Some(p) =>
      var s := SalesOf(db, w, db.lines, p.id);
      if |s| > 0 {
        SumSalesNonNegative(db, w, p, s);
        var o := s[0].order;
        assert s[0] in s;
        assert o in db.orders;
        assert o.conversionRate > 0.0;
      }
  }

  /** Sums of non-negative prices are non-negative: with such a store every category's
      quantity, revenue and cost are at least zero. */
  lemma {:induction false} CategorySalesNonNegative(db: Db, w: Window, links: seq<CategoryProduct>, c: int)
    requires NonNegativePrices(db)
    ensures CategorySales(db, w, links, c).quantity >= 0
    ensures CategorySales(db, w, links, c).revenue >= 0.0 && CategorySales(db, w, links, c).cost >= 0.0
  {
    if |links| > 0 {
      var init, last := links[..|links| - 1], links[|links| - 1];
      assert links == init + [last];
      CategorySalesNonNegative(db, w, init, c);
      CategorySalesSnoc(db, w, init, last, c);
      ContributionNonNegative(db, w, last.productId);
    }
  }
}
