/** The rows of the catalog, order and traffic tables the report reads,
    as in-memory relations, with lookups by primary key. */
module Store {

  datatype Option<T> = None | Some(value: T) {
    function GetOr(default: T): T {
      match this
      case Some(v) => v
      case None => default
    }
  }

  /** A row of `category`: the tree is stored both as parent links and as
      nested-set intervals `(nleft, nright)`. */
  datatype Category = Category(id: int, parentId: int, nleft: int, nright: int)

  /** A row of `category_product` (primary key: category and product). */
  datatype CategoryProduct = CategoryProduct(categoryId: int, productId: int)

  /** A row of `product`, with its catalog wholesale price. */
  datatype Product = Product(id: int, wholesalePrice: real)

  /** A row of `product_attribute` (a product variant), with its own wholesale price. */
  datatype Variant = Variant(id: int, wholesalePrice: real)

  /** A row of `orders`: `valid` is the tinyint flag, dates are timestamps. */
  datatype Order = Order(id: int, valid: int, invoiceDate: int, conversionRate: real)

  /** A row of `order_detail`: one line of an order. */
  datatype OrderLine = OrderLine(orderId: int, productId: int, variantId: int, quantity: nat,
                                 unitPriceTaxExcl: real, originalWholesalePrice: real)

  /** A row of `page`: a page of type 1 is a product page whose object is a product id. */
  datatype Page = Page(id: int, pageType: int, objectId: int)

  /** A row of `page_viewed`: a counter of views of one page over one date range. */
  datatype PageViewed = PageViewed(pageId: int, dateRangeId: int, counter: nat)

  /** A row of `date_range`. */
  datatype DateRange = DateRange(id: int, timeStart: int, timeEnd: int)

  /** A row of `shop`, with the id of the shop's root category. */
  datatype Shop = Shop(id: int, categoryId: int)

  /** The store. `names` is `category_lang` already restricted to the report's
      language and shop: at most one name per category id. */
  datatype Db = Db(
    categories: seq<Category>,
    names: map<int, string>,
    links: seq<CategoryProduct>,
    products: seq<Product>,
    variants: seq<Variant>,
    orders: seq<Order>,
    lines: seq<OrderLine>,
    pages: seq<Page>,
    views: seq<PageViewed>,
    ranges: seq<DateRange>,
    shops: seq<Shop>)

  /** The report's date window; SQL `BETWEEN` includes both bounds. */
  datatype Window = Window(from: int, to: int)

  predicate Between(x: int, w: Window) {
    w.from <= x <= w.to
  }

  function FindProduct(ps: seq<Product>, id: int): (r: Option<Product>)
    ensures r.Some? ==> r.value in ps && r.value.id == id
    ensures r.None? <==> forall k :: 0 <= k < |ps| ==> ps[k].id != id
  {
    if |ps| == 0 then None
    else if ps[0].id == id then Some(ps[0])
    else FindProduct(ps[1..], id)
  }

  function FindVariant(vs: seq<Variant>, id: int): (r: Option<Variant>)
    ensures r.Some? ==> r.value in vs && r.value.id == id
    ensures r.None? <==> forall k :: 0 <= k < |vs| ==> vs[k].id != id
  {
    if |vs| == 0 then None
    else if vs[0].id == id then Some(vs[0])
    else FindVariant(vs[1..], id)
  }

  function FindOrder(os: seq<Order>, id: int): (r: Option<Order>)
    ensures r.Some? ==> r.value in os && r.value.id == id
    ensures r.None? <==> forall k :: 0 <= k < |os| ==> os[k].id != id
  {
    if |os| == 0 then None
    else if os[0].id == id then Some(os[0])
    else FindOrder(os[1..], id)
  }

  function FindPage(ps: seq<Page>, id: int): (r: Option<Page>)
    ensures r.Some? ==> r.value in ps && r.value.id == id
    ensures r.None? <==> forall k :: 0 <= k < |ps| ==> ps[k].id != id
  {
    if |ps| == 0 then None
    else if ps[0].id == id then Some(ps[0])
    else FindPage(ps[1..], id)
  }

  function FindRange(rs: seq<DateRange>, id: int): (r: Option<DateRange>)
    ensures r.Some? ==> r.value in rs && r.value.id == id
    ensures r.None? <==> forall k :: 0 <= k < |rs| ==> rs[k].id != id
  {
    if |rs| == 0 then None
    else if rs[0].id == id then Some(rs[0])
    else FindRange(rs[1..], id)
  }

  /** Whether `category_product` links category `c` to product `p`. */
  predicate Linked(links: seq<CategoryProduct>, c: int, p: int) {
    exists k :: 0 <= k < |links| && links[k] == CategoryProduct(c, p)
  }

  /** `id_category` is the table's primary key. */
  predicate DistinctIds(cats: seq<Category>) {
    forall i, j :: 0 <= i < j < |cats| ==> cats[i].id != cats[j].id
  }

  /** `SELECT COUNT(id_category) FROM category WHERE id_parent = id`. */
  function ChildCount(cats: seq<Category>, id: int): (n: nat)
    ensures n == |set k | 0 <= k < |cats| && cats[k].parentId == id|
    ensures n == 0 <==> forall k :: 0 <= k < |cats| ==> cats[k].parentId != id
    ensures n <= |cats|
  {
    if |cats| == 0 then 0
    else
      var init := cats[..|cats| - 1];
      ChildrenSplit(cats, init, id);
      ChildCount(init, id) + (if cats[|cats| - 1].parentId == id then 1 else 0)
  }

  /** The children among `cats` are those among `init`, all of it but the last, plus the
      last when it is one. */
  lemma ChildrenSplit(cats: seq<Category>, init: seq<Category>, id: int)
    requires |cats| > 0 && init == cats[..|cats| - 1]
    ensures forall k :: 0 <= k < |init| ==> init[k] == cats[k]
    ensures (set k | 0 <= k < |cats| && cats[k].parentId == id) ==
            (set k | 0 <= k < |init| && init[k].parentId == id) +
            (if cats[|cats| - 1].parentId == id then {|cats| - 1} else {})
  {
  }
}
