/** The page-view subquery of the report: the counters of product pages whose product
    is linked to the category, over date ranges that lie inside the window. */
module Traffic {
  import opened Store

  /** The counter row `v` passes the subquery's joins and `WHERE` for category `c`:
      its page is a product page (type 1) of an existing product linked to `c`, and both
      ends of its date range lie inside the window. */
  predicate CountsFor(db: Db, w: Window, v: PageViewed, c: int) {
    match FindPage(db.pages, v.pageId)
    case None => false
    case Some(p) =>
      p.pageType == 1 && FindProduct(db.products, p.objectId).Some? && Linked(db.links, c, p.objectId) &&
      match FindRange(db.ranges, v.dateRangeId)
      case None => false
      case Some(dr) => Between(dr.timeStart, w) && Between(dr.timeEnd, w)
  }

  /** `IFNULL(SUM(pv.counter), 0)` over the counter rows `views`. */
  function ViewSum(db: Db, w: Window, views: seq<PageViewed>, c: int): nat {
    if |views| == 0 then 0
    else
      var last := views[|views| - 1];
      ViewSum(db, w, views[..|views| - 1], c) + (if CountsFor(db, w, last, c) then last.counter else 0)
  }

  /** The `totalPageViewed` column of category `c`. */
  function PageViews(db: Db, w: Window, c: int): nat {
    ViewSum(db, w, db.views, c)
  }

  /** A category's page views are zero exactly when every counter row that passes
      the subquery's conditions for it holds zero. */
  lemma {:induction false} ViewSumZeroIff(db: Db, w: Window, views: seq<PageViewed>, c: int)
    ensures ViewSum(db, w, views, c) == 0 <==>
      forall k :: 0 <= k < |views| && CountsFor(db, w, views[k], c) ==> views[k].counter == 0
  {
    if |views| > 0 {
      var init := views[..|views| - 1];
      assert forall k :: 0 <= k < |init| ==> init[k] == views[k];
      ViewSumZeroIff(db, w, init, c);
    }
  }

  /** A category with no `category_product` row gets 0 page views, never NULL. */
  lemma UnlinkedCategoryHasNoViews(db: Db, w: Window, c: int)
    requires forall k :: 0 <= k < |db.links| ==> db.links[k].categoryId != c
    ensures PageViews(db, w, c) == 0
  {
    forall k | 0 <= k < |db.views|
      ensures !CountsFor(db, w, db.views[k], c)
    {
      var page := FindPage(db.pages, db.views[k].pageId);
      if page.Some? {
        assert !Linked(db.links, c, page.value.objectId);
      }
    }
    ViewSumZeroIff(db, w, db.views, c);
  }

  /** A counter over a date range that starts or ends outside the window adds nothing. */
  lemma {:induction false} PartialRangeIgnored(db: Db, w: Window, views: seq<PageViewed>, v: PageViewed, c: int)
    requires FindRange(db.ranges, v.dateRangeId).Some?
    requires var dr := FindRange(db.ranges, v.dateRangeId).value;
      !Between(dr.timeStart, w) || !Between(dr.timeEnd, w)
    ensures ViewSum(db, w, views + [v], c) == ViewSum(db, w, views, c)
  {
  }
}
