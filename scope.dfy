/** Shop scoping: the categories visible to the report are those whose
    nested-set interval lies inside the interval of a root category of one
    of the shops in the current shop context. */
module Scope {
  import opened Store

  /** One `(nleft >= L AND nright <= R)` restriction of the scope query. */
  datatype Interval = Interval(nleft: int, nright: int)

  predicate Within(c: Category, r: Interval) {
    r.nleft <= c.nleft && c.nright <= r.nright
  }

  /** The `OR` of all restrictions. */
  predicate WithinAny(c: Category, roots: seq<Interval>) {
    exists k :: 0 <= k < |roots| && Within(c, roots[k])
  }

  /** Category `id` is the root category of a shop of the context. */
  predicate IsShopRoot(shops: seq<Shop>, contextShops: seq<int>, id: int) {
    exists k :: 0 <= k < |shops| && shops[k].categoryId == id && shops[k].id in contextShops
  }

  function IntervalOf(c: Category): Interval {
    Interval(c.nleft, c.nright)
  }

  /** The first scope query: the intervals of the root categories of the context's shops. */
  function RootIntervals(cats: seq<Category>, shops: seq<Shop>, contextShops: seq<int>): (roots: seq<Interval>)
    ensures forall r :: r in roots <==>
      exists k :: 0 <= k < |cats| && IsShopRoot(shops, contextShops, cats[k].id) && r == IntervalOf(cats[k])
  {
    if |cats| == 0 then []
    else
      var rest := RootIntervals(cats[1..], shops, contextShops);
      assert forall k :: 0 < k < |cats| ==> cats[k] == cats[1..][k - 1];
      if IsShopRoot(shops, contextShops, cats[0].id) then [IntervalOf(cats[0])] + rest else rest
  }

  /** The second scope query: the ids of the categories inside any of `roots`, in table order. */
  function IdsWithin(cats: seq<Category>, roots: seq<Interval>): (ids: seq<int>)
    ensures forall id :: id in ids <==> exists k :: 0 <= k < |cats| && cats[k].id == id && WithinAny(cats[k], roots)
  {
    if |cats| == 0 then []
    else
      var last := cats[|cats| - 1];
      var rest := IdsWithin(cats[..|cats| - 1], roots);
      assert forall k :: 0 <= k < |cats| - 1 ==> cats[k] == cats[..|cats| - 1][k];
      if WithinAny(last, roots) then rest + [last.id] else rest
  }

  /** The scope list: empty in the all-shops context and when no root category is found. */
  function ScopeIds(db: Db, contextAll: bool, contextShops: seq<int>): seq<int> {
    var roots := RootIntervals(db.categories, db.shops, contextShops);
    if contextAll || |roots| == 0 then [] else IdsWithin(db.categories, roots)
  }

  /** Builds the scope list as the source does: collect one restriction per root row,
      then collect the id of every category row that satisfies one of them. */
  method ShopScope(db: Db, contextAll: bool, contextShops: seq<int>) returns (categories: seq<int>)
    ensures categories == ScopeIds(db, contextAll, contextShops)
  {
    categories := [];
    if !contextAll {
      var result := RootIntervals(db.categories, db.shops, contextShops);
      if |result| > 0 {
        var restriction: seq<Interval> := [];
        for i := 0 to |result|
          invariant restriction == result[..i]
        {
          restriction := restriction + [result[i]];
        }
        assert restriction == result;
        if |restriction| > 0 {
          var rows := db.categories;
          for j := 0 to |rows|
            invariant categories == IdsWithin(rows[..j], restriction)
          {
            assert rows[..j + 1][..j] == rows[..j];
            if WithinAny(rows[j], restriction) {
              categories := categories + [rows[j].id];
            }
          }
          assert rows[..|rows|] == rows;
        }
      }
    }
  }

  /** An id is in scope iff some category with that id lies inside the interval of
      some shop root category (a union over the roots), outside the all-shops context. */
  lemma ScopeMembership(db: Db, contextShops: seq<int>, id: int)
    ensures id in ScopeIds(db, false, contextShops) <==>
      exists k, j :: 0 <= k < |db.categories| && 0 <= j < |db.categories| &&
        db.categories[k].id == id && IsShopRoot(db.shops, contextShops, db.categories[j].id) &&
        Within(db.categories[k], IntervalOf(db.categories[j]))
  {
    var cats := db.categories;
    var roots := RootIntervals(cats, db.shops, contextShops);
    if id in ScopeIds(db, false, contextShops) {
      var k :| 0 <= k < |cats| && cats[k].id == id && WithinAny(cats[k], roots);
      var m :| 0 <= m < |roots| && Within(cats[k], roots[m]);
      assert roots[m] in roots;
      var j :| 0 <= j < |cats| && IsShopRoot(db.shops, contextShops, cats[j].id) && roots[m] == IntervalOf(cats[j]);
    }
    if exists k, j :: 0 <= k < |cats| && 0 <= j < |cats| && cats[k].id == id &&
        IsShopRoot(db.shops, contextShops, cats[j].id) && Within(cats[k], IntervalOf(cats[j])) {
      var k, j :| 0 <= k < |cats| && 0 <= j < |cats| && cats[k].id == id &&
        IsShopRoot(db.shops, contextShops, cats[j].id) && Within(cats[k], IntervalOf(cats[j]));
      var r := IntervalOf(cats[j]);
      assert r in roots;
      var m :| 0 <= m < |roots| && roots[m] == r;
      assert WithinAny(cats[k], roots);
    }
  }

  /** Containment is reflexive: every shop root category is in its own scope. */
  lemma RootInOwnScope(db: Db, contextShops: seq<int>, j: int)
    requires 0 <= j < |db.categories|
    requires IsShopRoot(db.shops, contextShops, db.categories[j].id)
    ensures db.categories[j].id in ScopeIds(db, false, contextShops)
  {
    assert Within(db.categories[j], IntervalOf(db.categories[j]));
    ScopeMembership(db, contextShops, db.categories[j].id);
  }

  /** Outside the all-shops context the scope list is empty exactly when the category
      table holds no root category of a context shop. */
  lemma ScopeEmptyIffNoRoot(db: Db, contextShops: seq<int>)
    ensures |ScopeIds(db, false, contextShops)| == 0 <==>
      forall j :: 0 <= j < |db.categories| ==> !IsShopRoot(db.shops, contextShops, db.categories[j].id)
  {
    var cats := db.categories;
    if exists j :: 0 <= j < |cats| && IsShopRoot(db.shops, contextShops, cats[j].id) {
      var j :| 0 <= j < |cats| && IsShopRoot(db.shops, contextShops, cats[j].id);
      RootInOwnScope(db, contextShops, j);
    } else {
      var roots := RootIntervals(cats, db.shops, contextShops);
      if |roots| > 0 {
        assert roots[0] in roots;
      }
    }
  }
}
