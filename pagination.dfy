/**
 * The catalogue pagination shared by the shop listings (`getIndex`,
 * `getProducts`) and the admin listing: skip `(page - 1) * 2`, limit 2, and
 * the flags the views use to draw the page links.
 */
module Pagination {

  const ItemsPerPage := 2

  /** The query parameter `page` after JavaScript's unary plus. */
  datatype PageParam = Missing | NotANumber | Number(n: int)

  function Min(a: int, b: int): int { if a <= b then a else b }
  function Max(a: int, b: int): int { if a >= b then a else b }

  /** `+req.query.page || 1`: the number, unless it is absent, `NaN` or 0. */
  function PageNumber(q: PageParam): (page: int)
    ensures page != 0
    ensures q.Number? && q.n != 0 ==> page == q.n
    ensures q.Missing? || q.NotANumber? || q == Number(0) ==> page == 1
  {
    if q.Number? && q.n != 0 then q.n else 1
  }

  function Skip(page: int): int
  {
    (page - 1) * ItemsPerPage
  }

  /** `.skip((page - 1) * 2).limit(2)` over the listing's products. */
  function PageSlice<T>(s: seq<T>, page: int): (r: seq<T>)
    requires page >= 1
    ensures |r| == Min(ItemsPerPage, Max(0, |s| - Skip(page)))
    ensures forall k :: 0 <= k < |r| ==> r[k] == s[Skip(page) + k]
  {
    s[Min(Skip(page), |s|)..Min(Skip(page) + ItemsPerPage, |s|)]
  }

  /** `Math.ceil(total / 2)` */
  function LastPage(total: nat): (l: nat)
    ensures l * ItemsPerPage >= total
    ensures total > 0 ==> (l - 1) * ItemsPerPage < total
    ensures total == 0 ==> l == 0
  {
    (total + ItemsPerPage - 1) / ItemsPerPage
  }

  datatype PageView<T> = PageView(
    items: seq<T>,
    currentPage: int,
    hasNextPage: bool,
    nextPage: int,
    hasPreviousPage: bool,
    previousPage: int,
    lastPage: nat)

  /** A listing is rendered, or the store refuses the query (a negative skip). */
  datatype Listing<T> = Listed(view: PageView<T>) | StoreError

  /**
   * One page of `s` and its link flags. A page below 1 asks the store for a
   * negative skip, which MongoDB rejects; the handler then reports a 500.
   */
  function Paginate<T>(s: seq<T>, page: int): (r: Listing<T>)
    ensures r.StoreError? <==> page < 1
    ensures r.Listed? ==> r.view.items == PageSlice(s, page) && r.view.currentPage == page
    ensures r.Listed? ==> (r.view.hasNextPage <==> PageSlice(s, page + 1) != [])
    ensures r.Listed? ==> r.view.nextPage == page + 1 && r.view.previousPage == page - 1
    ensures r.Listed? ==> (r.view.hasPreviousPage <==> r.view.previousPage >= 1)
    ensures r.Listed? ==> (r.view.items != [] <==> page <= r.view.lastPage)
    ensures r.Listed? ==> r.view.lastPage == LastPage(|s|)
  {
    if page < 1 then StoreError
    else
      Listed(PageView(
        items := PageSlice(s, page),
        currentPage := page,
        hasNextPage := ItemsPerPage * page < |s|,
        nextPage := page + 1,
        hasPreviousPage := page > 1,
        previousPage := page - 1,
        lastPage := LastPage(|s|)))
  }

  /** The pages from `page` on, up to the last non-empty one. */
  function PagesFrom<T>(s: seq<T>, page: int): seq<seq<T>>
    requires page >= 1
    decreases |s| - Skip(page)
  {
    if Skip(page) >= |s| then [] else [PageSlice(s, page)] + PagesFrom(s, page + 1)
  }

  function Flatten<T>(pages: seq<seq<T>>): seq<T>
  {
    if pages == [] then [] else pages[0] + Flatten(pages[1..])
  }

  lemma {:induction false} PagesFromCover<T>(s: seq<T>, page: int)
    requires page >= 1
    ensures Skip(page) <= |s| ==> Flatten(PagesFrom(s, page)) == s[Skip(page)..]
    ensures |PagesFrom(s, page)| == Max(0, LastPage(|s|) - page + 1)
    decreases |s| - Skip(page)
  {
    if Skip(page) < |s| {
      PagesFromCover(s, page + 1);
      var rest := PagesFrom(s, page + 1);
      assert PagesFrom(s, page)[1..] == rest;
      if Skip(page + 1) <= |s| {
        assert s[Skip(page)..] == PageSlice(s, page) + s[Skip(page + 1)..];
      } else {
        assert rest == [];
        assert s[Skip(page)..] == PageSlice(s, page);
      }
    }
  }

  /**
   * Following the page links from page 1 to `lastPage` lists every product
   * exactly once, in the store's order.
   */
  lemma PagesCover<T>(s: seq<T>)
    ensures Flatten(PagesFrom(s, 1)) == s
    ensures |PagesFrom(s, 1)| == LastPage(|s|)
  {
    PagesFromCover(s, 1);
  }
}
