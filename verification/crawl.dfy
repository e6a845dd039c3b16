/**
 The crawl controller of the fix_price spider: the seed requests
 (`start_requests`), the per-page step (`parse`) that fans out one detail
 request per listed product and asks for the next page after a full page,
 and the sequential pagination of one category that results from feeding
 each page request's response back into that step.
 */
module Crawl {
  import opened Wrappers
  import opened Urls

  /** Products per category page; a page of any other length is the last one. */
  const PageSize: nat := 24

  /** One entry of a category page; only its relative URL is read. */
  datatype ProductSummary = ProductSummary(url: string)

  /** A request the spider yields: a category page with its context, or a product detail. */
  datatype Request = PageRequest(url: string, meta: Meta) | DetailRequest(url: string)

  /**
   A page request whose URL is the page URL of its own context, so that the
   URL names exactly that category and page (`DecodeCategoryPageUrl`).
   */
  predicate Consistent(r: Request) {
    r.PageRequest? ==> r.url == CategoryPageUrl(r.meta.category, r.meta.page)
  }

  /**
   A consistent page request, such as every one the spider yields, has a URL
   that decodes back to exactly the category and page of its context.
   */
  lemma ConsistentDecodes(r: Request)
    requires r.PageRequest? && Consistent(r)
    ensures DecodePageUrl(r.url) == Some(r.meta)
  {
    DecodeCategoryPageUrl(r.meta.category, r.meta.page);
  }

  /** The request for one category page, carrying that page as its context. */
  function PageRequestFor(meta: Meta): (r: Request)
    ensures r.PageRequest? && r.meta == meta
    ensures Consistent(r)
  {
    PageRequest(CategoryPageUrl(meta.category, meta.page), meta)
  }

  /** `start_requests`: page 1 of the category of every seed, in seed order. */
  function StartRequests(seeds: seq<string>): (rs: seq<Request>)
    ensures |rs| == |seeds|
    ensures forall k :: 0 <= k < |seeds| ==>
              rs[k].PageRequest? && rs[k].meta == Meta(CategoryOf(seeds[k]), 1) && Consistent(rs[k])
  {
    seq(|seeds|, k requires 0 <= k < |seeds| => PageRequestFor(Meta(CategoryOf(seeds[k]), 1)))
  }

  /**
   The configured seeds yield exactly three requests: page 1 of each seed's
   path after `/catalog/`, in seed order.
   */
  lemma SeedRequests()
    ensures |StartRequests(StartUrls)| == |SeedPaths|
    ensures forall k :: 0 <= k < |SeedPaths| ==>
              StartRequests(StartUrls)[k] == PageRequestFor(Meta(SeedPaths[k], 1))
  {
    StartCategories();
  }

  /** The URLs of the detail requests among `rs`, in order. */
  function DetailUrls(rs: seq<Request>): seq<string> {
    if rs == [] then []
    else (if rs[0].DetailRequest? then [rs[0].url] else []) + DetailUrls(rs[1..])
  }

  /** The contexts of the page requests among `rs`, in order. */
  function PageMetas(rs: seq<Request>): seq<Meta> {
    if rs == [] then []
    else (if rs[0].PageRequest? then [rs[0].meta] else []) + PageMetas(rs[1..])
  }

  /** The detail endpoints of `products`, in list order. */
  function ApiUrls(products: seq<ProductSummary>): (urls: seq<string>)
    ensures |urls| == |products|
    ensures forall i :: 0 <= i < |products| ==> urls[i] == ProductApiUrl(products[i].url)
  {
    if products == [] then [] else [ProductApiUrl(products[0].url)] + ApiUrls(products[1..])
  }

  lemma {:induction false} DetailUrlsAppend(a: seq<Request>, b: seq<Request>)
    ensures DetailUrls(a + b) == DetailUrls(a) + DetailUrls(b)
  {
    if a == [] {
      assert a + b == b;
    } else {
      DetailUrlsAppend(a[1..], b);
      assert (a + b)[1..] == a[1..] + b;
      var h := if a[0].DetailRequest? then [a[0].url] else [];
      assert DetailUrls(a + b) == h + DetailUrls(a[1..] + b);
      assert DetailUrls(a) == h + DetailUrls(a[1..]);
    }
  }

  lemma {:induction false} PageMetasAppend(a: seq<Request>, b: seq<Request>)
    ensures PageMetas(a + b) == PageMetas(a) + PageMetas(b)
  {
    if a == [] {
      assert a + b == b;
    } else {
      PageMetasAppend(a[1..], b);
      assert (a + b)[1..] == a[1..] + b;
      var h := if a[0].PageRequest? then [a[0].meta] else [];
      assert PageMetas(a + b) == h + PageMetas(a[1..] + b);
      assert PageMetas(a) == h + PageMetas(a[1..]);
    }
  }

  lemma FiltersAppend(a: seq<Request>, b: seq<Request>)
    ensures DetailUrls(a + b) == DetailUrls(a) + DetailUrls(b)
    ensures PageMetas(a + b) == PageMetas(a) + PageMetas(b)
  {
    DetailUrlsAppend(a, b);
    PageMetasAppend(a, b);
  }

  lemma ApiUrlsAppend(a: seq<ProductSummary>, b: seq<ProductSummary>)
    ensures ApiUrls(a + b) == ApiUrls(a) + ApiUrls(b)
  {
    var whole, parts := ApiUrls(a + b), ApiUrls(a) + ApiUrls(b);
    forall i | 0 <= i < |whole| ensures whole[i] == parts[i] {
      if i < |a| {
        assert (a + b)[i] == a[i];
      } else {
        assert (a + b)[i] == b[i - |a|];
      }
    }
  }

  /** The loop of `parse`: one detail request per product, in list order. */
  function DetailRequests(products: seq<ProductSummary>): (rs: seq<Request>)
    ensures |rs| == |products|
    ensures forall i :: 0 <= i < |products| ==> rs[i] == DetailRequest(ProductApiUrl(products[i].url))
    ensures DetailUrls(rs) == ApiUrls(products)
    ensures PageMetas(rs) == []
  {
    if products == [] then []
    else
      var rest := DetailRequests(products[1..]);
      var head := DetailRequest(ProductApiUrl(products[0].url));
      FiltersAppend([head], rest);
      [head] + rest
  }

  /**
   `parse`: the requests yielded for one category page. Exactly one detail
   request per product comes first, in list order; a request for the next
   page of the same category follows if and only if the page is full.
   */
  function ParsePage(meta: Meta, products: seq<ProductSummary>): (out: seq<Request>)
    ensures |products| == PageSize ==> |out| == |products| + 1 && PageMetas(out) == [Meta(meta.category, meta.page + 1)]
    ensures |products| != PageSize ==> |out| == |products| && PageMetas(out) == []
    ensures forall i :: 0 <= i < |products| ==> out[i].DetailRequest?
    ensures DetailUrls(out) == ApiUrls(products)
    ensures forall i :: 0 <= i < |out| ==> Consistent(out[i])
  {
    var details := DetailRequests(products);
    if |products| == PageSize then
      var next := PageRequestFor(Meta(meta.category, meta.page + 1));
      FiltersAppend(details, [next]);
      assert PageMetas([next]) == [next.meta] && DetailUrls([next]) == [] by {
        assert [next][1..] == [];
      }
      var out := details + [next];
      assert forall i :: 0 <= i < |out| ==> Consistent(out[i]) by {
        forall i | 0 <= i < |out| ensures Consistent(out[i]) {
          if i < |details| {
            assert out[i] == details[i];
          } else {
            assert out[i] == next;
          }
        }
      }
      out
    else
      details
  }

  /** The response to page `n` (counted from 1) of a finite catalog; pages past its end are empty. */
  function PageAt(catalog: seq<seq<ProductSummary>>, n: nat): seq<ProductSummary> {
    if 1 <= n <= |catalog| then catalog[n - 1] else []
  }

  /**
   Every request issued for a category from the response to the page
   described by `meta` on: the page is parsed, and when it is full the
   next-page request it yields (for `meta.page + 1`, by `ParsePage`) is
   answered and parsed in turn. Requests for one category are strictly
   sequential, so this is the order in which they are issued.
   */
  function CrawlFrom(catalog: seq<seq<ProductSummary>>, meta: Meta): (rs: seq<Request>)
    decreases |catalog| + 1 - meta.page
    ensures forall i :: 0 <= i < |rs| ==> Consistent(rs[i])
  {
    var page := PageAt(catalog, meta.page);
    var out := ParsePage(meta, page);
    if |page| == PageSize then
      var rest := CrawlFrom(catalog, Meta(meta.category, meta.page + 1));
      assert forall i :: 0 <= i < |out + rest| ==> Consistent((out + rest)[i]) by {
        forall i | 0 <= i < |out + rest| ensures Consistent((out + rest)[i]) {
          if i < |out| {
            assert (out + rest)[i] == out[i];
          } else {
            assert (out + rest)[i] == rest[i - |out|];
          }
        }
      }
      out + rest
    else
      out
  }

  /** The first page, from `p` on, that is not full. */
  function FirstShort(catalog: seq<seq<ProductSummary>>, p: nat): (k: nat)
    decreases |catalog| + 1 - p
    ensures p <= k <= if p <= |catalog| then |catalog| + 1 else p
    ensures forall n :: p <= n < k ==> |PageAt(catalog, n)| == PageSize
    ensures |PageAt(catalog, k)| != PageSize
  {
    if |PageAt(catalog, p)| != PageSize then p else FirstShort(catalog, p + 1)
  }

  /** The contexts of pages `lo` through `hi` of `category`, in page order. */
  function Pages(category: string, lo: nat, hi: nat): (metas: seq<Meta>)
    decreases hi + 1 - lo
    ensures |metas| == if lo <= hi then hi - lo + 1 else 0
    ensures forall i :: 0 <= i < |metas| ==> metas[i] == Meta(category, lo + i)
  {
    if lo > hi then [] else [Meta(category, lo)] + Pages(category, lo + 1, hi)
  }

  lemma PagesCons(category: string, lo: nat, hi: nat)
    requires lo <= hi
    ensures Pages(category, lo, hi) == [Meta(category, lo)] + Pages(category, lo + 1, hi)
  {
  }

  /** The products listed on pages `p` through `k`, page by page. */
  function ProductsOn(catalog: seq<seq<ProductSummary>>, p: nat, k: nat): seq<ProductSummary>
    requires p <= k
    decreases k - p
  {
    PageAt(catalog, p) + if p == k then [] else ProductsOn(catalog, p + 1, k)
  }

  /**
   Pagination of one category from page `p`: the pages requested after `p`
   are exactly `p + 1` through the first short page `k`, in order.
   */
  lemma {:induction false} CrawlFromPages(catalog: seq<seq<ProductSummary>>, meta: Meta)
    ensures PageMetas(CrawlFrom(catalog, meta)) == Pages(meta.category, meta.page + 1, FirstShort(catalog, meta.page))
    decreases |catalog| + 1 - meta.page
  {
    var p := meta.page;
    var page := PageAt(catalog, p);
    var k := FirstShort(catalog, p);
    var out := ParsePage(meta, page);
    if |page| == PageSize {
      var next := Meta(meta.category, p + 1);
      var rest := CrawlFrom(catalog, next);
      CrawlFromPages(catalog, next);
      PageMetasAppend(out, rest);
      PagesCons(meta.category, next.page, k);
      calc {
        PageMetas(CrawlFrom(catalog, meta));
        PageMetas(out + rest);
        PageMetas(out) + PageMetas(rest);
        [next] + Pages(next.category, next.page + 1, FirstShort(catalog, next.page));
        { assert FirstShort(catalog, next.page) == k; }
        [Meta(meta.category, next.page)] + Pages(meta.category, next.page + 1, k);
        Pages(meta.category, next.page, k);
      }
    } else {
      assert CrawlFrom(catalog, meta) == out;
      assert PageMetas(out) == [];
      assert k == p;
    }
  }

  /**
   The pagination from page `p` yields one detail request per entry listed
   on pages `p` through the first short page, and no others, in list order.
   */
  lemma {:induction false} CrawlFromDetails(catalog: seq<seq<ProductSummary>>, meta: Meta)
    ensures DetailUrls(CrawlFrom(catalog, meta)) == ApiUrls(ProductsOn(catalog, meta.page, FirstShort(catalog, meta.page)))
    decreases |catalog| + 1 - meta.page
  {
    var p := meta.page;
    var page := PageAt(catalog, p);
    var k := FirstShort(catalog, p);
    var out := ParsePage(meta, page);
    if |page| == PageSize {
      var next := Meta(meta.category, p + 1);
      var rest := CrawlFrom(catalog, next);
      CrawlFromDetails(catalog, next);
      DetailUrlsAppend(out, rest);
      assert ProductsOn(catalog, p, k) == page + ProductsOn(catalog, next.page, k);
      ApiUrlsAppend(page, ProductsOn(catalog, next.page, k));
      calc {
        DetailUrls(CrawlFrom(catalog, meta));
        DetailUrls(out + rest);
        DetailUrls(out) + DetailUrls(rest);
        ApiUrls(page) + ApiUrls(ProductsOn(catalog, next.page, FirstShort(catalog, next.page)));
        { assert FirstShort(catalog, next.page) == k; }
        ApiUrls(page) + ApiUrls(ProductsOn(catalog, next.page, k));
        ApiUrls(ProductsOn(catalog, p, k));
      }
    } else {
      assert CrawlFrom(catalog, meta) == out;
      assert k == p;
      assert ProductsOn(catalog, p, k) == page;
    }
  }

  /** All requests issued for the category of `seed`: its seed request, then the pagination from page 1. */
  function CrawlCategory(catalog: seq<seq<ProductSummary>>, seed: string): seq<Request> {
    StartRequests([seed]) + CrawlFrom(catalog, Meta(CategoryOf(seed), 1))
  }

  /**
   For any finite catalog the crawl of a category ends: it requests pages
   1 through `k` of the seed's category and no others, where `k` is the first
   page that is not full (so at most one page past the catalog's end), and
   it yields one detail request per entry listed on those pages, in list order.
   */
  lemma CrawlCategoryCoverage(catalog: seq<seq<ProductSummary>>, seed: string)
    ensures var k := FirstShort(catalog, 1);
      && 1 <= k <= |catalog| + 1
      && PageMetas(CrawlCategory(catalog, seed)) == Pages(CategoryOf(seed), 1, k)
      && DetailUrls(CrawlCategory(catalog, seed)) == ApiUrls(ProductsOn(catalog, 1, k))
  {
    var category := CategoryOf(seed);
    var start := StartRequests([seed]);
    var rest := CrawlFrom(catalog, Meta(category, 1));
    var k := FirstShort(catalog, 1);
    CrawlFromPages(catalog, Meta(category, 1));
    CrawlFromDetails(catalog, Meta(category, 1));
    FiltersAppend(start, rest);
    assert PageMetas(start) == [Meta(category, 1)] by {
      assert start[1..] == [];
    }
    assert DetailUrls(start) == [] by {
      assert start[1..] == [];
    }
    PagesCons(category, 1, k);
  }

  /**
   A category whose first page is full and whose second page lists ten
   products: pages 1 and 2 are requested, page 3 is not, and 34 detail
   requests are yielded.
   */
  lemma TwoPageCategory(seed: string, first: seq<ProductSummary>, second: seq<ProductSummary>)
    requires |first| == 24 && |second| == 10
    ensures PageMetas(CrawlCategory([first, second], seed)) == [Meta(CategoryOf(seed), 1), Meta(CategoryOf(seed), 2)]
    ensures DetailUrls(CrawlCategory([first, second], seed)) == ApiUrls(first + second)
    ensures |DetailUrls(CrawlCategory([first, second], seed))| == 34
  {
    var catalog := [first, second];
    var category := CategoryOf(seed);
    assert PageAt(catalog, 1) == first && PageAt(catalog, 2) == second;
    assert FirstShort(catalog, 2) == 2;
    assert FirstShort(catalog, 1) == 2;
    CrawlCategoryCoverage(catalog, seed);
    PagesCons(category, 1, 2);
    PagesCons(category, 2, 2);
    assert Pages(category, 1, 2) == [Meta(category, 1), Meta(category, 2)];
    assert ProductsOn(catalog, 2, 2) == second;
    assert ProductsOn(catalog, 1, 2) == first + second;
  }
}
