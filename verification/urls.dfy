/**
 The URLs the fix_price spider derives: the category taken from a catalog
 seed URL, the paginated category API URL, and the two product URLs (the
 API detail endpoint that is fetched and the public catalog page that is
 recorded).
 */
module Urls {
  import opened Wrappers
  import opened Text

  /** Base of the paginated category endpoint (`api_url`). */
  const ApiUrl: string := "https://api.fix-price.com/buyer/v1/product/in/"

  /** The path marker a seed URL is split on. */
  const Marker: string := "/catalog/"

  const PageQuery: string := "?page="
  const PageTail: string := "&limit=24&sort=sold"

  /** Base of the product detail endpoint fetched for each listed product. */
  const ProductApiBase: string := "https://api.fix-price.com/buyer/v1/product/"

  /** Base of the public product page recorded in the output. */
  const CatalogBase: string := "https://fix-price.com/catalog/"

  /** The relative catalog paths of the three seeds. */
  const SeedPaths: seq<string> := [
    "dlya-doma/tovary-dlya-uborki",
    "kantstovary/kantselyarskie-prinadlezhnosti",
    "avto-moto-velo"
  ]

  /**
   The configured seed URLs (`start_urls`), written as the catalog base
   followed by each path; the first is
   https://fix-price.com/catalog/dlya-doma/tovary-dlya-uborki.
   */
  const StartUrls: seq<string> := [
    CatalogBase + SeedPaths[0],
    CatalogBase + SeedPaths[1],
    CatalogBase + SeedPaths[2]
  ]

  /** The request context of a category page: which category, which page. */
  datatype Meta = Meta(category: string, page: nat)

  /**
   `url.split('/catalog/')[-1]`: the last piece of a Python split of the
   seed URL on the marker. The result is a marker-free suffix of the URL;
   it is the whole URL exactly when the marker is absent, and otherwise it
   directly follows an occurrence of the marker.
   */
  function CategoryOf(url: string): (category: string)
    ensures |category| <= |url| && url[|url| - |category|..] == category
    ensures Free(category, Marker)
    ensures category == url <==> Free(url, Marker)
    ensures !Free(url, Marker) ==>
              |Marker| + |category| <= |url|
              && url[|url| - |category| - |Marker|..|url| - |category|] == Marker
  {
    var pieces := Split(url, Marker);
    JoinSplit(url, Marker);
    SplitPiecesFree(url, Marker);
    SplitSingleIffFree(url, Marker);
    var category := Last(pieces);
    if |pieces| == 1 then
      category
    else
      JoinLast(pieces, Marker);
      var front := Join(pieces[..|pieces| - 1], Marker);
      assert url == front + Marker + category;
      assert url[|url| - |category|..] == category;
      assert url[|url| - |category| - |Marker|..|url| - |category|] == Marker;
      assert category != url by {
        assert |category| < |url|;
      }
      category
  }

  /** `get_category_page_url`: the POST endpoint for one page of a category. */
  function CategoryPageUrl(category: string, page: nat): string {
    ApiUrl + category + PageQuery + Decimal(page) + PageTail
  }

  /** Reads the category and the page number back out of a category page URL. */
  function DecodePageUrl(url: string): Option<Meta> {
    if !(ApiUrl <= url) then None
    else
      var rest := url[|ApiUrl|..];
      if |rest| < |PageTail| || rest[|rest| - |PageTail|..] != PageTail then None
      else
        var (head, digits) := SplitTrailingDigits(rest[..|rest| - |PageTail|]);
        if digits == [] || |head| < |PageQuery| || head[|head| - |PageQuery|..] != PageQuery then None
        else Some(Meta(head[..|head| - |PageQuery|], ParseDecimal(digits)))
  }

  /** The page URL determines the category and the page it was built from. */
  lemma DecodeCategoryPageUrl(category: string, page: nat)
    ensures DecodePageUrl(CategoryPageUrl(category, page)) == Some(Meta(category, page))
  {
    var digits := Decimal(page);
    var head := category + PageQuery;
    var url := CategoryPageUrl(category, page);
    assert url == ApiUrl + (head + digits + PageTail);
    var rest := url[|ApiUrl|..];
    assert rest == head + digits + PageTail;
    assert rest[|rest| - |PageTail|..] == PageTail;
    assert rest[..|rest| - |PageTail|] == head + digits;
    assert Last(head) == '=';
    SplitTrailingDigitsOf(head, digits);
    assert head[|head| - |PageQuery|..] == PageQuery;
    assert head[..|head| - |PageQuery|] == category;
    ParseDecimalOfDecimal(page);
  }

  /** Page URLs of distinct pages, or of distinct categories, are distinct. */
  lemma CategoryPageUrlInjective(c1: string, p1: nat, c2: string, p2: nat)
    ensures CategoryPageUrl(c1, p1) == CategoryPageUrl(c2, p2) <==> c1 == c2 && p1 == p2
  {
    DecodeCategoryPageUrl(c1, p1);
    DecodeCategoryPageUrl(c2, p2);
  }

  /** The detail endpoint fetched for a product listed with relative URL `rel`. */
  function ProductApiUrl(rel: string): string {
    ProductApiBase + rel
  }

  /** The public catalog page recorded for a product with relative URL `rel`. */
  function ProductPageUrl(rel: string): string {
    CatalogBase + rel
  }

  lemma CatalogBaseMarker()
    ensures Find(CatalogBase, Marker) == Some(|CatalogBase| - |Marker|)
  {
    var s := CatalogBase;
    var end := |CatalogBase| - |Marker|;
    assert OccursAt(s, end, Marker);
    forall j: nat | j < end ensures !OccursAt(s, j, Marker) {
      assert s[j + 7] != 'g';
      assert j + |Marker| <= |s| ==> s[j..j + |Marker|][7] == s[j + 7];
    }
    FindFirst(s, Marker, end);
  }

  /**
   Seed URLs and recorded product pages share one shape: the category of a
   catalog page URL is its relative part, provided that part holds no marker.
   */
  lemma CategoryOfCatalogPage(rel: string)
    requires Free(rel, Marker)
    ensures CategoryOf(ProductPageUrl(rel)) == rel
  {
    var url := ProductPageUrl(rel);
    var end := |CatalogBase| - |Marker|;
    CatalogBaseMarker();
    FindAppend(CatalogBase, rel, Marker);
    assert Find(url, Marker) == Some(end);
    assert url[end + |Marker|..] == rel;
    SplitSingleIffFree(rel, Marker);
    assert Split(rel, Marker) == [rel];
    assert Split(url, Marker) == [url[..end]] + [rel];
  }

  /**
   A path lacking a character of the marker (here its `g`) cannot contain
   the marker, and every configured seed path lacks `g`; such a seed's
   category is its path.
   */
  lemma SeedCategory(seed: string, path: string)
    requires seed == CatalogBase + path
    requires 'g' !in path
    ensures CategoryOf(seed) == path
  {
    assert Marker[7] == 'g';
    FreeOfMissingChar(path, Marker, 'g');
    CategoryOfCatalogPage(path);
  }

  /** The categories crawled are the paths after `/catalog/` of the three seeds. */
  lemma StartCategories()
    ensures |StartUrls| == |SeedPaths|
    ensures forall k :: 0 <= k < |StartUrls| ==> CategoryOf(StartUrls[k]) == SeedPaths[k]
  {
    forall k | 0 <= k < |StartUrls| ensures CategoryOf(StartUrls[k]) == SeedPaths[k] {
      SeedCategory(StartUrls[k], SeedPaths[k]);
    }
  }
}
