# fix_price spider — Dafny model

This project models the core of the `fix_price` Scrapy spider. The spider
crawls the fix-price.com product API category by category, fans each listed
product out to its detail endpoint, and normalises every product detail
document into one output record.

The model has five modules:

- `Wrappers`: `Option` and `Result`, the failure-propagating types used for
  the spider's `KeyError`/`IndexError` paths.
- `Text`: the two Python string operations the spider uses, plus helpers
  that exist only to state their round-trip properties.
  - `str.split` with a non-empty separator: a left-to-right, non-overlapping
    scan, as `Find` and `Split` define it.
  - The decimal rendering of a page number in an f-string.
  - `sep.join` and a digit parser. The spider uses neither; they state that
    a split loses nothing and that a rendered page number reads back.
- `Urls`: the URLs the spider builds.
  - The category taken from a seed URL: `url.split('/catalog/')[-1]`.
  - The paginated category endpoint: `get_category_page_url`.
  - The product detail endpoint, and the public catalog URL recorded in the
    output.
- `Crawl`: the crawl controller.
  - `start_requests`: one page-1 request per seed.
  - The `parse` step: one detail request per listed product, then a request
    for the next page exactly when the page holds 24 products.
  - The pagination of a whole category over a finite catalog. The catalog is
    modelled as a sequence of pages; pages past its end are empty.
- `Product`: `parse_details`, which turns a detail document into a `Record`
  or fails with the Python error the spider's lookups raise.

The model keeps these behaviours of the code:

- A seed URL without `/catalog/` yields the whole URL as its category.
- An empty `variants` list raises `IndexError` at `product['variants'][0]`,
  so every record that is produced has at least one variant.
- A falsy `price` or `fixPrice` leaves its key out of `price_data`, and the
  comparison on line 85 then raises `KeyError`.
- `in_stock` is `bool(count)`: it is true for any non-zero count, including
  a negative one.
- With no images, `main_image` is the empty string and `set_images` is
  empty.
- The `video` key is read by subscript, so a document without it raises
  `KeyError`.
- Detail requests go to `.../buyer/v1/product/<url>`, while page requests
  go to `.../buyer/v1/product/in/<category>`.

## Model

| member | source | states |
|---|---|---|
| Text.JoinSplit | fix_price_parser/fix_price_parser/spiders/fix_price_spider.py:36 | Python's split of the seed URL on `/catalog/` always yields at least one piece, and joining the pieces with the marker gives back the URL. |
| Text.SplitPiecesFree | fix_price_parser/fix_price_parser/spiders/fix_price_spider.py:36 | No piece of the split, and so not the `[-1]` piece taken as the category, contains `/catalog/`. |
| Text.SplitSingleIffFree | fix_price_parser/fix_price_parser/spiders/fix_price_spider.py:36 | The split yields a single piece exactly when the marker does not occur in the URL. |
| Text.FindAppend | fix_price_parser/fix_price_parser/spiders/fix_price_spider.py:36 | The first marker occurrence the left-to-right scan finds in a prefix is also the first one it finds in the whole string. |
| Text.Decimal | fix_price_parser/fix_price_parser/spiders/fix_price_spider.py:31 | The page number in the URL is a non-empty run of decimal digits with no leading zero. |
| Text.ParseDecimalOfDecimal | fix_price_parser/fix_price_parser/spiders/fix_price_spider.py:31 | Reading the rendered page number back gives the page number. |
| Text.SplitTrailingDigitsOf | fix_price_parser/fix_price_parser/spiders/fix_price_spider.py:31 | A digit run that follows a non-digit (the `=` of `?page=`) is split off whole from the URL's head. |
| Urls.CategoryOf | fix_price_parser/fix_price_parser/spiders/fix_price_spider.py:36 | The category is a suffix of the seed URL and contains no `/catalog/`. It is the whole URL exactly when the marker is absent; otherwise it directly follows an occurrence of the marker. |
| Urls.DecodeCategoryPageUrl | fix_price_parser/fix_price_parser/spiders/fix_price_spider.py:30-31 | The category page URL can be decoded back to exactly the category and page it was built from. |
| Urls.CategoryPageUrlInjective | fix_price_parser/fix_price_parser/spiders/fix_price_spider.py:30-31 | Two category page URLs are equal if and only if their categories and pages are equal, so no two pages of a crawl share a URL. |
| Urls.CatalogBaseMarker | fix_price_parser/fix_price_parser/spiders/fix_price_spider.py:14-16 | In `https://fix-price.com/catalog/` the first `/catalog/` is the one that ends the base. |
| Urls.CategoryOfCatalogPage | fix_price_parser/fix_price_parser/spiders/fix_price_spider.py:72 | For a relative path free of the marker, the category of the catalog URL built from it is that path. The recorded product URL and the seed URLs share this shape. |
| Urls.SeedCategory | fix_price_parser/fix_price_parser/spiders/fix_price_spider.py:14-16 | The category of a catalog-base URL whose path lacks the letter `g` is that path. |
| Urls.StartCategories | fix_price_parser/fix_price_parser/spiders/fix_price_spider.py:13-17 | The categories of the three configured seeds are their paths after `/catalog/`, in order. |
| Crawl.ConsistentDecodes | fix_price_parser/fix_price_parser/spiders/fix_price_spider.py:57-64 | A page request whose URL is built from its own context, as every page request the spider yields is, has a URL that decodes back to exactly that category and page. |
| Crawl.StartRequests | fix_price_parser/fix_price_parser/spiders/fix_price_spider.py:33-45 | There is one request per seed, in seed order. Each is a page request for page 1 of the seed's category, and its URL is built from that context. |
| Crawl.SeedRequests | fix_price_parser/fix_price_parser/spiders/fix_price_spider.py:13-45 | The configured seeds yield exactly three requests: page 1 of each seed path, in order. |
| Crawl.ApiUrls | fix_price_parser/fix_price_parser/spiders/fix_price_spider.py:50 | There is one detail endpoint per listed product: the product API base followed by the product's relative URL, in list order. |
| Crawl.DetailRequests | fix_price_parser/fix_price_parser/spiders/fix_price_spider.py:49-52 | The product loop yields exactly one detail request per product, in order, and no page request. |
| Crawl.ParsePage | fix_price_parser/fix_price_parser/spiders/fix_price_spider.py:47-66 | A page yields its detail requests first. A request for page+1 of the same category follows if and only if the page holds exactly 24 products. Every page request's URL matches its context. |
| Crawl.CrawlFrom | fix_price_parser/fix_price_parser/spiders/fix_price_spider.py:54-66 | Every page request issued while paginating a category carries a URL that names its own category and page. |
| Crawl.FirstShort | fix_price_parser/fix_price_parser/spiders/fix_price_spider.py:54 | This is the first page from p on that is not full. It exists for every finite catalog and lies at most one page past the catalog's end. |
| Crawl.CrawlFromPages | fix_price_parser/fix_price_parser/spiders/fix_price_spider.py:54-66 | After page p, the crawl requests exactly pages p+1 through the first short page, in order. |
| Crawl.CrawlFromDetails | fix_price_parser/fix_price_parser/spiders/fix_price_spider.py:47-66 | The crawl from page p yields one detail request per listed entry on pages p through the first short page, and no others, in list order. |
| Crawl.CrawlCategoryCoverage | fix_price_parser/fix_price_parser/spiders/fix_price_spider.py:33-66 | A category's crawl terminates on every finite catalog. It requests pages 1 through k, where k is the first page that is not full, and no others. It yields one detail request per listed entry on those pages, and no others, in list order. |
| Crawl.TwoPageCategory | fix_price_parser/fix_price_parser/spiders/fix_price_spider.py:47-66 | With a full first page and a second page of 10 products, pages 1 and 2 are requested and page 3 is not. 34 detail requests are yielded. |
| Product.DiscountBounds | fix_price_parser/fix_price_parser/spiders/fix_price_spider.py:85-86 | The discount is positive when the original price is positive and above the current price. It is also below 100 when the current price is positive. |
| Product.Prices | fix_price_parser/fix_price_parser/spiders/fix_price_spider.py:78-87 | Pricing succeeds if and only if both prices are truthy. Otherwise it fails with `KeyError('current')`, checked first, or `KeyError('original')`. The prices are copied, and a discount of 100·(1 − current/original) is recorded exactly when current < original. |
| Product.StockOf | fix_price_parser/fix_price_parser/spiders/fix_price_spider.py:89-91 | The product is in stock exactly when the count is truthy. The recorded count is then the variant's count, and otherwise 0, so it is non-zero exactly when the product is in stock. |
| Product.Sources | fix_price_parser/fix_price_parser/spiders/fix_price_spider.py:97-98 | The image list holds every image's `src`, in document order. |
| Product.AssetsOf | fix_price_parser/fix_price_parser/spiders/fix_price_spider.py:93-101 | With no images, the main image is `''` and the list is empty. Otherwise the list is every source in order and the main image is its first entry. The video is set if and only if it is truthy, and then it is copied. |
| Product.MetadataOf | fix_price_parser/fix_price_parser/spiders/fix_price_spider.py:103-115 | The key set is exactly: the description; the country of origin when there are properties, taken from the first property; and the five dimension and barcode keys when there are variants, taken from the first variant. |
| Product.Normalize | fix_price_parser/fix_price_parser/spiders/fix_price_spider.py:68-130 | A record is produced if and only if every read succeeds: id, url, title, variants present and non-empty, both prices truthy, video and description present. |
| Product.NormalizeErrors | fix_price_parser/fix_price_parser/spiders/fix_price_spider.py:71-104 | For each malformed document, the error is the one raised by the first failing read in the spider's order. |
| Product.NormalizeIdentity | fix_price_parser/fix_price_parser/spiders/fix_price_spider.py:71-74 | The RPC and title are copied. The URL is the catalog base plus the relative URL, and its category is that relative URL again when that relative URL holds no `/catalog/`. The brand is the brand title, or `''`. |
| Product.NormalizePrices | fix_price_parser/fix_price_parser/spiders/fix_price_spider.py:76-87 | A record's prices are the primary variant's and are both present. The discount is present exactly when current < original, equals the exact percentage, and is positive for a positive original price. |
| Product.NormalizeStock | fix_price_parser/fix_price_parser/spiders/fix_price_spider.py:89-91 | A record's stock follows the primary variant's count. |
| Product.NormalizeAssets | fix_price_parser/fix_price_parser/spiders/fix_price_spider.py:93-101 | A record's assets follow the document's images and video. |
| Product.NormalizeMetadata | fix_price_parser/fix_price_parser/spiders/fix_price_spider.py:103-117 | A record's metadata key set and values follow the document, with the dimension keys always present. The variant count is the list length, so it is at least 1. |
| Product.SaleTagExample | fix_price_parser/fix_price_parser/spiders/fix_price_spider.py:85-87 | A price of 100 against a fixed price of 150 gives a discount of exactly 100/3 percent. |
| Product.EmptyVariantsFail | fix_price_parser/fix_price_parser/spiders/fix_price_spider.py:76 | A document whose identity fields are present but whose variant list is empty is dropped with `IndexError`. |

## Left out

- Scrapy's request plumbing is not modelled: the HTTP method, the headers and API key, `dont_filter`, callbacks and scheduling. A request is modelled as its URL plus, for page requests, its `meta` context.
- `response.json()` is not modelled. Page bodies are modelled as already-decoded product lists, and detail bodies as `Document` values. Bodies that are not JSON and page entries without a `url` key are out of scope.
- Concurrency between categories and between detail fetches is not modelled. Only the sequential order within one category's pagination is.
- Scrapy's duplicate filter is not modelled. Detail requests are sent without `dont_filter`, so the framework fetches a product listed twice (on two pages or in two categories) only once. The model states which requests the spider yields, not which are fetched or in what order.
- The `timestamp` field (`datetime.now()`) is not modelled: it is a clock read.
- The output sink that receives the yielded dictionaries is not modelled.
- Product.Prices: does not model `round(…, 2)` or the `Скидка …%` string; the discount is kept as the exact real percentage, because the rounding and formatting are floating-point presentation.
- Prices are modelled as exact reals, not IEEE doubles.
- Product.Normalize: assumes the nested keys it reads are present (`brand['title']`, `image['src']`, `properties[0]['value']` and the variant fields) and does not model their `KeyError`s.
- Product.Normalize: a `variants` value of `null` (a `TypeError` in `len`/subscript) is not modelled.
- Product.Normalize: a non-list truthy `video` (a string or dict passed to `list()`) is not modelled.
- Product.Normalize: a non-integer `count` is not modelled.
- Product.Normalize: a document `url` that is not a string is not modelled. The f-string on line 72 renders any JSON value (a null gives `None`, a number its decimal form); the model takes the relative URL as a string.
- Crawl.ApiUrls: a listed product's `url` that is not a string is not modelled, for the same reason as the f-string on line 50.
- Crawl.CrawlFrom: models an upstream that serves a fixed finite catalog. A server that always answers with full pages would make the spider paginate forever; the model excludes that by construction.
