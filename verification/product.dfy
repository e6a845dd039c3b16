/**
 The product detail normaliser of the fix_price spider (`parse_details`):
 a product document from the detail API becomes one output record, or the
 normalisation fails where the spider's dictionary lookups fail.

 Python truthiness is modelled explicitly: a number is truthy when present
 (not null) and non-zero; a list is truthy when non-empty.
 */
module Product {
  import opened Wrappers
  import opened Text
  import opened Urls

  /** A scalar JSON value that the normaliser copies through unchanged. */
  datatype Json = Null | Bool(b: bool) | Num(n: real) | Str(s: string)

  /** One entry of the document's `variants` list; `None` stands for a JSON null. */
  datatype Variant = Variant(
    price: Option<real>,
    fixPrice: Option<real>,
    count: Option<int>,
    width: Json,
    height: Json,
    length: Json,
    weight: Json,
    barcode: Json)

  datatype Brand = Brand(title: Json)

  datatype Image = Image(src: string)

  datatype Property = Property(value: Json)

  /**
   A product detail document. A field of `Option` type is a key the spider
   reads by subscript, so `None` means the key is absent and the read
   raises. `brand`, `images` and `properties` are read with `.get` and only
   their truthiness matters: an absent key, a null and an empty value all
   appear as `None` or the empty list. `video` is subscripted but then only
   tested for truthiness, so `Some([])` stands for every falsy video value.
   */
  datatype Document = Document(
    id: Option<Json>,
    url: Option<string>,
    title: Option<Json>,
    brand: Option<Brand>,
    images: seq<Image>,
    video: Option<seq<Json>>,
    description: Option<Json>,
    properties: seq<Property>,
    variants: Option<seq<Variant>>)

  /** The Python exception that aborts normalisation, with the key or list it concerns. */
  datatype Error = KeyError(key: string) | IndexError(list: string)

  /**
   The `price_data` dictionary: `current` and `original` are its optional
   keys; `discount` is present exactly when the `sale_tag` key is, and
   holds the unrounded percentage the tag displays.
   */
  datatype PriceData = PriceData(current: Option<real>, original: Option<real>, discount: Option<real>)

  datatype Stock = Stock(inStock: bool, count: int)

  /** The `assets` dictionary; `video` is `None` when the key is not set. */
  datatype Assets = Assets(mainImage: string, setImages: seq<string>, video: Option<seq<Json>>)

  /** The yielded item, without its capture timestamp. */
  datatype Record = Record(
    rpc: Json,
    url: string,
    title: Json,
    brand: Json,
    priceData: PriceData,
    stock: Stock,
    assets: Assets,
    metadata: map<string, Json>,
    variants: nat)

  const DescriptionKey: string := "__description"
  const CountryKey: string := "СТРАНА ПРОИЗВОДСТВА"
  const WidthKey: string := "ШИРИНА"
  const HeightKey: string := "ВЫСОТА"
  const LengthKey: string := "ДЛИННА"
  const WeightKey: string := "ВЕС"
  const BarcodeKey: string := "ШТРИХ-КОД"

  /** The metadata keys filled from the primary variant. */
  const DimensionKeys: set<string> := {WidthKey, HeightKey, LengthKey, WeightKey, BarcodeKey}

  predicate Truthy(x: Option<real>) {
    x.Some? && x.value != 0.0
  }

  predicate TruthyCount(x: Option<int>) {
    x.Some? && x.value != 0
  }

  /** A subscript read of a document key: the value, or a `KeyError` when the key is absent. */
  function Required<T>(field: Option<T>, key: string): Result<T, Error> {
    match field
    case Some(v) => Success(v)
    case None => Failure(KeyError(key))
  }

  /** `product['variants'][0]`: the primary variant, or an `IndexError` for an empty list. */
  function PrimaryVariant(variants: seq<Variant>): Result<Variant, Error> {
    if |variants| == 0 then Failure(IndexError("variants")) else Success(variants[0])
  }

  /** The brand title when the brand object is truthy, else the empty string. */
  function BrandTitle(brand: Option<Brand>): Json {
    match brand
    case Some(b) => b.title
    case None => Str("")
  }

  /** The exact discount percentage `100 * (1 - current / original)`, before rounding. */
  function Discount(current: real, original: real): real
    requires original != 0.0
  {
    100.0 * (1.0 - current / original)
  }

  /**
   A discount computed from a positive original price above the current
   price is strictly positive, and below 100 when the current price is
   positive too.
   */
  lemma DiscountBounds(current: real, original: real)
    requires 0.0 < original && current < original
    ensures 0.0 < Discount(current, original)
    ensures 0.0 < current ==> Discount(current, original) < 100.0
  {
    var q := current / original;
    assert q * original == current;
    assert q < 1.0;
    if 0.0 < current {
      assert 0.0 < q;
    }
  }

  /**
   The price section. Each price key is set only from a truthy variant
   price; the comparison then reads both keys, so a missing one raises
   `KeyError` (`current` is read first). A sale discount is recorded
   exactly when the current price is below the original.
   */
  function Prices(v: Variant): (r: Result<PriceData, Error>)
    ensures r.Success? <==> Truthy(v.price) && Truthy(v.fixPrice)
    ensures !Truthy(v.price) ==> r == Failure(KeyError("current"))
    ensures Truthy(v.price) && !Truthy(v.fixPrice) ==> r == Failure(KeyError("original"))
    ensures r.Success? ==> r.value.current == v.price && r.value.original == v.fixPrice
    ensures r.Success? ==> (r.value.discount.Some? <==> v.price.value < v.fixPrice.value)
    ensures r.Success? && r.value.discount.Some? ==>
              r.value.discount.value == Discount(v.price.value, v.fixPrice.value)
  {
    var current := if Truthy(v.price) then Some(v.price.value) else None;
    var original := if Truthy(v.fixPrice) then Some(v.fixPrice.value) else None;
    if current.None? then Failure(KeyError("current"))
    else if original.None? then Failure(KeyError("original"))
    else
      var discount :=
        if current.value < original.value then Some(Discount(current.value, original.value)) else None;
      Success(PriceData(current, original, discount))
  }

  /**
   The stock section: in stock exactly when the variant's count is truthy;
   the recorded count is the variant's count then and 0 otherwise, so the
   recorded count is non-zero exactly when the product is in stock.
   */
  function StockOf(count: Option<int>): (s: Stock)
    ensures s.inStock <==> TruthyCount(count)
    ensures s.inStock ==> s.count == count.value
    ensures !s.inStock ==> s.count == 0
    ensures s.inStock <==> s.count != 0
  {
    var inStock := TruthyCount(count);
    Stock(inStock, if inStock then count.value else 0)
  }

  /** The `src` of every image, in document order. */
  function Sources(images: seq<Image>): (srcs: seq<string>)
    ensures |srcs| == |images|
    ensures forall i :: 0 <= i < |images| ==> srcs[i] == images[i].src
  {
    if images == [] then [] else [images[0].src] + Sources(images[1..])
  }

  /**
   The assets section. Without images the main image is empty and the list
   is empty; otherwise the list holds every image source in order and the
   main image is its first entry. The video is recorded only when truthy.
   */
  function AssetsOf(images: seq<Image>, video: seq<Json>): (a: Assets)
    ensures images == [] ==> a.mainImage == "" && a.setImages == []
    ensures images != [] ==> a.setImages == Sources(images) && a.mainImage == a.setImages[0]
    ensures a.video.Some? <==> video != []
    ensures a.video.Some? ==> a.video.value == video
  {
    var base := Assets("", [], None);
    var withImages := if images != [] then base.(mainImage := images[0].src, setImages := Sources(images)) else base;
    if video != [] then withImages.(video := Some(video)) else withImages
  }

  /**
   The metadata section. The description is always recorded; the country
   of origin only for a non-empty property list, and then only from its
   first property; the five dimension and barcode entries only for a
   non-empty variant list, from its first variant.
   */
  function MetadataOf(description: Json, properties: seq<Property>, variants: seq<Variant>): (m: map<string, Json>)
    ensures m.Keys == {DescriptionKey}
                      + (if properties != [] then {CountryKey} else {})
                      + (if variants != [] then DimensionKeys else {})
    ensures m[DescriptionKey] == description
    ensures properties != [] ==> m[CountryKey] == properties[0].value
    ensures variants != [] ==>
              && m[WidthKey] == variants[0].width
              && m[HeightKey] == variants[0].height
              && m[LengthKey] == variants[0].length
              && m[WeightKey] == variants[0].weight
              && m[BarcodeKey] == variants[0].barcode
  {
    var m := map[DescriptionKey := description];
    var m := if properties != [] then m[CountryKey := properties[0].value] else m;
    if variants != [] then
      var v := variants[0];
      m[WidthKey := v.width][HeightKey := v.height][LengthKey := v.length]
       [WeightKey := v.weight][BarcodeKey := v.barcode]
    else
      m
  }

  /** The first variant of a document that has a non-empty variant list. */
  function Primary(doc: Document): Variant
    requires doc.variants.Some? && |doc.variants.value| > 0
  {
    doc.variants.value[0]
  }

  /** Every read the normaliser makes succeeds on this document. */
  predicate Normalizable(doc: Document) {
    && doc.id.Some?
    && doc.url.Some?
    && doc.title.Some?
    && doc.variants.Some?
    && |doc.variants.value| > 0
    && Truthy(Primary(doc).price)
    && Truthy(Primary(doc).fixPrice)
    && doc.video.Some?
    && doc.description.Some?
  }

  /**
   `parse_details`: the record for one product document, with the reads
   in the spider's order so that the first failing read decides the error.
   */
  function Normalize(doc: Document): (r: Result<Record, Error>)
    ensures r.Success? <==> Normalizable(doc)
  {
    var rpc :- Required(doc.id, "id");
    var url :- Required(doc.url, "url");
    var title :- Required(doc.title, "title");
    var brand := BrandTitle(doc.brand);
    var variants :- Required(doc.variants, "variants");
    var primary :- PrimaryVariant(variants);
    var prices :- Prices(primary);
    var stock := StockOf(primary.count);
    var video :- Required(doc.video, "video");
    var assets := AssetsOf(doc.images, video);
    var description :- Required(doc.description, "description");
    var metadata := MetadataOf(description, doc.properties, variants);
    Success(Record(rpc, ProductPageUrl(url), title, brand, prices, stock, assets, metadata, |variants|))
  }

  /**
   Which failure a malformed document meets: the first failing read in the
   spider's order, among them the empty variant list, the missing price
   keys at the comparison and the unconditional video read.
   */
  lemma NormalizeErrors(doc: Document)
    ensures doc.id.None? ==> Normalize(doc) == Failure(KeyError("id"))
    ensures doc.id.Some? && doc.url.None? ==> Normalize(doc) == Failure(KeyError("url"))
    ensures doc.id.Some? && doc.url.Some? && doc.title.None? ==> Normalize(doc) == Failure(KeyError("title"))
    ensures doc.id.Some? && doc.url.Some? && doc.title.Some? ==>
              && (doc.variants.None? ==> Normalize(doc) == Failure(KeyError("variants")))
              && (doc.variants == Some([]) ==> Normalize(doc) == Failure(IndexError("variants")))
    ensures doc.id.Some? && doc.url.Some? && doc.title.Some? && doc.variants.Some? && |doc.variants.value| > 0 ==>
              && (!Truthy(Primary(doc).price) ==> Normalize(doc) == Failure(KeyError("current")))
              && (Truthy(Primary(doc).price) && !Truthy(Primary(doc).fixPrice) ==>
                    Normalize(doc) == Failure(KeyError("original")))
              && (Truthy(Primary(doc).price) && Truthy(Primary(doc).fixPrice) && doc.video.None? ==>
                    Normalize(doc) == Failure(KeyError("video")))
              && (Truthy(Primary(doc).price) && Truthy(Primary(doc).fixPrice) && doc.video.Some? && doc.description.None? ==>
                    Normalize(doc) == Failure(KeyError("description")))
  {
  }

  /**
   The identity fields: `RPC` and `title` are copied, the URL is the public
   catalog page of the product's relative URL, and the brand is the brand
   title or the empty string. The recorded URL yields the relative URL back
   as its category whenever that URL holds no `/catalog/`.
   */
  lemma NormalizeIdentity(doc: Document)
    requires Normalize(doc).Success?
    ensures var r := Normalize(doc).value;
      && r.rpc == doc.id.value
      && r.title == doc.title.value
      && r.url == CatalogBase + doc.url.value
      && (Free(doc.url.value, Marker) ==> CategoryOf(r.url) == doc.url.value)
      && (doc.brand.Some? ==> r.brand == doc.brand.value.title)
      && (doc.brand.None? ==> r.brand == Str(""))
  {
    if Free(doc.url.value, Marker) {
      CategoryOfCatalogPage(doc.url.value);
    }
  }

  /**
   The price section of a normalised record: both prices are present and
   are the primary variant's; a discount is recorded exactly when the
   current price is below the original, and it is then positive whenever
   the original price is.
   */
  lemma NormalizePrices(doc: Document)
    requires Normalize(doc).Success?
    ensures var p := Normalize(doc).value.priceData;
      var v := Primary(doc);
      && p.current == v.price && p.original == v.fixPrice
      && p.current.Some? && p.original.Some?
      && (p.discount.Some? <==> p.current.value < p.original.value)
      && (p.discount.Some? ==> p.discount.value == Discount(p.current.value, p.original.value))
      && (p.discount.Some? && 0.0 < p.original.value ==> 0.0 < p.discount.value)
  {
    var p := Normalize(doc).value.priceData;
    if p.discount.Some? && 0.0 < p.original.value {
      DiscountBounds(p.current.value, p.original.value);
    }
  }

  /** The stock section of a normalised record follows the primary variant's count. */
  lemma NormalizeStock(doc: Document)
    requires Normalize(doc).Success?
    ensures var s := Normalize(doc).value.stock;
      var c := Primary(doc).count;
      && (s.inStock <==> TruthyCount(c))
      && (s.inStock ==> s.count == c.value)
      && (!s.inStock ==> s.count == 0)
  {
  }

  /** The assets section of a normalised record. */
  lemma NormalizeAssets(doc: Document)
    requires Normalize(doc).Success?
    ensures var a := Normalize(doc).value.assets;
      && (doc.images == [] ==> a.mainImage == "" && a.setImages == [])
      && (doc.images != [] ==>
            && |a.setImages| == |doc.images|
            && (forall i :: 0 <= i < |doc.images| ==> a.setImages[i] == doc.images[i].src)
            && a.mainImage == a.setImages[0])
      && (a.video.Some? <==> doc.video.value != [])
      && (a.video.Some? ==> a.video.value == doc.video.value)
  {
  }

  /**
   The metadata and variant count of a normalised record: the description
   is always present, the country of origin exactly when there are
   properties, the five dimension and barcode entries always (the variant
   list is non-empty whenever normalisation succeeds), and the count is the
   length of the variant list, hence at least 1.
   */
  lemma NormalizeMetadata(doc: Document)
    requires Normalize(doc).Success?
    ensures var r := Normalize(doc).value;
      && r.metadata.Keys == {DescriptionKey} + (if doc.properties != [] then {CountryKey} else {}) + DimensionKeys
      && r.metadata[DescriptionKey] == doc.description.value
      && (doc.properties != [] ==> r.metadata[CountryKey] == doc.properties[0].value)
      && r.metadata[WidthKey] == Primary(doc).width
      && r.metadata[HeightKey] == Primary(doc).height
      && r.metadata[LengthKey] == Primary(doc).length
      && r.metadata[WeightKey] == Primary(doc).weight
      && r.metadata[BarcodeKey] == Primary(doc).barcode
      && r.variants == |doc.variants.value|
      && r.variants >= 1
  {
  }

  /**
   A product priced 100 with a fixed price of 150 gets a sale discount of
   exactly 100/3 percent (displayed as 33.33).
   */
  lemma SaleTagExample(v: Variant)
    requires v.price == Some(100.0) && v.fixPrice == Some(150.0)
    ensures Prices(v) == Success(PriceData(Some(100.0), Some(150.0), Some(100.0 / 3.0)))
  {
    assert Discount(100.0, 150.0) == 100.0 / 3.0;
  }

  /** A document whose variant list is empty is dropped with an `IndexError`. */
  lemma EmptyVariantsFail(doc: Document)
    requires doc.id.Some? && doc.url.Some? && doc.title.Some?
    requires doc.variants == Some([])
    ensures Normalize(doc) == Failure(IndexError("variants"))
  {
  }
}
