/**
 * The two HTTP endpoints around the scraper (api.py:444-530), reduced to their
 * input checks and to how they turn the scraper's results into a response.
 */
module Api {
  import opened Wrappers
  import opened Text
  import opened Fields
  import opened Products
  import opened UrlBuilder
  import opened Listing
  import opened Detail
  import opened Pagination

  /** The prefix every product URL must have (api.py:505). */
  const ProductUrlPrefix: string := "https://www.tayara.tn/"

  const PriceRangeMessage: string := "min_price cannot be greater than max_price"
  const ProductUrlMessage: string := "URL must be a valid Tayara.tn product URL"

  /** An `HTTPException`: status code and detail. */
  datatype ClientError = ClientError(status: int, detail: string)

  /** `SearchResponse` (api.py:31-35). */
  datatype SearchResponse = SearchResponse(success: bool, totalProducts: int, products: seq<Product>, error: Option<string>)

  /** `ProductResponse` (api.py:37-40). */
  datatype ProductResponse = ProductResponse(success: bool, product: Product, error: Option<string>)

  /** api.py:464-465: a price range is rejected exactly when both bounds are given and the minimum exceeds the maximum. */
  function CheckPriceRange(minPrice: Option<int>, maxPrice: Option<int>): (r: Option<ClientError>)
    ensures r.Some? <==> minPrice.Some? && maxPrice.Some? && minPrice.value > maxPrice.value
    ensures r.Some? ==> r.value == ClientError(400, PriceRangeMessage)
  {
    if minPrice.Some? && maxPrice.Some? && minPrice.value > maxPrice.value then Some(ClientError(400, PriceRangeMessage))
    else None
  }

  /** api.py:505-506: only URLs under the site's origin are accepted. */
  function CheckProductUrl(url: string): (r: Option<ClientError>)
    ensures r.None? <==> StartsWith(url, ProductUrlPrefix)
    ensures r.Some? ==> r.value == ClientError(400, ProductUrlMessage)
  {
    if StartsWith(url, ProductUrlPrefix) then None else Some(ClientError(400, ProductUrlMessage))
  }

  /**
   * `/search` (api.py:444-490): reject an inverted price range, otherwise run
   * the scrape and report its summary. The scrape swallows every per-page
   * error, so the `except Exception` branch is never reached.
   */
  method Search(
    scrape: string -> PageOutcome,
    quote: string -> string,
    query: string,
    category: string,
    subcategory: string,
    city: Option<string>,
    status: Option<string>,
    minPrice: Option<int>,
    maxPrice: Option<int>,
    maxPages: int)
    returns (response: Result<SearchResponse, ClientError>)
    ensures response.Failure? <==> minPrice.Some? && maxPrice.Some? && minPrice.value > maxPrice.value
    ensures response.Failure? ==> response.error == ClientError(400, PriceRangeMessage)
    ensures response.Success? ==>
      var run := RunFrom(ByPage(scrape, quote, SearchFilter(query, category, Some(subcategory), city, status, minPrice, maxPrice)), 1, maxPages);
      response.value == SearchResponse(true, |run.products|, run.products, None)
  {
    var rejected := CheckPriceRange(minPrice, maxPrice);
    if rejected.Some? {
      return Failure(rejected.value);
    }
    var _, summary := ScrapeProducts(scrape, quote, query, category, Some(subcategory), city, status, minPrice, maxPrice, maxPages);
    response := Success(SearchResponse(summary.success, summary.totalProducts, summary.products, None));
  }

  /**
   * `str(e)` of what the product page raised. The two Python messages are
   * those of CPython 3.11 and later; a navigation failure carries its own.
   */
  function ErrorMessage(e: DetailError): string {
    match e
    case NavigationFailed(cause) => cause
    case LocationIndexError => "list index out of range"
    case DescriptionUnbound => "cannot access local variable 'description' where it is not associated with a value"
  }

  /** The placeholder product of a failed lookup (api.py:521, 528). */
  function ErrorProduct(url: string): Product {
    Product("Error", None, None, None, None, url, None, None, None, false)
  }

  /**
   * `/product` (api.py:492-530): reject a URL outside the site, otherwise read
   * the page; a failure becomes an unsuccessful response with a placeholder
   * product and the wrapped message instead of an HTTP error.
   */
  function ProductLookup(url: string, page: DetailPage): (r: Result<ProductResponse, ClientError>)
    ensures r.Failure? <==> !StartsWith(url, ProductUrlPrefix)
    ensures r.Success? ==> r.value.product.productUrl == url
    ensures r.Success? ==> (r.value.success <==> ExtractDetail(url, page).Success?)
    ensures r.Success? ==> (r.value.error.None? <==> r.value.success)
    ensures r.Success? && r.value.success ==> r.value.product == ExtractDetail(url, page).value
    ensures r.Success? && !r.value.success ==>
      r.value.product == ErrorProduct(url)
      && r.value.error == Some("Failed to extract product info: " + ErrorMessage(ExtractDetail(url, page).error))
  {
    var rejected := CheckProductUrl(url);
    if rejected.Some? then Failure(rejected.value)
    else
      match ExtractDetail(url, page)
      case Success(product) =>
        ExtractDetailProduct(url, page.dom);
        Success(ProductResponse(true, product, None))
      case Failure(e) =>
        Success(ProductResponse(false, ErrorProduct(url), Some("Failed to extract product info: " + ErrorMessage(e))))
  }

  /**
   * A link taken from a listing card passes the product endpoint's check
   * whenever its `href` is a site-relative path.
   */
  lemma ListingLinksAreAccepted(href: string)
    requires href != [] && href[0] == '/'
    ensures AbsoluteUrl(Some(href)).Some? && CheckProductUrl(AbsoluteUrl(Some(href)).value).None?
  {
    var url := SiteOrigin + href;
    if |href| >= 4 {
      assert href[..4][0] != "http"[0];
    }
    assert !StartsWith(href, "http");
    assert url[..|ProductUrlPrefix|] == ProductUrlPrefix;
  }
}
