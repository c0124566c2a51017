/**
 * `TayaraScraper.scrape_products` (api.py:164-224): request listing pages 1, 2,
 * ... up to `max_pages`, gather their products, and stop early at a page that
 * yields nothing or fewer than a full page. The per-page scrape is an input:
 * what scraping a listing URL gives, either an error or the products found.
 */
module Pagination {
  import opened Wrappers
  import opened Products
  import opened UrlBuilder

  /** How many products a full listing page holds (api.py:206). */
  const FullPage: nat := 30

  /** What `scrape_products_per_page` does for one URL: raise, or return the products found. */
  datatype PageOutcome = PageError(cause: string) | PageOk(products: seq<Product>)

  /** The products a page contributes: none for an error. */
  function Yield(o: PageOutcome): seq<Product> {
    if o.PageOk? then o.products else []
  }

  /** The pages requested, in order, and the products gathered. */
  datatype Run = Run(pages: seq<int>, products: seq<Product>)

  /** The dictionary `scrape_products` returns (api.py:220-224). */
  datatype ScrapeSummary = ScrapeSummary(success: bool, totalProducts: int, products: seq<Product>)

  /**
   * The run from page `page` on, with `outcome(n)` what page `n` yields: an
   * error skips to the next page, an empty page stops, a short page is kept
   * and stops, a full page is kept and the run goes on; no page past
   * `maxPages` is requested.
   */
  function RunFrom(outcome: int -> PageOutcome, page: int, maxPages: int): Run
    decreases maxPages - page
  {
    if page > maxPages then Run([], [])
    else
      match outcome(page)
      case PageError(_) =>
        var rest := RunFrom(outcome, page + 1, maxPages);
        Run([page] + rest.pages, rest.products)
      case PageOk(items) =>
        if items == [] then Run([page], [])
        else if |items| < FullPage then Run([page], items)
        else
          var rest := RunFrom(outcome, page + 1, maxPages);
          Run([page] + rest.pages, items + rest.products)
  }

  /** One step of a run whose page is within the limit. */
  lemma RunFromStep(outcome: int -> PageOutcome, page: int, maxPages: int)
    requires page <= maxPages
    ensures var run := RunFrom(outcome, page, maxPages);
      var rest := RunFrom(outcome, page + 1, maxPages);
      var o := outcome(page);
      && (o.PageError? ==> run == Run([page] + rest.pages, rest.products))
      && (o.PageOk? && o.products == [] ==> run == Run([page], []))
      && (o.PageOk? && o.products != [] && |o.products| < FullPage ==> run == Run([page], o.products))
      && (o.PageOk? && |o.products| >= FullPage ==> run == Run([page] + rest.pages, o.products + rest.products))
  {
  }

  /** What each page number yields when its URL is built from the filters and scraped. */
  function ByPage(scrape: string -> PageOutcome, quote: string -> string, f: SearchFilter): int -> PageOutcome {
    n => scrape(UrlOf(quote, f, Some(n)))
  }

  /**
   * api.py:177-224: a `while current_page <= max_pages` loop that builds the
   * page URL, scrapes it, and either stops, or adds the products and moves to
   * the next page; a failed page is logged and skipped. The summary always
   * reports success.
   */
  method ScrapeProducts(
    scrape: string -> PageOutcome,
    quote: string -> string,
    query: string,
    category: string,
    subcategory: Option<string>,
    city: Option<string>,
    condition: Option<string>,
    minPrice: Option<int>,
    maxPrice: Option<int>,
    maxPages: int)
    returns (ghost requested: seq<int>, summary: ScrapeSummary)
    ensures var run := RunFrom(ByPage(scrape, quote, SearchFilter(query, category, subcategory, city, condition, minPrice, maxPrice)), 1, maxPages);
      summary == ScrapeSummary(true, |run.products|, run.products)
    ensures requested == RunFrom(ByPage(scrape, quote, SearchFilter(query, category, subcategory, city, condition, minPrice, maxPrice)), 1, maxPages).pages
  {
    ghost var f := SearchFilter(query, category, subcategory, city, condition, minPrice, maxPrice);
    ghost var outcome := ByPage(scrape, quote, f);
    ghost var run := RunFrom(outcome, 1, maxPages);
    var allProducts: seq<Product> := [];
    var currentPage := 1;
    requested := [];
    while currentPage <= maxPages
      invariant 1 <= currentPage
      invariant run.pages == requested + RunFrom(outcome, currentPage, maxPages).pages
      invariant run.products == allProducts + RunFrom(outcome, currentPage, maxPages).products
      decreases maxPages - currentPage
    {
      var url := BuildUrl(quote, query, category, subcategory, city, condition, minPrice, maxPrice, Some(currentPage));
      var productsPerPage := scrape(url);
      ScrapedPage(scrape, quote, f, currentPage, url);
      LoopStep(outcome, currentPage, maxPages, run, requested, allProducts);
      requested := requested + [currentPage];
      if productsPerPage.PageError? {
        currentPage := currentPage + 1;
        continue;
      }
      var items := productsPerPage.products;
      if items == [] {
        break;
      }
      allProducts := allProducts + items;
      if |items| < FullPage {
        break;
      }
      currentPage := currentPage + 1;
    }
    summary := ScrapeSummary(true, |allProducts|, allProducts);
  }

  /**
   * One iteration of the loop below: with `run` split at `page` into what was
   * already requested and gathered and the run from `page` on, the page's
   * outcome decides whether the split moves to `page + 1` or the run is over.
   */
  lemma LoopStep(outcome: int -> PageOutcome, page: int, maxPages: int, run: Run, requested: seq<int>, gathered: seq<Product>)
    requires page <= maxPages
    requires run.pages == requested + RunFrom(outcome, page, maxPages).pages
    requires run.products == gathered + RunFrom(outcome, page, maxPages).products
    ensures var o := outcome(page);
      var rest := RunFrom(outcome, page + 1, maxPages);
      && (o.PageError? ==>
            run.pages == (requested + [page]) + rest.pages && run.products == gathered + rest.products)
      && (o.PageOk? && o.products == [] ==> run.pages == requested + [page] && run.products == gathered)
      && (o.PageOk? && o.products != [] && |o.products| < FullPage ==>
            run.pages == requested + [page] && run.products == gathered + o.products)
      && (o.PageOk? && |o.products| >= FullPage ==>
            run.pages == (requested + [page]) + rest.pages && run.products == (gathered + o.products) + rest.products)
  {
    RunFromStep(outcome, page, maxPages);
    var rest := RunFrom(outcome, page + 1, maxPages);
    assert requested + ([page] + rest.pages) == (requested + [page]) + rest.pages;
    assert requested + [page] + [] == requested + [page];
    assert gathered + [] == gathered;
    if outcome(page).PageOk? {
      var items := outcome(page).products;
      assert gathered + (items + rest.products) == (gathered + items) + rest.products;
    }
  }

  /** The page scraped for the URL of page `n` is what `ByPage` says page `n` yields. */
  lemma ScrapedPage(scrape: string -> PageOutcome, quote: string -> string, f: SearchFilter, n: int, url: string)
    requires url == UrlOf(quote, f, Some(n))
    ensures scrape(url) == ByPage(scrape, quote, f)(n)
  {
  }

  // --------------------------------------------------------------- properties

  /** The products of the given pages, concatenated in page order. */
  function Gathered(outcome: int -> PageOutcome, pages: seq<int>): seq<Product> {
    if pages == [] then [] else Yield(outcome(pages[0])) + Gathered(outcome, pages[1..])
  }

  /**
   * api.py:178-218: the pages requested are `page`, `page + 1`, ... with no gap
   * and no repeat (an error still advances), none past `maxPages`, so at most
   * `maxPages - page + 1` of them; nothing is requested when `page > maxPages`.
   */
  lemma {:induction false} RunPages(outcome: int -> PageOutcome, page: int, maxPages: int)
    ensures var pages := RunFrom(outcome, page, maxPages).pages;
      && (forall i :: 0 <= i < |pages| ==> pages[i] == page + i)
      && |pages| <= (if maxPages >= page then maxPages - page + 1 else 0)
      && (pages == [] <==> page > maxPages)
    decreases maxPages - page
  {
    if page <= maxPages {
      RunPages(outcome, page + 1, maxPages);
    }
  }

  /** api.py:203: the products are the per-page lists of the requested pages, concatenated in page order. */
  lemma {:induction false} RunProducts(outcome: int -> PageOutcome, page: int, maxPages: int)
    ensures RunFrom(outcome, page, maxPages).products == Gathered(outcome, RunFrom(outcome, page, maxPages).pages)
    decreases maxPages - page
  {
    if page <= maxPages {
      RunProducts(outcome, page + 1, maxPages);
      var run := RunFrom(outcome, page, maxPages);
      var o := outcome(page);
      if o.PageError? || |o.products| >= FullPage {
        assert run.pages[1..] == RunFrom(outcome, page + 1, maxPages).pages;
      } else {
        assert run.pages == [page];
        assert Gathered(outcome, [page]) == Yield(o) + Gathered(outcome, []);
      }
    }
  }

  /**
   * api.py:199-210: the run goes past a page only when that page failed or was
   * full; it ends at `maxPages` or at a page that returned fewer than a full
   * page of products (none included).
   */
  lemma {:induction false} RunStops(outcome: int -> PageOutcome, page: int, maxPages: int)
    ensures var pages := RunFrom(outcome, page, maxPages).pages;
      && (forall i :: 0 <= i < |pages| - 1 ==>
            outcome(pages[i]).PageError? || |outcome(pages[i]).products| >= FullPage)
      && (pages != [] ==>
            var last := pages[|pages| - 1];
            last == maxPages || (outcome(last).PageOk? && |outcome(last).products| < FullPage))
    decreases maxPages - page
  {
    if page <= maxPages {
      RunStops(outcome, page + 1, maxPages);
      RunPages(outcome, page, maxPages);
      var pages := RunFrom(outcome, page, maxPages).pages;
      var rest := RunFrom(outcome, page + 1, maxPages).pages;
      var o := outcome(page);
      if o.PageError? || |o.products| >= FullPage {
        assert pages == [page] + rest;
        forall i | 0 <= i < |pages| - 1
          ensures outcome(pages[i]).PageError? || |outcome(pages[i]).products| >= FullPage
        {
          if i > 0 {
            assert pages[i] == rest[i - 1];
          }
        }
        if rest != [] {
          assert pages[|pages| - 1] == rest[|rest| - 1];
        } else {
          RunPages(outcome, page + 1, maxPages);
        }
      }
    }
  }

  /** Pages of 30, 30 and 12 products give 72 products from pages 1, 2 and 3. */
  lemma ThreePagesExample(outcome: int -> PageOutcome, a: seq<Product>, b: seq<Product>, c: seq<Product>)
    requires |a| == 30 && |b| == 30 && |c| == 12
    requires outcome(1) == PageOk(a) && outcome(2) == PageOk(b) && outcome(3) == PageOk(c)
    ensures RunFrom(outcome, 1, 3) == Run([1, 2, 3], a + b + c)
    ensures RunFrom(outcome, 1, 50) == Run([1, 2, 3], a + b + c)
    ensures |RunFrom(outcome, 1, 3).products| == 72
  {
    assert RunFrom(outcome, 3, 3) == Run([3], c);
    assert RunFrom(outcome, 4, 3) == Run([], []);
    assert RunFrom(outcome, 3, 50) == Run([3], c);
  }

  /** An empty first page stops the run with no products. */
  lemma EmptyFirstPageExample(outcome: int -> PageOutcome, maxPages: int)
    requires maxPages >= 1 && outcome(1) == PageOk([])
    ensures RunFrom(outcome, 1, maxPages) == Run([1], [])
  {
  }

  /** A failing page is skipped: the next page is still requested. */
  lemma ErrorPageExample(outcome: int -> PageOutcome, cause: string, b: seq<Product>)
    requires outcome(1) == PageError(cause) && outcome(2) == PageOk(b) && 0 < |b| < FullPage
    ensures RunFrom(outcome, 1, 3) == Run([1, 2], b)
  {
    assert RunFrom(outcome, 2, 3) == Run([2], b);
  }
}
