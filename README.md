# Tayara.tn scraper: a Dafny model of its core

`api.py` runs a small FastAPI service that scrapes the Tunisian classifieds
site Tayara.tn with a headless browser. This project models the service's
core in Dafny and proves properties of that model:

- `TayaraScraper.build_url`: how search filters and a page number become a
  listing URL. The URL has the form
  `https://www.tayara.tn/ads/<segments>/[?<params>]`.
- `TayaraScraper.scrape_products`: the pagination loop over listing pages,
  with its early stops.
- The field rules of `extract_product_info` (listing cards) and
  `get_product_page_info` (product pages). They cover the title, price,
  location and date, product URL, description, seller, delivery flag and
  phone number. Each rule is modelled as the code has it, including its odd
  corners:
  - a card without a title element is kept as "No title";
  - a listing location only takes the second comma piece as the date;
  - a product page's location text without a comma raises;
  - `description` is bound only when a price element exists;
  - the second "show number" button is clicked whenever any button exists.
- The two input checks of the `/search` and `/product` endpoints, and how
  each endpoint turns the scraper's result into its response.

The browser is not modelled. What the DOM queries return is given as data:
`Listing.Card` for a listing card and `Detail.DetailDom` for a product page.
What scraping one listing URL gives is a function parameter
`scrape: string -> PageOutcome`. `urllib.parse.quote` is an uninterpreted
`quote: string -> string`.

Files:

- `wrappers.dfy`: `Option` and `Result`.
- `products.dfy`: the `Product` record.
- `text.dfy`: the Python string operations used, over `seq<char>`.
  - `strip`, `split`, `join`, `startswith` and `lower`;
  - `re.sub(r'\s+', ' ', …)`, and the first match of `re.search(r'^(.*?)Tel:', …, re.DOTALL)`;
  - `str(int)`, with a parser that inverts it.
- `fields.dfy`: the per-field extraction rules.
- `url_builder.dfy`: `build_url`, written as methods over local lists.
  It is proved against the function `UrlOf`.
- `listing.dfy`: card extraction and the per-page card loop.
- `detail.dfy`: the product page.
- `pagination.dfy`: the `scrape_products` loop. It is proved against the
  function `RunFrom`.
- `api.dfy`: the endpoints.

## Model

| member | source | states |
|---|---|---|
| Text.StripMeetsSpec | api.py:244 | `Text.Strip`, the model of `strip()`, returns what remains after cutting whitespace-only ends, and the result is itself trimmed |
| Text.StripUnique | api.py:244 | exactly one string meets that description |
| Text.StripIdempotent | api.py:273 | an algebraic fact about the `strip()` model, not a step of the program: stripping twice gives the same as stripping once |
| Text.StripEmptyIff | api.py:271 | `title.strip()` is falsy exactly when the title is all whitespace |
| Text.StripPadded | api.py:256-257 | a trimmed core surrounded by whitespace strips to exactly that core |
| Text.StripKeepsText | api.py:356 | stripping removes whitespace and nothing else |
| Text.Find | api.py:354 | the index of the first occurrence of the pattern, or none when it never occurs |
| Text.FindAfterPrefix | api.py:354 | a pattern whose first character is absent from `p` is first found right after `p` |
| Text.Split | api.py:254 | `split(',')` gives at least one piece, and no piece contains the separator |
| Text.JoinSplit | api.py:254 | joining the pieces of a split with the separator gives back the text (`Text.Join` is `sep.join`) |
| Text.SplitNoSeparator | api.py:258-259 | text without the separator splits into itself alone |
| Text.SplitAtFirst | api.py:254-257 | the first piece is the text before the first separator, and the rest is the split of what follows it |
| Text.SplitSeveralIff | api.py:255 | `len(parts) >= 2` exactly when the separator occurs |
| Text.SplitJoin | api.py:96 | splitting an `&`-join of pieces that contain no `&` gives back the pieces |
| Text.JoinAvoids | api.py:84 | a character absent from the separator and from every piece is absent from their join |
| Text.JoinSnoc | api.py:96 | joining one more piece appends the separator and the piece |
| Text.CollapseSpaces | api.py:358 | `re.sub(r'\s+', ' ', s)` is empty exactly when `s` is |
| Text.CollapseKeepsText | api.py:358 | collapsing keeps every non-whitespace character, in order, and adds none |
| Text.CollapseSingleSpaces | api.py:358 | after collapsing, the only whitespace is single plain spaces |
| Text.CollapseSingleSpaced | api.py:358 | text that is already single-spaced is left unchanged |
| Text.CollapseIdempotent | api.py:358 | an algebraic fact about the `re.sub` model, not a step of the program: collapsing twice gives the same as collapsing once |
| Text.CollapseEnds | api.py:358 | the result starts or ends with whitespace exactly when the input does |
| Text.CollapseKeepsTrimmed | api.py:356-358 | collapsing a stripped string leaves it stripped |
| Text.CollapseGap | api.py:358 | a whole run of whitespace, of any length and any whitespace characters, followed by a non-space character or by nothing, becomes exactly one space |
| Text.CollapseJoinsWords | api.py:358 | text without surrounding whitespace collapses to its words (`Text.Words`, the model of `s.split()`) joined by single spaces |
| Text.WordsOfStrip | api.py:356 | surrounding whitespace does not change the words |
| Text.CollapseStripJoinsWords | api.py:356-358 | stripping and then collapsing is `" ".join(s.split())` |
| Text.Digits | api.py:89 | the digits of a natural number: non-empty, all decimal digits, and starting with '0' only for zero |
| Text.DecimalChars | api.py:89 | `str(n)` starts with a minus sign or a digit, every later character is a digit, the sign is there exactly when `n < 0`, and there is no leading zero |
| Text.DecimalRoundTrip | api.py:89 | `str(n)` is an optional minus sign followed by digits, and `int(str(n)) == n` |
| Text.DecimalOfParse | api.py:89 | every such string without a leading zero is `str` of its value, so `str(n)` is the only one that parses to `n` |
| Text.DecimalInjective | api.py:93 | distinct integers print differently |
| Fields.PriceOf | api.py:237-244 | a non-empty `value` attribute gives "<value> DT"; otherwise non-empty text gives the stripped text; otherwise there is no price; no element means no price |
| Fields.PriceFromValueExample | api.py:241-242 | `value="150"` gives "150 DT" |
| Fields.ListingLocationWithComma | api.py:254-257 | `Fields.ListingLocation` of "a,b": the location is `a` stripped, and the date is the part of `b` before any further comma, stripped |
| Fields.ListingLocationWithoutComma | api.py:258-259 | text without a comma is all location, stripped, with no date |
| Fields.ListingLocationPresence | api.py:250-259 | a location exists exactly when the text is non-empty; a date exists exactly when the text also contains a comma |
| Fields.ListingLocationExample | api.py:252-257 | "Tunis, 2 days ago" gives location "Tunis" and date "2 days ago" |
| Fields.DetailLocationAgreesWithListing | api.py:366-371 | `Fields.DetailLocation` fails exactly on non-empty text without a comma; otherwise it agrees with the listing split |
| Fields.AbsoluteUrl | api.py:267-268 | a non-empty href that does not start with "http" gets the site origin prepended; an empty or absolute one is kept; a missing one stays missing |
| Fields.AbsoluteUrlIdempotent | api.py:268 | an algebraic fact about the prefix rule, not a step of the program: prefixing twice gives the same as prefixing once |
| Fields.ListingTitleRule | api.py:271-281 | `Fields.ListingTitle`: a card is dropped exactly when its title element holds only whitespace; a kept title is non-empty and is the element text stripped; a card without a title element (line 232) is kept as "No title" |
| Fields.DetailTitleRule | api.py:323-328 | `Fields.DetailTitle`: a product page always has a non-empty trimmed title, the stripped text if it is not blank, else "No title" |
| Fields.TitlesAgree | api.py:323-328 | the page title and the card title agree, except for a blank title: the card is dropped, the page says "No title" |
| Fields.SellerName | api.py:331-336 | the seller is the stripped text; it is absent exactly when the text is missing or blank |
| Fields.DescriptionCutAtMarker | api.py:354-358 | with "Tel:" present, `Fields.Description` is the words before its first occurrence joined by single spaces (`" ".join(prefix.split())`); so it keeps the non-space text before the marker, is trimmed and is single-spaced |
| Fields.DescriptionWithoutMarker | api.py:359-360 | without "Tel:", the description is the whole text stripped |
| Fields.DescriptionExample | api.py:354-358 | "Great phone. Tel: 12345678 extra" gives "Great phone." |
| Fields.DescriptionRunExample | api.py:354-358 | "a \t b Tel:" gives "a b": the inner run of whitespace becomes one space |
| Fields.DeliveryIff | api.py:375-384 | `Fields.DeliveryAvailable` holds exactly when the stripped status text is o, u, i, in any case |
| Fields.LowerIsOui | api.py:383-384 | `lower()` gives "oui" exactly for the eight case variants of "oui" |
| Fields.DeliveryExample | api.py:383-384 | "Oui" means available, and "Non" does not |
| Fields.SellerContactRule | api.py:387-401 | `Fields.SellerContact`: a contact is found exactly with two or more buttons and a revealed link; it is the link text after its first four characters, stripped, or "" for a shorter text |
| Listing.RelativeUrl | api.py:266-267 | a missing link reads as "", a link without `href` as None, and an `href` as it is |
| Listing.ExtractCardRule | api.py:229-285 | `Listing.ExtractCard` yields a product exactly when the card is kept (readable, non-blank title, and an href if it has a link). The product has the card's `ListingTitle`, its price, location and date rules, its image, its href made absolute ("" without a link), and empty product-page-only fields |
| Listing.Outcomes | api.py:146-153 | one extraction result per card, in card order |
| Listing.ExtractListingPage | api.py:146-153 | the loop returns the products of the cards that yield one, in card order |
| Listing.OutcomesAppend | api.py:146-153 | each card's outcome stays at its place when runs of cards are concatenated |
| Listing.ExtractAllAppend | api.py:146-153 | extracting consecutive runs of cards concatenates their products |
| Listing.ExtractAllExactlyKept | api.py:146-153 | every product comes from some card and every kept card's product is there; there are never more products than cards, and as many exactly when every card is kept |
| Listing.ExtractAllCount | api.py:146-153 | the number of products equals the number of kept cards |
| Listing.KeptThenDropped | api.py:146-153 | N kept cards followed by M dropped ones give exactly N products |
| Listing.PageProductsWellFormed | api.py:271-278 | every product on a listing page has a non-empty, stripped title and an empty or absolute URL |
| Detail.ExtractDetailFailsIff | api.py:363-417 | `Detail.ExtractDetail` on a loaded page fails exactly when the location text is non-empty without a comma, or there is no price element, or there is no description paragraph; the location error comes first |
| Detail.ExtractDetailProduct | api.py:322-420 | a product read from a page has the requested URL and a non-blank stripped title (`DetailTitle`). Its price follows the price rule, and its description, location and date follow their rules. Its seller and contact are `SellerName` and `SellerContact` (a contact only with two or more buttons). Its delivery follows the delivery rule, and its image is the `img` src |
| UrlBuilder.BuildUrl | api.py:48-98 | the method returns `UrlOf` of its filters and page, the URL that the lemmas below describe |
| UrlBuilder.CollectPathSegments | api.py:61-81 | the list built by the five `if value: append` steps is the rendering of `PathSegments` |
| UrlBuilder.AppendSegment | api.py:64-81 | one step grows the list by the slot's rendered segment exactly when the slot's value is truthy |
| UrlBuilder.CollectParams | api.py:86-93 | the list built by the three `if` steps is the rendering of `Params` |
| UrlBuilder.AppendParam | api.py:88-93 | one `append(f"{name}={value}")` adds the rendered parameter |
| UrlBuilder.PathIgnoresPrices | api.py:61-81 | the path depends on the five path slots only |
| UrlBuilder.ParamsIgnorePath | api.py:86-93 | the query parameters depend only on the price bounds and the page |
| UrlBuilder.PathSegmentsRule | api.py:64-81 | there is one segment per truthy slot, carrying that slot's value, in the order category, subcategory, city, condition, query |
| UrlBuilder.ParamsRule | api.py:87-93 | `minPrice` appears exactly when a minimum is given (0 included), `maxPrice` likewise, and `page` exactly when the page is truthy; they come in that order, each with its own value |
| UrlBuilder.ParamRoundTrip | api.py:89-93 | a rendered parameter is its name, "=", and a decimal that parses back to its value |
| UrlBuilder.RenderedParamsAvoid | api.py:89-93 | no rendered parameter contains `&` or `?` |
| UrlBuilder.UrlStartsWithPath | api.py:84-96 | the URL starts with the base URL and "/", then the joined path, which ends with "/"; the URL is the bare path exactly when there are no parameters |
| UrlBuilder.UrlEndsWithSlashIff | api.py:84-96 | the URL ends with "/" exactly when it has no query parameters; otherwise it ends with a digit |
| UrlBuilder.PathAvoidsQuestionMark | api.py:84 | when `quote` escapes `?`, the path part contains no `?` |
| UrlBuilder.UrlQueryParses | api.py:95-96 | `?` appears exactly when some parameter does; what follows the first `?`, split on `&`, gives back the rendered parameters in order |
| UrlBuilder.ParamsWithPage | api.py:92-93 | a truthy page adds `page=<n>` after the price bounds |
| UrlBuilder.PagedUrl | api.py:92-96 | with a truthy page, the URL is a stem common to all pages followed by the page number |
| UrlBuilder.PagedUrlsDiffer | api.py:183-192 | distinct page numbers give distinct URLs |
| Pagination.ScrapeProducts | api.py:164-224 | the loop requests exactly the pages of `RunFrom` from page 1 and gathers that run's products; it reports success with their count (`RunFrom` is described by RunPages, RunProducts and RunStops) |
| Pagination.RunPages | api.py:178-218 | the pages requested are consecutive from the first one with no gap or repeat, an error included; none is past `max_pages`; none is requested when the first page is already past it |
| Pagination.RunProducts | api.py:203 | the products gathered are those of the requested pages, in page order |
| Pagination.RunStops | api.py:199-210 | every requested page except the last is an error or a full page; the last is `max_pages` or a page with fewer than 30 products |
| Pagination.ThreePagesExample | api.py:180-210 | pages of 30, 30 and 12 products give 72 products in three requests, whether `max_pages` is 3 or 50 |
| Pagination.EmptyFirstPageExample | api.py:199-201 | an empty first page ends the run with no products |
| Pagination.ErrorPageExample | api.py:215-218 | a failing first page is skipped and the second page is still read |
| Api.CheckPriceRange | api.py:464-465 | a 400 error exactly when both bounds are given and the minimum exceeds the maximum |
| Api.CheckProductUrl | api.py:505-506 | a 400 error exactly when the URL does not start with "https://www.tayara.tn/" |
| Api.Search | api.py:444-490 | an inverted price range is a 400 error; otherwise the response is successful and carries the run's products and their count |
| Api.ProductLookup | api.py:492-530 | a foreign URL is a 400 error. Otherwise the response is successful exactly when the page yields a product, and then it carries that product. A failure gives the placeholder product with the requested URL and the wrapped error message |
| Api.ListingLinksAreAccepted | api.py:505-506 | a site-relative link from a listing card, made absolute, passes the product endpoint's URL check |

## Left out

- The browser is not modelled: Playwright, the browser launch, user agent, navigation, timeouts and `asyncio.sleep`. DOM reads are data, and the per-page scrape of a listing URL is a function parameter.
- `scrape_products_per_page` (api.py:100-162) is modelled only in its card loop (api.py:146-153). Waiting for `article` elements and its own error handling are part of the abstract per-page outcome. A page without any card times out there, so it shows up as an error outcome.
- The `except Exception` branch of `/search` (api.py:483-490) has no counterpart: in this model the scrape cannot raise past its per-page handler.
- `urllib.parse.quote` is uninterpreted. The only property assumed about it is that it escapes `?` (`QuoteEscapesQuestionMark`), and only where a lemma says so.
- Text.Lower: only ASCII letters are lower-cased. No other character lower-cases to a single `o`, `u` or `i`, so the delivery rule is unaffected.
- Text.CollapseSpaces models `re.sub(r'\s+', ' ', …)` directly; no regex engine is modelled. Likewise `re.search(r'^(.*?)Tel:', …, re.DOTALL)` is modelled as the first occurrence of "Tel:" (`Text.Find`).
- Api.ErrorMessage: the text of the `UnboundLocalError` and `IndexError` messages is that of CPython 3.11 and later. Other Python versions word the unbound-variable message differently.
- `text_content()` returning None for the location (api.py:367), delivery status (api.py:381) and phone link (api.py:397) is modelled as a missing text (`None`), the same as a missing element; the code tests each of these for truthiness. The description paragraph's text (api.py:352) goes straight into `re.search` and is taken as never None: an element's `textContent` is never null.
- Pagination.ScrapeProducts: the list of requested pages is a ghost out-parameter. The source only logs them.
- FastAPI and pydantic plumbing is left out: the query-parameter bounds (`ge=0`, `max_pages` between 1 and 50), response validation, the `/` and `/health` endpoints, the 404 and 500 handlers and logging. `Search` accepts any `maxPages`, and for values below 1 it returns no products.
- The image URL is the first `img` element's `src`, taken as it is; it needs no rule of its own.
