/**
 * Listing pages: `extract_product_info` (api.py:226-285) turns one `<article>`
 * card into a product or nothing, and `scrape_products_per_page`
 * (api.py:146-153) keeps, in order, the products of the cards that yield one.
 */
module Listing {
  import opened Wrappers
  import opened Text
  import opened Fields
  import opened Products

  /** The card's `<a>` element: missing, present without `href`, or present with one. */
  datatype Link = NoLink | LinkWithoutHref | Link(href: string)

  /** What the DOM reads of one card return. */
  datatype Card =
    | UnreadableCard  // a read raised; the handler at api.py:283-285 returns None
    | Card(
        titleText: Option<string>,      // inner text of `h2.card-title`, None when missing
        price: Option<PriceElement>,    // the `<data>` element
        locationText: Option<string>,   // inner text of the location span, None when missing
        imageSrc: Option<string>,       // `src` of the `<img>`, None when either is missing
        link: Link)

  /** api.py:266-267: a missing link reads as "", a link without `href` as None, an `href` as it is. */
  function RelativeUrl(link: Link): (r: Option<string>)
    ensures r.None? <==> link.LinkWithoutHref?
    ensures link.NoLink? ==> r == Some("")
    ensures link.Link? ==> r == Some(link.href)
  {
    match link
    case NoLink => Some("")
    case LinkWithoutHref => None
    case Link(h) => Some(h)
  }

  /**
   * api.py:229-281. The record is built only when the title is non-blank;
   * building it with a `None` product URL fails validation, which the handler
   * turns into None as well.
   */
  function ExtractCard(card: Card): Option<Product> {
    match card
    case UnreadableCard => None
    case Card(titleText, price, locationText, imageSrc, link) =>
      var title := ListingTitle(titleText);
      var url := AbsoluteUrl(RelativeUrl(link));
      var place := ListingLocation(locationText);
      if title.Some? && url.Some? then
        Some(Product(title.value, PriceOf(price), place.location, place.datePosted, imageSrc, url.value,
                     None, None, None, false))
      else None
  }

  /** A card is kept exactly when it was readable, its title is not blank, and its link (if any) has an `href`. */
  predicate Keeps(card: Card) {
    card.Card? && !(card.titleText.Some? && AllSpace(card.titleText.value)) && !card.link.LinkWithoutHref?
  }

  /**
   * Which cards yield a product, and what every kept product looks like: the
   * card's title rule (a non-blank stripped title, "No title" without a title
   * element), its price, location and date rules, its `href` made absolute (""
   * without a link), and the product-page-only fields empty.
   */
  lemma ExtractCardRule(card: Card)
    ensures ExtractCard(card).Some? <==> Keeps(card)
    ensures ExtractCard(card).Some? ==>
      var p := ExtractCard(card).value;
      && Some(p.title) == ListingTitle(card.titleText)
      && p.title != [] && Trimmed(p.title)
      && (card.titleText.None? ==> p.title == NoTitle)
      && (card.link.Link? ==> Some(p.productUrl) == AbsoluteUrl(Some(card.link.href)))
      && (card.link.NoLink? ==> p.productUrl == "")
      && p.price == PriceOf(card.price)
      && p.location == ListingLocation(card.locationText).location
      && p.datePosted == ListingLocation(card.locationText).datePosted
      && p.imageUrl == card.imageSrc
      && (p.productUrl == "" <==> card.link.NoLink? || card.link == Link(""))
      && (p.productUrl != "" ==> StartsWith(p.productUrl, "http"))
      && p.description.None? && p.sellerName.None? && p.sellerContact.None? && !p.isDeliveryAvailable
  {
    if card.Card? {
      ListingTitleRule(card.titleText);
      var url := AbsoluteUrl(RelativeUrl(card.link));
      if card.link.Link? && card.link.href != "" && !StartsWith(card.link.href, "http") {
        assert |url.value| > |SiteOrigin|;
      }
    }
  }

  /** What extraction returns for each card, in card order. */
  function Outcomes(cards: seq<Card>): (r: seq<Option<Product>>)
    ensures |r| == |cards|
    ensures forall i :: 0 <= i < |cards| ==> r[i] == ExtractCard(cards[i])
  {
    if cards == [] then [] else [ExtractCard(cards[0])] + Outcomes(cards[1..])
  }

  /** The present values of a sequence of options, in order. */
  function KeepSome<T>(xs: seq<Option<T>>): seq<T> {
    if xs == [] then []
    else if xs[0].Some? then [xs[0].value] + KeepSome(xs[1..])
    else KeepSome(xs[1..])
  }

  /** The products of a page: each card's, in card order, skipping cards that yield none. */
  function ExtractAll(cards: seq<Card>): seq<Product> {
    KeepSome(Outcomes(cards))
  }

  lemma {:induction false} KeepSomeAppend<T>(xs: seq<Option<T>>, ys: seq<Option<T>>)
    ensures KeepSome(xs + ys) == KeepSome(xs) + KeepSome(ys)
  {
    if xs == [] {
      assert xs + ys == ys;
    } else {
      assert (xs + ys)[0] == xs[0] && (xs + ys)[1..] == xs[1..] + ys;
      KeepSomeAppend(xs[1..], ys);
    }
  }

  /** Each card's outcome stays at its place when runs of cards are concatenated. */
  lemma OutcomesAppend(a: seq<Card>, b: seq<Card>)
    ensures Outcomes(a + b) == Outcomes(a) + Outcomes(b)
  {
    var o := Outcomes(a) + Outcomes(b);
    forall i | 0 <= i < |a + b|
      ensures Outcomes(a + b)[i] == o[i]
    {
      if i < |a| {
        assert (a + b)[i] == a[i];
      } else {
        assert (a + b)[i] == b[i - |a|];
      }
    }
  }

  /** Extraction of consecutive runs of cards concatenates. */
  lemma ExtractAllAppend(a: seq<Card>, b: seq<Card>)
    ensures ExtractAll(a + b) == ExtractAll(a) + ExtractAll(b)
  {
    OutcomesAppend(a, b);
    KeepSomeAppend(Outcomes(a), Outcomes(b));
  }

  /**
   * api.py:146-153: visit the cards in order and append each product that
   * extraction returns; a card whose extraction yields nothing is skipped.
   */
  method ExtractListingPage(cards: seq<Card>) returns (products: seq<Product>)
    ensures products == ExtractAll(cards)
  {
    products := [];
    var i := 0;
    while i < |cards|
      invariant 0 <= i <= |cards|
      invariant products == ExtractAll(cards[..i])
    {
      var productData := ExtractCard(cards[i]);
      ExtractAllAppend(cards[..i], [cards[i]]);
      assert cards[..i + 1] == cards[..i] + [cards[i]];
      if productData.Some? {
        products := products + [productData.value];
      }
      i := i + 1;
    }
    assert cards[..i] == cards;
  }

  /** The present values: never more than the options, all of them exactly when every option is present. */
  lemma {:induction false} KeepSomeRule<T>(xs: seq<Option<T>>)
    ensures |KeepSome(xs)| <= |xs|
    ensures |KeepSome(xs)| == |xs| <==> forall i :: 0 <= i < |xs| ==> xs[i].Some?
    ensures forall v :: v in KeepSome(xs) <==> Some(v) in xs
  {
    if xs != [] {
      KeepSomeRule(xs[1..]);
      assert xs == [xs[0]] + xs[1..];
      if forall i :: 0 <= i < |xs| ==> xs[i].Some? {
        forall i | 0 <= i < |xs[1..]| ensures xs[1..][i].Some? {
          assert xs[1..][i] == xs[i + 1];
        }
      }
      if xs[0].Some? && !(forall i :: 0 <= i < |xs[1..]| ==> xs[1..][i].Some?) {
        var i :| 0 <= i < |xs[1..]| && !xs[1..][i].Some?;
        assert !xs[i + 1].Some?;
      }
    }
  }

  /** How many of the cards are kept. */
  function KeptCount(cards: seq<Card>): nat {
    if cards == [] then 0 else (if Keeps(cards[0]) then 1 else 0) + KeptCount(cards[1..])
  }

  /** A page yields exactly one product per kept card. */
  lemma {:induction false} ExtractAllCount(cards: seq<Card>)
    ensures |ExtractAll(cards)| == KeptCount(cards)
  {
    if cards != [] {
      ExtractAllCount(cards[1..]);
      ExtractCardRule(cards[0]);
      var o := Outcomes(cards);
      assert o[0] == ExtractCard(cards[0]) && o[1..] == Outcomes(cards[1..]);
    }
  }

  /** Cards none of which is kept are not counted. */
  lemma {:induction false} NoneKept(cards: seq<Card>)
    requires forall i :: 0 <= i < |cards| ==> !Keeps(cards[i])
    ensures KeptCount(cards) == 0
  {
    if cards != [] {
      assert !Keeps(cards[0]);
      assert forall i :: 0 <= i < |cards[1..]| ==> cards[1..][i] == cards[i + 1];
      NoneKept(cards[1..]);
    }
  }

  /** N cards that are kept followed by M that are not give exactly N products. */
  lemma KeptThenDropped(kept: seq<Card>, dropped: seq<Card>)
    requires forall i :: 0 <= i < |kept| ==> Keeps(kept[i])
    requires forall i :: 0 <= i < |dropped| ==> !Keeps(dropped[i])
    ensures |ExtractAll(kept + dropped)| == |kept|
  {
    ExtractAllAppend(kept, dropped);
    ExtractAllExactlyKept(kept);
    ExtractAllCount(dropped);
    NoneKept(dropped);
  }

  /**
   * Every product on a page came from a kept card and every kept card's
   * product is there; the count is `ExtractAllCount`.
   */
  lemma ExtractAllExactlyKept(cards: seq<Card>)
    ensures |ExtractAll(cards)| <= |cards|
    ensures |ExtractAll(cards)| == |cards| <==> forall i :: 0 <= i < |cards| ==> Keeps(cards[i])
    ensures forall p :: p in ExtractAll(cards) <==> exists i :: 0 <= i < |cards| && ExtractCard(cards[i]) == Some(p)
  {
    ExtractAllCount(cards);
    var outcomes := Outcomes(cards);
    KeepSomeRule(outcomes);
    forall i | 0 <= i < |cards|
      ensures outcomes[i].Some? <==> Keeps(cards[i])
    {
      ExtractKeeps(cards[i]);
    }
    OutcomeMembers(cards);
  }

  lemma ExtractKeeps(card: Card)
    ensures ExtractCard(card).Some? <==> Keeps(card)
  {
    ExtractCardRule(card);
  }

  /** A product is among the outcomes exactly when some card yields it. */
  lemma OutcomeMembers(cards: seq<Card>)
    ensures forall p :: Some(p) in Outcomes(cards) <==> exists i :: 0 <= i < |cards| && ExtractCard(cards[i]) == Some(p)
  {
    var outcomes := Outcomes(cards);
    forall p
      ensures Some(p) in outcomes <==> exists i :: 0 <= i < |cards| && ExtractCard(cards[i]) == Some(p)
    {
      if Some(p) in outcomes {
        var i :| 0 <= i < |outcomes| && outcomes[i] == Some(p);
      }
    }
  }

  /** Every product a listing page yields has a non-blank, stripped title and an empty or absolute URL. */
  lemma PageProductsWellFormed(cards: seq<Card>)
    ensures forall p :: p in ExtractAll(cards) ==>
      p.title != [] && Trimmed(p.title) && (p.productUrl == "" || StartsWith(p.productUrl, "http"))
  {
    ExtractAllExactlyKept(cards);
    forall p | p in ExtractAll(cards)
      ensures p.title != [] && Trimmed(p.title) && (p.productUrl == "" || StartsWith(p.productUrl, "http"))
    {
      var i :| 0 <= i < |cards| && ExtractCard(cards[i]) == Some(p);
      ExtractCardRule(cards[i]);
    }
  }
}
