/**
 * Product pages: `get_product_page_info` (api.py:287-426) reads one page and
 * assembles a product from the field rules, or fails with the error the code
 * raises.
 */
module Detail {
  import opened Wrappers
  import opened Text
  import opened Fields
  import opened Products

  /** What the DOM reads of a loaded product page return. */
  datatype DetailDom = DetailDom(
    titleText: Option<string>,       // inner text of the title span, None when missing
    sellerText: Option<string>,      // inner text of the seller span, None when missing
    price: Option<PriceElement>,     // the `<data>` element
    descriptionText: Option<string>, // text content of the description paragraph, None when missing
    locationText: Option<string>,    // text content of the location span, None when missing or null
    deliveryStatus: Option<string>,  // text content of the delivery status span, None when missing or null
    revealButtons: nat,              // how many "Afficher numéro" buttons the page has
    phone: PhoneReveal,              // what clicking the second of them produced
    imageSrc: Option<string>)        // `src` of the first `<img>`, None when either is missing

  /**
   * A product page: `PageUnreachable` when navigation or the wait for `body`
   * failed, or when any later DOM read raised (its message is the cause);
   * otherwise what the loaded page's reads returned.
   */
  datatype DetailPage = PageUnreachable(cause: string) | Loaded(dom: DetailDom)

  /**
   * api.py:349-360: `description` is assigned only inside the `if price_elem:`
   * block, and there only when the description paragraph exists.
   */
  function AssignedDescription(dom: DetailDom): Option<string> {
    if dom.price.Some? && dom.descriptionText.Some? then Some(Description(dom.descriptionText.value)) else None
  }

  /**
   * api.py:316-417, in the order the code runs: navigation, the location split
   * (which raises on text without a comma), and finally the record, whose
   * `description` argument raises when it was never assigned. The contact
   * lookup swallows its own errors.
   */
  function ExtractDetail(url: string, page: DetailPage): Result<Product, DetailError> {
    match page
    case PageUnreachable(cause) => Failure(NavigationFailed(cause))
    case Loaded(dom) =>
      var place := DetailLocation(dom.locationText);
      if place.Failure? then Failure(place.error)
      else
        var description := AssignedDescription(dom);
        if description.None? then Failure(DescriptionUnbound)
        else
          Success(Product(
            DetailTitle(dom.titleText), PriceOf(dom.price), place.value.location, place.value.datePosted,
            dom.imageSrc, url, description, SellerName(dom.sellerText),
            SellerContact(dom.revealButtons, dom.phone), DeliveryAvailable(dom.deliveryStatus)))
  }

  /**
   * A loaded page fails exactly when its location text is non-empty without a
   * comma, or it has no price element, or no description paragraph; the
   * location error wins when both apply.
   */
  lemma ExtractDetailFailsIff(url: string, dom: DetailDom)
    ensures ExtractDetail(url, Loaded(dom)).Failure? <==>
      (Truthy(dom.locationText) && ',' !in dom.locationText.value)
      || dom.price.None? || dom.descriptionText.None?
    ensures ExtractDetail(url, Loaded(dom)) == Failure(LocationIndexError) <==>
      Truthy(dom.locationText) && ',' !in dom.locationText.value
    ensures ExtractDetail(url, Loaded(dom)) == Failure(DescriptionUnbound) <==>
      !(Truthy(dom.locationText) && ',' !in dom.locationText.value)
      && (dom.price.None? || dom.descriptionText.None?)
  {
    DetailLocationAgreesWithListing(dom.locationText);
  }

  /**
   * A product read from a page carries the requested URL, the page's title
   * rule (always a non-blank stripped title), the price rule of an existing
   * price element, the description, the listing's location and date rule, the
   * seller and contact rules (a contact only when two or more reveal buttons
   * exist), the delivery rule and the image's `src`.
   */
  lemma ExtractDetailProduct(url: string, dom: DetailDom)
    requires ExtractDetail(url, Loaded(dom)).Success?
    ensures var p := ExtractDetail(url, Loaded(dom)).value;
      && p.productUrl == url
      && p.title == DetailTitle(dom.titleText)
      && p.title != [] && Trimmed(p.title)
      && p.sellerName == SellerName(dom.sellerText)
      && p.sellerContact == SellerContact(dom.revealButtons, dom.phone)
      && p.imageUrl == dom.imageSrc
      && dom.price.Some? && p.price == PriceOf(dom.price)
      && p.description == Some(Description(dom.descriptionText.value))
      && p.location == ListingLocation(dom.locationText).location
      && p.datePosted == ListingLocation(dom.locationText).datePosted
      && (Truthy(dom.locationText) ==> p.datePosted.Some?)
      && (p.sellerContact.Some? ==> dom.revealButtons >= 2)
      && (p.isDeliveryAvailable <==> DeliveryAvailable(dom.deliveryStatus))
  {
    DetailTitleRule(dom.titleText);
    DetailLocationAgreesWithListing(dom.locationText);
    ListingLocationPresence(dom.locationText);
    SellerContactRule(dom.revealButtons, dom.phone);
  }
}
