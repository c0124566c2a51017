/** The one record the scraper produces (api.py:19-29). */
module Products {
  import opened Wrappers

  /**
   * A product listing or product page. `title` and `productUrl` are required
   * strings; every other field is best-effort and may be absent.
   */
  datatype Product = Product(
    title: string,
    price: Option<string>,
    location: Option<string>,
    datePosted: Option<string>,
    imageUrl: Option<string>,
    productUrl: string,
    description: Option<string>,
    sellerName: Option<string>,
    sellerContact: Option<string>,
    isDeliveryAvailable: bool)
}
