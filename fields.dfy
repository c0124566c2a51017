/**
 * The per-field derivation rules of the listing and detail extractors
 * (api.py:226-420). Every DOM read is an input here: an absent element is
 * `None`, an element's text is a string.
 */
module Fields {
  import opened Wrappers
  import opened Text

  /** The site's origin, prefixed to relative links (api.py:268). */
  const SiteOrigin: string := "https://www.tayara.tn"

  /** Appended to a numeric price attribute (api.py:242, 344). */
  const CurrencySuffix: string := " DT"

  /** The title used when no title element is found (api.py:232, 323). */
  const NoTitle: string := "No title"

  /** The marker before which a description is cut (api.py:354). */
  const TelMarker: string := "Tel:"

  // --------------------------------------------------------------------- price

  /** The `<data>` element that carries a price: its `value` attribute, if any, and its rendered text. */
  datatype PriceElement = PriceElement(valueAttr: Option<string>, text: string)

  /**
   * The price rule shared by listing cards (api.py:237-244) and product pages
   * (api.py:340-347): a non-empty `value` attribute wins and gets the currency
   * suffix; otherwise non-empty text is stripped; otherwise there is no price.
   */
  function PriceOf(elem: Option<PriceElement>): (price: Option<string>)
    ensures price.Some? ==> elem.Some?
    ensures elem.Some? && Truthy(elem.value.valueAttr) ==>
      price.Some? && StartsWith(price.value, elem.value.valueAttr.value)
      && price.value[|elem.value.valueAttr.value|..] == CurrencySuffix
    ensures elem.Some? && !Truthy(elem.value.valueAttr) ==>
      (price.Some? <==> elem.value.text != "") && (price.Some? ==> IsStripOf(price.value, elem.value.text))
  {
    match elem
    case None => None
    case Some(e) =>
      if Truthy(e.valueAttr) then Some(e.valueAttr.value + CurrencySuffix)
      else if e.text != "" then
        StripMeetsSpec(e.text);
        Some(Strip(e.text))
      else None
  }

  lemma PriceFromValueExample()
    ensures PriceOf(Some(PriceElement(Some("150"), "150 DT"))) == Some("150 DT")
  {
    assert "150" + CurrencySuffix == "150 DT";
  }

  // ------------------------------------------------------------ location, date

  /** A location and the date it was posted, as read from one composite text. */
  datatype LocationDate = LocationDate(location: Option<string>, datePosted: Option<string>)

  /**
   * Listing cards (api.py:250-259): non-empty text is split on ','; with at least
   * two pieces the first is the location and the second the date, otherwise the
   * whole text is the location.
   */
  function ListingLocation(text: Option<string>): LocationDate {
    if Truthy(text) then
      var parts := Split(text.value, ',');
      if |parts| >= 2 then LocationDate(Some(Strip(parts[0])), Some(Strip(parts[1])))
      else LocationDate(Some(Strip(text.value)), None)
    else
      LocationDate(None, None)
  }

  /**
   * Text "a,b" with no comma in `a`: the location is `a` stripped and the date
   * is the part of `b` before any further comma, stripped; whatever follows a
   * second comma is dropped.
   */
  lemma ListingLocationWithComma(a: string, b: string)
    requires ',' !in a
    ensures ListingLocation(Some(a + "," + b)) ==
      LocationDate(Some(Strip(a)), Some(Strip(Split(b, ',')[0])))
  {
    var text := a + "," + b;
    assert text == a + [','] + b;
    SplitAtFirst(a, ',', b);
    var rest := Split(b, ',');
    var parts := Split(text, ',');
    assert parts == [a] + rest;
    assert |parts| >= 2;
    assert parts[0] == a && parts[1] == rest[0];
    assert text != [];
  }

  /** Text without a comma is all location and no date. */
  lemma ListingLocationWithoutComma(text: string)
    requires text != [] && ',' !in text
    ensures ListingLocation(Some(text)) == LocationDate(Some(Strip(text)), None)
  {
    SplitNoSeparator(text, ',');
  }

  /** Absent or empty text gives neither a location nor a date; otherwise there is always a location. */
  lemma ListingLocationPresence(text: Option<string>)
    ensures ListingLocation(text).location.Some? <==> Truthy(text)
    ensures ListingLocation(text).datePosted.Some? <==> Truthy(text) && ',' in text.value
  {
    if Truthy(text) {
      SplitSeveralIff(text.value, ',');
    }
  }

  /** "Tunis, 2 days ago" gives location "Tunis" and date "2 days ago". */
  lemma ListingLocationExample(place: string, age: string)
    requires place == "Tunis" && age == " 2 days ago"
    ensures ListingLocation(Some(place + "," + age)) == LocationDate(Some("Tunis"), Some("2 days ago"))
  {
    ListingLocationWithComma(place, age);
    DateAlone(age);
    PlaceStripped(place);
    DateStripped(age);
  }

  // Facts about the literals of ListingLocationExample, one per lemma.
  // Each literal is a parameter pinned by `requires`, so the solver does not
  // unfold it alongside the example's other facts.

  /** "Tunis" has no surrounding whitespace. */
  lemma PlaceStripped(place: string)
    requires place == "Tunis"
    ensures Strip(place) == place
  {
    StripTrimmed(place);
  }

  /** " 2 days ago" holds no comma. */
  lemma DateAlone(age: string)
    requires age == " 2 days ago"
    ensures Split(age, ',') == [age]
  {
    SplitNoSeparator(age, ',');
  }

  /** " 2 days ago" strips to "2 days ago". */
  lemma DateStripped(age: string)
    requires age == " 2 days ago"
    ensures Strip(age) == "2 days ago"
  {
    assert age == " " + "2 days ago" + "";
    StripPadded(" ", "2 days ago", "");
  }

  /** Why a product page could not be turned into a product (api.py:422-424 wraps each one). */
  datatype DetailError =
    | NavigationFailed(cause: string)  // `goto`, the `body` wait or a later DOM read raised (api.py:317-320)
    | LocationIndexError               // `text_elems[1]` on text without a comma (api.py:371)
    | DescriptionUnbound               // `description` read at api.py:417 but never assigned

  /**
   * Product pages (api.py:363-371): non-empty text is split on ',' and the first
   * two pieces are taken with no length check, so text without a comma raises.
   */
  function DetailLocation(text: Option<string>): Result<LocationDate, DetailError> {
    if Truthy(text) then
      var parts := Split(text.value, ',');
      if |parts| >= 2 then Success(LocationDate(Some(Strip(parts[0])), Some(Strip(parts[1]))))
      else Failure(LocationIndexError)
    else
      Success(LocationDate(None, None))
  }

  /**
   * The product-page split fails exactly on non-empty text without a comma, and
   * where it succeeds it agrees with the listing split.
   */
  lemma DetailLocationAgreesWithListing(text: Option<string>)
    ensures DetailLocation(text).Failure? <==> Truthy(text) && ',' !in text.value
    ensures DetailLocation(text).Success? ==> DetailLocation(text).value == ListingLocation(text)
  {
    if Truthy(text) {
      SplitSeveralIff(text.value, ',');
    }
  }

  // --------------------------------------------------------------- product URL

  /**
   * api.py:266-268: a non-empty `href` that does not start with "http" is made
   * absolute with the site origin; anything else is kept as it is. A missing
   * `href` attribute stays missing.
   */
  function AbsoluteUrl(href: Option<string>): (url: Option<string>)
    ensures url.Some? <==> href.Some?
    ensures Truthy(href) ==> StartsWith(url.value, "http")
    ensures href.Some? && (href.value == "" || StartsWith(href.value, "http")) ==> url == href
    ensures href.Some? && href.value != "" && !StartsWith(href.value, "http") ==>
      StartsWith(url.value, SiteOrigin) && url.value[|SiteOrigin|..] == href.value
  {
    match href
    case None => None
    case Some(h) => if h != "" && !StartsWith(h, "http") then Some(SiteOrigin + h) else Some(h)
  }

  /** Making a URL absolute twice changes nothing more. */
  lemma AbsoluteUrlIdempotent(href: Option<string>)
    ensures AbsoluteUrl(AbsoluteUrl(href)) == AbsoluteUrl(href)
  {
    if Truthy(href) && !StartsWith(href.value, "http") {
      assert (SiteOrigin + href.value)[..4] == "http";
    }
  }

  // --------------------------------------------------------------------- title

  /**
   * Listing cards (api.py:231-232, 271-281): the title element's text, or
   * "No title" without one; the record is kept only when that title is
   * non-blank, and the stored title is stripped.
   */
  function ListingTitle(titleText: Option<string>): Option<string> {
    var title := if titleText.Some? then titleText.value else NoTitle;
    if title != "" && Strip(title) != "" then Some(Strip(title)) else None
  }

  /** "No title" is already stripped. */
  lemma NoTitleTrimmed(t: string)
    requires t == NoTitle
    ensures t != [] && Strip(t) == t
  {
    StripTrimmed(t);
  }

  /**
   * A card is dropped exactly when its title element exists and holds only
   * whitespace; a kept title is non-empty and is the element's text stripped,
   * and a card without a title element is kept as "No title".
   */
  lemma ListingTitleRule(titleText: Option<string>)
    ensures ListingTitle(titleText).None? <==> titleText.Some? && AllSpace(titleText.value)
    ensures ListingTitle(titleText).Some? ==>
      ListingTitle(titleText).value != [] && Trimmed(ListingTitle(titleText).value)
    ensures titleText.Some? && !AllSpace(titleText.value) ==>
      IsStripOf(ListingTitle(titleText).value, titleText.value)
    ensures titleText.None? ==> ListingTitle(titleText) == Some(NoTitle)
  {
    if titleText.None? {
      NoTitleTrimmed(NoTitle);
      assert Trimmed(NoTitle);
    } else {
      StripEmptyIff(titleText.value);
      StripMeetsSpec(titleText.value);
    }
  }

  /** Product pages (api.py:323-328): the stripped text when it is non-blank, else "No title". */
  function DetailTitle(titleText: Option<string>): string {
    if Truthy(titleText) && Strip(titleText.value) != "" then Strip(titleText.value) else NoTitle
  }

  /**
   * Where a listing card would keep a title taken from its element, the product
   * page derives the same title; where the card has no title element both say
   * "No title"; only a blank title differs (dropped card, "No title" page).
   */
  lemma TitlesAgree(titleText: Option<string>)
    ensures titleText.Some? && !AllSpace(titleText.value) ==> ListingTitle(titleText) == Some(DetailTitle(titleText))
    ensures titleText.None? ==> ListingTitle(titleText) == Some(DetailTitle(titleText))
    ensures titleText.Some? && AllSpace(titleText.value) ==> ListingTitle(titleText).None? && DetailTitle(titleText) == NoTitle
  {
    ListingTitleRule(titleText);
    if titleText.Some? {
      StripEmptyIff(titleText.value);
    }
  }

  /**
   * A product page always has a title: the stripped element text when that is
   * not blank, and "No title" when the element is missing or blank.
   */
  lemma DetailTitleRule(titleText: Option<string>)
    ensures DetailTitle(titleText) != [] && Trimmed(DetailTitle(titleText))
    ensures titleText.None? || AllSpace(titleText.value) ==> DetailTitle(titleText) == NoTitle
    ensures titleText.Some? && !AllSpace(titleText.value) ==> IsStripOf(DetailTitle(titleText), titleText.value)
  {
    if titleText.Some? {
      StripEmptyIff(titleText.value);
      StripMeetsSpec(titleText.value);
    }
    if DetailTitle(titleText) == NoTitle {
      NoTitleTrimmed(NoTitle);
      assert Trimmed(NoTitle);
    }
  }

  /** Product pages (api.py:331-336): the stripped seller name, absent when blank. */
  function SellerName(text: Option<string>): (name: Option<string>)
    ensures name.Some? ==> text.Some? && name.value != [] && IsStripOf(name.value, text.value)
    ensures name.None? <==> text.None? || AllSpace(text.value)
  {
    if Truthy(text) && |Strip(text.value)| > 0 then
      StripMeetsSpec(text.value);
      Some(Strip(text.value))
    else if text.Some? then
      StripEmptyIff(text.value);
      None
    else
      None
  }

  // --------------------------------------------------------------- description

  /**
   * api.py:352-360: the text before the first "Tel:", stripped, with every run
   * of whitespace made a single space; without the marker, the whole text
   * stripped (and not collapsed).
   */
  function Description(fullText: string): string {
    match Find(fullText, TelMarker)
    case Some(i) => CollapseSpaces(Strip(fullText[..i]))
    case None => Strip(fullText)
  }

  /**
   * With a "Tel:" marker, the description is the words before its first
   * occurrence joined by single spaces (`" ".join(prefix.split())`): the
   * non-space text before the marker and nothing after it, no surrounding
   * whitespace, and one space wherever the text had a run of whitespace.
   */
  lemma DescriptionCutAtMarker(fullText: string, i: nat)
    requires OccursAt(fullText, TelMarker, i)
    requires forall k: nat :: k < i ==> !OccursAt(fullText, TelMarker, k)
    ensures Description(fullText) == Join(" ", Words(fullText[..i]))
    ensures NonSpace(Description(fullText)) == NonSpace(fullText[..i])
    ensures Trimmed(Description(fullText)) && SingleSpaced(Description(fullText))
  {
    var r := Find(fullText, TelMarker);
    assert r.Some?;
    if r.value < i { assert false; }
    if i < r.value { assert false; }
    var pre := Strip(fullText[..i]);
    CollapseKeepsText(pre);
    StripKeepsText(fullText[..i]);
    CollapseSingleSpaces(pre);
    StripMeetsSpec(fullText[..i]);
    CollapseKeepsTrimmed(pre);
    CollapseStripJoinsWords(fullText[..i]);
  }

  /** Without a "Tel:" marker the description is the stripped text. */
  lemma DescriptionWithoutMarker(fullText: string)
    requires forall k: nat :: !OccursAt(fullText, TelMarker, k)
    ensures IsStripOf(Description(fullText), fullText)
  {
    StripMeetsSpec(fullText);
  }

  /** "Great phone. Tel: 12345678 extra" is cut before the marker: "Great phone.". */
  lemma DescriptionExample(before: string, after: string)
    requires before == "Great phone. " && after == " 12345678 extra"
    ensures Description(before + TelMarker + after) == "Great phone."
  {
    var fullText := before + TelMarker + after;
    FindAfterPrefix(before, TelMarker, after);
    assert fullText[..|before|] == before;
    assert before == "" + "Great phone." + " ";
    StripPadded("", "Great phone.", " ");
    SentenceSingleSpaced("Great phone.");
  }

  /** A run of whitespace inside the description becomes one space: "a \t b Tel:" gives "a b". */
  lemma DescriptionRunExample(before: string)
    requires before == "a \t b "
    ensures Description(before + TelMarker) == "a b"
  {
    FindAfterPrefix(before, TelMarker, "");
    assert before + TelMarker + "" == before + TelMarker;
    assert (before + TelMarker)[..|before|] == before;
    PaddedRun(before, "a \t b");
    StripPadded("", "a \t b", " ");
    RunCollapsed("a \t b");
  }

  // Facts about the literals of the two description examples, one per lemma.
  // Each literal is a parameter pinned by `requires`, so the solver does not
  // unfold it alongside the example's other facts.

  /** The text before the marker is the run followed by one space; the run has no whitespace at its ends. */
  lemma PaddedRun(before: string, run: string)
    requires before == "a \t b " && run == "a \t b"
    ensures before == "" + run + " " && Trimmed(run) && AllSpace(" ") && AllSpace("")
  {
  }

  /** "a \t b" collapses to "a b". */
  lemma RunCollapsed(run: string)
    requires run == "a \t b"
    ensures CollapseSpaces(run) == "a b"
  {
    RunParts(run, "a", " \t ", "b");
    CollapseAfterWord("a", " \t " + "b");
    CollapseGap(" \t ", "b");
    CollapseAfterWord("b", "");
    assert "b" + "" == "b";
  }

  /** "a \t b" is a word, a whitespace run and a word. */
  lemma RunParts(run: string, first: string, gap: string, second: string)
    requires run == "a \t b" && first == "a" && gap == " \t " && second == "b"
    ensures run == first + (gap + second)
    ensures gap != [] && AllSpace(gap) && !IsSpace(second[0])
    ensures forall k :: 0 <= k < |first| ==> !IsSpace(first[k])
    ensures forall k :: 0 <= k < |second| ==> !IsSpace(second[k])
  {
  }

  /** "Great phone." is already single-spaced. */
  lemma SentenceSingleSpaced(sentence: string)
    requires sentence == "Great phone."
    ensures CollapseSpaces(sentence) == sentence
  {
    CollapseSingleSpaced(sentence);
  }

  // ------------------------------------------------------------------ delivery

  /** api.py:375-384: delivery is available iff the status text, stripped and lower-cased, is "oui". */
  function DeliveryAvailable(statusText: Option<string>): bool {
    Truthy(statusText) && Lower(Strip(statusText.value)) == "oui"
  }

  /** Exactly the three letters o, u, i in either case, surrounded by any whitespace, mean "yes". */
  lemma DeliveryIff(statusText: Option<string>)
    ensures DeliveryAvailable(statusText) <==>
      statusText.Some? &&
      var t := Strip(statusText.value);
      |t| == 3 && t[0] in "oO" && t[1] in "uU" && t[2] in "iI"
  {
    if statusText.Some? {
      var t := Strip(statusText.value);
      LowerIsOui(t);
      if t != [] {
        StripMeetsSpec(statusText.value);
        assert statusText.value != "";
      }
    }
  }

  /** `lower()` gives "oui" exactly for the eight spellings of o, u, i in either case. */
  lemma LowerIsOui(t: string)
    ensures Lower(t) == "oui" <==> |t| == 3 && t[0] in "oO" && t[1] in "uU" && t[2] in "iI"
  {
    if |t| == 3 {
      var l := Lower(t);
      LowerLetter(t[0], 'o', 'O');
      LowerLetter(t[1], 'u', 'U');
      LowerLetter(t[2], 'i', 'I');
      assert "oO" == ['o', 'O'] && "uU" == ['u', 'U'] && "iI" == ['i', 'I'];
      assert "oui" == ['o', 'u', 'i'];
      assert l == [l[0], l[1], l[2]];
    }
  }

  lemma LowerLetter(c: char, lower: char, upper: char)
    requires 'a' <= lower <= 'z' && upper as int + 32 == lower as int
    ensures AsciiLower(c) == lower <==> c == lower || c == upper
  {
  }

  lemma DeliveryExample()
    ensures DeliveryAvailable(Some("Oui"))
    ensures !DeliveryAvailable(Some("Non"))
  {
    StripTrimmed("Oui");
    StripTrimmed("Non");
    DeliveryIff(Some("Oui"));
    DeliveryIff(Some("Non"));
  }

  // ------------------------------------------------------------------- contact

  /** The result of clicking the reveal button and waiting for the `tel:` link (api.py:392-397). */
  datatype PhoneReveal =
    | RevealFailed                       // the click or the 5-second wait raised
    | Revealed(linkText: Option<string>) // the link, if one was returned, and its text

  /** Python's `s[4:]`. */
  function DropPrefix4(s: string): string {
    if |s| >= 4 then s[4..] else []
  }

  /**
   * api.py:387-401: the second reveal button is clicked whenever any exists, so
   * one button raises (swallowed) and two or more are needed; the link text
   * loses its first four characters and is stripped; an empty text stays "".
   */
  function SellerContact(buttons: nat, outcome: PhoneReveal): Option<string> {
    if buttons == 0 then None
    else if buttons < 2 then None
    else if outcome.RevealFailed? || outcome.linkText.None? then None
    else
      var t := outcome.linkText.value;
      if t != "" then Some(Strip(DropPrefix4(t))) else Some(t)
  }

  /**
   * A contact is only found with two or more buttons and a returned link; its
   * text is what follows the link's first four characters, without surrounding
   * whitespace.
   */
  lemma SellerContactRule(buttons: nat, outcome: PhoneReveal)
    ensures SellerContact(buttons, outcome).Some? <==> buttons >= 2 && outcome.Revealed? && outcome.linkText.Some?
    ensures SellerContact(buttons, outcome).Some? && |outcome.linkText.value| >= 4 ==>
      IsStripOf(SellerContact(buttons, outcome).value, outcome.linkText.value[4..])
    ensures SellerContact(buttons, outcome).Some? && |outcome.linkText.value| < 4 ==>
      SellerContact(buttons, outcome).value == ""
  {
    if buttons >= 2 && outcome.Revealed? && outcome.linkText.Some? {
      var t := outcome.linkText.value;
      if |t| >= 4 {
        StripMeetsSpec(t[4..]);
      } else if t != "" {
        StripTrimmed([]);
      }
    }
  }
}
