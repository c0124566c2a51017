/**
 * `TayaraScraper.build_url` (api.py:47-98): turns the search filters and a page
 * number into a listing URL of the form
 *   https://www.tayara.tn/ads/<segments joined by '/'>/[?<params joined by '&'>]
 * `urllib.parse.quote` is an uninterpreted parameter `quote`.
 */
module UrlBuilder {
  import opened Wrappers
  import opened Text

  /** `TayaraScraper.BASE_URL` (api.py:45). */
  const BaseUrl: string := "https://www.tayara.tn/ads"

  /** The search filters that `build_url` and `scrape_products` share (api.py:48-56, 164-173). */
  datatype SearchFilter = SearchFilter(
    query: string,
    category: string,
    subcategory: Option<string>,
    city: Option<string>,
    condition: Option<string>,
    minPrice: Option<int>,
    maxPrice: Option<int>)

  // --------------------------------------------------------------- path segments

  /** The five path slots, one per filter that can appear in the path. */
  datatype SegmentKind = Category | Subcategory | City | Condition | Keyword

  /** The slots in the order the path lists them (api.py:64-81). */
  const PathOrder: seq<SegmentKind> := [Category, Subcategory, City, Condition, Keyword]

  /** Position of a slot in `PathOrder`. */
  function Rank(kind: SegmentKind): (r: nat)
    ensures r < |PathOrder| && PathOrder[r] == kind
  {
    match kind
    case Category => 0
    case Subcategory => 1
    case City => 2
    case Condition => 3
    case Keyword => 4
  }

  /** The literal text written before the quoted value of each slot. */
  function Prefix(kind: SegmentKind): string {
    match kind
    case Category => "c/"
    case Subcategory => ""
    case City => "l/"
    case Condition => "t/"
    case Keyword => "k/"
  }

  /** What the filter puts in a slot; `query` and `category` are plain strings, never `None`. */
  function SlotValue(f: SearchFilter, kind: SegmentKind): Option<string> {
    match kind
    case Category => Some(f.category)
    case Subcategory => f.subcategory
    case City => f.city
    case Condition => f.condition
    case Keyword => Some(f.query)
  }

  /** A slot that made it into the path, with its unquoted value. */
  datatype Segment = Segment(kind: SegmentKind, value: string)

  /** The slots of `kinds`, in order, whose value is truthy. */
  function Present(f: SearchFilter, kinds: seq<SegmentKind>): seq<Segment> {
    if kinds == [] then []
    else
      var rest := Present(f, kinds[1..]);
      var v := SlotValue(f, kinds[0]);
      if Truthy(v) then [Segment(kinds[0], v.value)] + rest else rest
  }

  /** The path segments of a search, before quoting. */
  function PathSegments(f: SearchFilter): seq<Segment> {
    Present(f, PathOrder)
  }

  /** The one-slot contribution to the path: the segment if its value is truthy, else nothing. */
  function SlotSegment(f: SearchFilter, kind: SegmentKind): seq<Segment> {
    var v := SlotValue(f, kind);
    if Truthy(v) then [Segment(kind, v.value)] else []
  }

  lemma PathSegmentsBySlot(f: SearchFilter)
    ensures PathSegments(f) ==
      SlotSegment(f, Category) + SlotSegment(f, Subcategory) + SlotSegment(f, City)
      + SlotSegment(f, Condition) + SlotSegment(f, Keyword)
  {
    var k1 := PathOrder[1..];
    var k2 := k1[1..];
    var k3 := k2[1..];
    var k4 := k3[1..];
    assert PathOrder[0] == Category && k1[0] == Subcategory && k2[0] == City && k3[0] == Condition;
    assert k4 == [Keyword] && k4[1..] == [];
    PresentCons(f, PathOrder);
    PresentCons(f, k1);
    PresentCons(f, k2);
    PresentCons(f, k3);
    PresentCons(f, k4);
    var s0, s1, s2 := SlotSegment(f, Category), SlotSegment(f, Subcategory), SlotSegment(f, City);
    var s3, s4 := SlotSegment(f, Condition), SlotSegment(f, Keyword);
    assert Present(f, k4) == s4 + [] == s4;
    ConcatRight(s0, s1, s2, s3, s4);
  }

  /** Concatenation nested to the right equals the same concatenation written left to right. */
  lemma ConcatRight<T>(a: seq<T>, b: seq<T>, c: seq<T>, d: seq<T>, e: seq<T>)
    ensures a + (b + (c + (d + e))) == a + b + c + d + e
  {
  }

  lemma PresentCons(f: SearchFilter, kinds: seq<SegmentKind>)
    requires kinds != []
    ensures Present(f, kinds) == SlotSegment(f, kinds[0]) + Present(f, kinds[1..])
  {
  }

  /** A segment as it appears in the URL: its prefix, then its quoted value. */
  function RenderSegment(quote: string -> string, s: Segment): string {
    Prefix(s.kind) + quote(s.value)
  }

  function RenderSegments(quote: string -> string, segs: seq<Segment>): (r: seq<string>)
    ensures |r| == |segs|
    ensures forall i :: 0 <= i < |segs| ==> r[i] == RenderSegment(quote, segs[i])
  {
    if segs == [] then [] else [RenderSegment(quote, segs[0])] + RenderSegments(quote, segs[1..])
  }

  lemma RenderSegmentsAppend(quote: string -> string, a: seq<Segment>, b: seq<Segment>)
    ensures RenderSegments(quote, a + b) == RenderSegments(quote, a) + RenderSegments(quote, b)
  {
  }

  // ------------------------------------------------------------ query parameters

  /** The three query parameters `build_url` may add. */
  datatype QueryParam = MinPrice(amount: int) | MaxPrice(amount: int) | PageNumber(number: int)

  function ParamName(p: QueryParam): string {
    match p
    case MinPrice(_) => "minPrice"
    case MaxPrice(_) => "maxPrice"
    case PageNumber(_) => "page"
  }

  function ParamValue(p: QueryParam): int {
    match p
    case MinPrice(v) => v
    case MaxPrice(v) => v
    case PageNumber(v) => v
  }

  /** Position of a parameter kind in the query string. */
  function ParamRank(p: QueryParam): nat {
    match p
    case MinPrice(_) => 0
    case MaxPrice(_) => 1
    case PageNumber(_) => 2
  }

  /**
   * The parameters a search carries (api.py:87-93): each price bound whenever it
   * is not `None` (so a bound of 0 counts), the page only when truthy.
   */
  function Params(f: SearchFilter, page: Option<int>): seq<QueryParam> {
    (if f.minPrice.Some? then [MinPrice(f.minPrice.value)] else [])
    + (if f.maxPrice.Some? then [MaxPrice(f.maxPrice.value)] else [])
    + (if page.Some? && page.value != 0 then [PageNumber(page.value)] else [])
  }

  /** `f"{name}={value}"`. */
  function RenderParam(p: QueryParam): string {
    ParamName(p) + "=" + Decimal(ParamValue(p))
  }

  function RenderParams(ps: seq<QueryParam>): (r: seq<string>)
    ensures |r| == |ps|
    ensures forall i :: 0 <= i < |ps| ==> r[i] == RenderParam(ps[i])
  {
    if ps == [] then [] else [RenderParam(ps[0])] + RenderParams(ps[1..])
  }

  lemma RenderParamsAppend(a: seq<QueryParam>, b: seq<QueryParam>)
    ensures RenderParams(a + b) == RenderParams(a) + RenderParams(b)
  {
  }

  // ------------------------------------------------------------------------ URL

  /** Everything up to and including the '/' after the path (api.py:84). */
  function PathUrl(quote: string -> string, f: SearchFilter): string {
    BaseUrl + "/" + Join("/", RenderSegments(quote, PathSegments(f))) + "/"
  }

  /** The URL `build_url` returns: the query string is added only when some parameter is (api.py:95-96). */
  function UrlOf(quote: string -> string, f: SearchFilter, page: Option<int>): string {
    var params := Params(f, page);
    PathUrl(quote, f) + (if params == [] then "" else "?" + Join("&", RenderParams(params)))
  }

  /**
   * api.py:48-98: collect the truthy path segments in slot order, join them
   * under the base URL, then collect the query parameters and append them
   * after '?' when there are any.
   */
  method BuildUrl(
    quote: string -> string,
    query: string,
    category: string,
    subcategory: Option<string>,
    city: Option<string>,
    condition: Option<string>,
    minPrice: Option<int>,
    maxPrice: Option<int>,
    page: Option<int>)
    returns (url: string)
    ensures url == UrlOf(quote, SearchFilter(query, category, subcategory, city, condition, minPrice, maxPrice), page)
  {
    ghost var f := SearchFilter(query, category, subcategory, city, condition, minPrice, maxPrice);
    var pathSegments := CollectPathSegments(quote, query, category, subcategory, city, condition);
    PathIgnoresPrices(f);
    url := BaseUrl + "/" + Join("/", pathSegments) + "/";
    var params := CollectParams(minPrice, maxPrice, page);
    ParamsIgnorePath(f, page);
    if params != [] {
      url := url + "?" + Join("&", params);
    }
  }

  /** The path depends on the five path slots only. */
  lemma PathIgnoresPrices(f: SearchFilter)
    ensures PathSegments(f) == PathSegments(f.(minPrice := None, maxPrice := None))
  {
    PathSegmentsBySlot(f);
    PathSegmentsBySlot(f.(minPrice := None, maxPrice := None));
  }

  /** The query parameters depend on the price bounds and the page only. */
  lemma ParamsIgnorePath(f: SearchFilter, page: Option<int>)
    ensures Params(f, page) == Params(SearchFilter("", "", None, None, None, f.minPrice, f.maxPrice), page)
  {
  }

  /** api.py:61-81: the `path_segments` list, one `if value: append` per slot. */
  method CollectPathSegments(
    quote: string -> string,
    query: string,
    category: string,
    subcategory: Option<string>,
    city: Option<string>,
    condition: Option<string>)
    returns (pathSegments: seq<string>)
    ensures pathSegments ==
      RenderSegments(quote, PathSegments(SearchFilter(query, category, subcategory, city, condition, None, None)))
  {
    ghost var f := SearchFilter(query, category, subcategory, city, condition, None, None);
    pathSegments := [];
    pathSegments := AppendSegment(quote, f, Category, [], pathSegments, "c/", Some(category));
    ghost var segs := [] + SlotSegment(f, Category);
    pathSegments := AppendSegment(quote, f, Subcategory, segs, pathSegments, "", subcategory);
    segs := segs + SlotSegment(f, Subcategory);
    pathSegments := AppendSegment(quote, f, City, segs, pathSegments, "l/", city);
    segs := segs + SlotSegment(f, City);
    pathSegments := AppendSegment(quote, f, Condition, segs, pathSegments, "t/", condition);
    segs := segs + SlotSegment(f, Condition);
    pathSegments := AppendSegment(quote, f, Keyword, segs, pathSegments, "k/", Some(query));
    segs := segs + SlotSegment(f, Keyword);
    PathSegmentsBySlot(f);
    assert [] + SlotSegment(f, Category) == SlotSegment(f, Category);
  }

  /**
   * One `if value: path_segments.append(prefix + quote(value))` step of
   * api.py:64-81: the list grows by the slot's rendered segment exactly when
   * the slot's value is truthy, so it stays the rendering of the slots seen so far.
   */
  method AppendSegment(
    quote: string -> string,
    ghost f: SearchFilter,
    ghost kind: SegmentKind,
    ghost segs: seq<Segment>,
    pathSegments: seq<string>,
    prefix: string,
    value: Option<string>)
    returns (extended: seq<string>)
    requires pathSegments == RenderSegments(quote, segs)
    requires prefix == Prefix(kind) && value == SlotValue(f, kind)
    ensures extended == RenderSegments(quote, segs + SlotSegment(f, kind))
  {
    extended := pathSegments;
    if Truthy(value) {
      extended := extended + [prefix + quote(value.value)];
    }
    RenderSegmentsAppend(quote, segs, SlotSegment(f, kind));
  }

  /** api.py:86-93: the `params` list, in the order minPrice, maxPrice, page. */
  method CollectParams(minPrice: Option<int>, maxPrice: Option<int>, page: Option<int>)
    returns (params: seq<string>)
    ensures params == RenderParams(Params(SearchFilter("", "", None, None, None, minPrice, maxPrice), page))
  {
    ghost var ps: seq<QueryParam> := [];
    params := [];
    if minPrice.Some? {
      params := AppendParam(ps, params, "minPrice=", MinPrice(minPrice.value));
      ps := ps + [MinPrice(minPrice.value)];
    }
    if maxPrice.Some? {
      params := AppendParam(ps, params, "maxPrice=", MaxPrice(maxPrice.value));
      ps := ps + [MaxPrice(maxPrice.value)];
    }
    if page.Some? && page.value != 0 {
      params := AppendParam(ps, params, "page=", PageNumber(page.value));
      ps := ps + [PageNumber(page.value)];
    }
    assert ps == Params(SearchFilter("", "", None, None, None, minPrice, maxPrice), page);
  }

  /** One `params.append(f"{name}={value}")` of api.py:88-93. */
  method AppendParam(ghost ps: seq<QueryParam>, rendered: seq<string>, key: string, p: QueryParam)
    returns (extended: seq<string>)
    requires rendered == RenderParams(ps)
    requires key == ParamName(p) + "="
    ensures extended == RenderParams(ps + [p])
  {
    extended := rendered + [key + Decimal(ParamValue(p))];
    RenderParamsAppend(ps, [p]);
  }

  // --------------------------------------------------------------- properties

  /** Slot kinds listed in strictly increasing path position. */
  predicate InPathOrder(kinds: seq<SegmentKind>) {
    forall i, j :: 0 <= i < j < |kinds| ==> Rank(kinds[i]) < Rank(kinds[j])
  }

  /** Some segment of `segs` fills slot `kind`. */
  predicate HasKind(segs: seq<Segment>, kind: SegmentKind) {
    exists i :: 0 <= i < |segs| && segs[i].kind == kind
  }

  predicate SegmentsInPathOrder(segs: seq<Segment>) {
    forall i, j :: 0 <= i < j < |segs| ==> Rank(segs[i].kind) < Rank(segs[j].kind)
  }

  /** Every kept segment comes from one of the listed slots, and their order is kept. */
  lemma {:induction false} PresentKeepsOrder(f: SearchFilter, kinds: seq<SegmentKind>)
    requires InPathOrder(kinds)
    ensures SegmentsInPathOrder(Present(f, kinds))
    ensures forall i :: 0 <= i < |Present(f, kinds)| ==> Present(f, kinds)[i].kind in kinds
  {
    if kinds != [] {
      var rest := Present(f, kinds[1..]);
      assert InPathOrder(kinds[1..]) by {
        forall i, j | 0 <= i < j < |kinds[1..]|
          ensures Rank(kinds[1..][i]) < Rank(kinds[1..][j])
        {
          assert kinds[1..][i] == kinds[i + 1] && kinds[1..][j] == kinds[j + 1];
        }
      }
      PresentKeepsOrder(f, kinds[1..]);
      forall i | 0 <= i < |rest|
        ensures Rank(kinds[0]) < Rank(rest[i].kind)
      {
        var j :| 0 <= j < |kinds[1..]| && kinds[1..][j] == rest[i].kind;
        assert kinds[j + 1] == rest[i].kind;
      }
      var v := SlotValue(f, kinds[0]);
      if Truthy(v) {
        SegmentsInPathOrderCons(Segment(kinds[0], v.value), rest);
      }
    }
  }

  lemma SegmentsInPathOrderCons(s: Segment, rest: seq<Segment>)
    requires SegmentsInPathOrder(rest)
    requires forall i :: 0 <= i < |rest| ==> Rank(s.kind) < Rank(rest[i].kind)
    ensures SegmentsInPathOrder([s] + rest)
  {
    var segs := [s] + rest;
    forall i, j | 0 <= i < j < |segs|
      ensures Rank(segs[i].kind) < Rank(segs[j].kind)
    {
      assert segs[j] == rest[j - 1];
      if i > 0 {
        assert segs[i] == rest[i - 1];
      }
    }
  }

  /** Every kept segment holds its slot's truthy value. */
  lemma {:induction false} PresentValues(f: SearchFilter, kinds: seq<SegmentKind>)
    ensures forall i :: 0 <= i < |Present(f, kinds)| ==>
      Truthy(SlotValue(f, Present(f, kinds)[i].kind))
      && Present(f, kinds)[i].value == SlotValue(f, Present(f, kinds)[i].kind).value
  {
    if kinds != [] {
      var rest := Present(f, kinds[1..]);
      PresentValues(f, kinds[1..]);
      var v := SlotValue(f, kinds[0]);
      if Truthy(v) {
        var segs := [Segment(kinds[0], v.value)] + rest;
        assert forall i :: 1 <= i < |segs| ==> segs[i] == rest[i - 1];
      }
    }
  }

  lemma HasKindCons(s: Segment, segs: seq<Segment>, kind: SegmentKind)
    ensures HasKind([s] + segs, kind) <==> s.kind == kind || HasKind(segs, kind)
  {
    if HasKind(segs, kind) {
      var i :| 0 <= i < |segs| && segs[i].kind == kind;
      assert ([s] + segs)[i + 1] == segs[i];
    }
    if s.kind == kind {
      assert ([s] + segs)[0].kind == kind;
    }
    if HasKind([s] + segs, kind) && s.kind != kind {
      var i :| 0 <= i < |[s] + segs| && ([s] + segs)[i].kind == kind;
      assert segs[i - 1] == ([s] + segs)[i];
    }
  }

  /** A slot has a segment exactly when it is listed and its value is truthy. */
  lemma {:induction false} PresentHasKind(f: SearchFilter, kinds: seq<SegmentKind>, kind: SegmentKind)
    ensures HasKind(Present(f, kinds), kind) <==> kind in kinds && Truthy(SlotValue(f, kind))
  {
    if kinds != [] {
      var rest := Present(f, kinds[1..]);
      PresentHasKind(f, kinds[1..], kind);
      assert kinds == [kinds[0]] + kinds[1..];
      assert kind in kinds <==> kind == kinds[0] || kind in kinds[1..];
      var v := SlotValue(f, kinds[0]);
      if Truthy(v) {
        HasKindCons(Segment(kinds[0], v.value), rest, kind);
      }
    }
  }

  /**
   * api.py:64-81: the path carries a segment exactly for each truthy slot, with
   * that slot's value, in the order category, subcategory, city, condition, query.
   */
  lemma PathSegmentsRule(f: SearchFilter)
    ensures SegmentsInPathOrder(PathSegments(f))
    ensures forall i :: 0 <= i < |PathSegments(f)| ==>
      Truthy(SlotValue(f, PathSegments(f)[i].kind))
      && PathSegments(f)[i].value == SlotValue(f, PathSegments(f)[i].kind).value
    ensures forall kind :: HasKind(PathSegments(f), kind) <==> Truthy(SlotValue(f, kind))
  {
    PathOrderSorted();
    PresentKeepsOrder(f, PathOrder);
    PresentValues(f, PathOrder);
    forall kind
      ensures HasKind(PathSegments(f), kind) <==> Truthy(SlotValue(f, kind))
    {
      PathOrderHas(kind);
      PresentHasKind(f, PathOrder, kind);
    }
  }

  lemma PathOrderSorted()
    ensures InPathOrder(PathOrder)
  {
    assert forall i :: 0 <= i < |PathOrder| ==> Rank(PathOrder[i]) == i;
  }

  lemma PathOrderHas(kind: SegmentKind)
    ensures kind in PathOrder
  {
    assert PathOrder[Rank(kind)] == kind;
  }

  /** Some parameter of `ps` has kind rank `r` (0 minPrice, 1 maxPrice, 2 page). */
  predicate HasParam(ps: seq<QueryParam>, r: nat) {
    exists i :: 0 <= i < |ps| && ParamRank(ps[i]) == r
  }

  /**
   * api.py:87-93: `minPrice` is present iff a minimum is given (0 included),
   * `maxPrice` iff a maximum is given, `page` iff the page is truthy; they come
   * in that order and each carries its own value.
   */
  lemma ParamsRule(f: SearchFilter, page: Option<int>)
    ensures HasParam(Params(f, page), 0) <==> f.minPrice.Some?
    ensures HasParam(Params(f, page), 1) <==> f.maxPrice.Some?
    ensures HasParam(Params(f, page), 2) <==> page.Some? && page.value != 0
    ensures forall i, j :: 0 <= i < j < |Params(f, page)| ==> ParamRank(Params(f, page)[i]) < ParamRank(Params(f, page)[j])
    ensures forall i :: 0 <= i < |Params(f, page)| && Params(f, page)[i].MinPrice? ==>
      f.minPrice == Some(Params(f, page)[i].amount)
    ensures forall i :: 0 <= i < |Params(f, page)| && Params(f, page)[i].MaxPrice? ==>
      f.maxPrice == Some(Params(f, page)[i].amount)
    ensures forall i :: 0 <= i < |Params(f, page)| && Params(f, page)[i].PageNumber? ==>
      page == Some(Params(f, page)[i].number)
  {
    ParamsPresence(f, page);
    ParamsOrder(f, page);
    ParamsValues(f, page);
  }

  lemma ParamsPresence(f: SearchFilter, page: Option<int>)
    ensures HasParam(Params(f, page), 0) <==> f.minPrice.Some?
    ensures HasParam(Params(f, page), 1) <==> f.maxPrice.Some?
    ensures HasParam(Params(f, page), 2) <==> page.Some? && page.value != 0
  {
    var ps := Params(f, page);
    if f.minPrice.Some? {
      assert ParamRank(ps[0]) == 0;
    }
    if f.maxPrice.Some? {
      var i := if f.minPrice.Some? then 1 else 0;
      assert ParamRank(ps[i]) == 1;
    }
    if page.Some? && page.value != 0 {
      assert ParamRank(ps[|ps| - 1]) == 2;
    }
  }

  lemma ParamsOrder(f: SearchFilter, page: Option<int>)
    ensures forall i, j :: 0 <= i < j < |Params(f, page)| ==> ParamRank(Params(f, page)[i]) < ParamRank(Params(f, page)[j])
  {
  }

  lemma ParamsValues(f: SearchFilter, page: Option<int>)
    ensures forall i :: 0 <= i < |Params(f, page)| && Params(f, page)[i].MinPrice? ==>
      f.minPrice == Some(Params(f, page)[i].amount)
    ensures forall i :: 0 <= i < |Params(f, page)| && Params(f, page)[i].MaxPrice? ==>
      f.maxPrice == Some(Params(f, page)[i].amount)
    ensures forall i :: 0 <= i < |Params(f, page)| && Params(f, page)[i].PageNumber? ==>
      page == Some(Params(f, page)[i].number)
  {
  }

  /** A rendered parameter reads back as its name, '=', and a number that parses to its value. */
  lemma ParamRoundTrip(p: QueryParam)
    ensures StartsWith(RenderParam(p), ParamName(p) + "=")
    ensures WellFormedDecimal(RenderParam(p)[|ParamName(p)| + 1..])
      && ParseInt(RenderParam(p)[|ParamName(p)| + 1..]) == ParamValue(p)
  {
    assert RenderParam(p)[|ParamName(p)| + 1..] == Decimal(ParamValue(p));
    DecimalRoundTrip(ParamValue(p));
  }

  /** No rendered parameter contains '&' or '?'. */
  lemma RenderedParamsAvoid(ps: seq<QueryParam>, c: char)
    requires c == '&' || c == '?'
    ensures forall i :: 0 <= i < |ps| ==> c !in RenderParams(ps)[i]
  {
    forall i | 0 <= i < |ps|
      ensures c !in RenderParams(ps)[i]
    {
      RenderedParamAvoids(ps[i], c);
    }
  }

  lemma RenderedParamAvoids(p: QueryParam, c: char)
    requires c == '&' || c == '?'
    ensures c !in RenderParam(p)
  {
    var d := Decimal(ParamValue(p));
    DecimalChars(ParamValue(p));
    assert c !in d;
    var name := ParamName(p) + "=";
    assert c !in name by {
      match p
      case MinPrice(_) =>
      case MaxPrice(_) =>
      case PageNumber(_) =>
    }
    forall k | 0 <= k < |name + d|
      ensures (name + d)[k] != c
    {
      if k < |name| {
        assert (name + d)[k] == name[k];
      } else {
        assert (name + d)[k] == d[k - |name|];
      }
    }
  }

  /** The base URL, '/', the joined segments and '/' come first, whatever follows (api.py:84). */
  lemma UrlStartsWithPath(quote: string -> string, f: SearchFilter, page: Option<int>)
    ensures StartsWith(UrlOf(quote, f, page), BaseUrl + "/")
    ensures StartsWith(UrlOf(quote, f, page), PathUrl(quote, f))
    ensures PathUrl(quote, f)[|PathUrl(quote, f)| - 1] == '/'
    ensures UrlOf(quote, f, page) == PathUrl(quote, f) <==> Params(f, page) == []
  {
    var path := PathUrl(quote, f);
    var url := UrlOf(quote, f, page);
    assert url[..|path|] == path;
    assert path[..|BaseUrl + "/"|] == BaseUrl + "/";
  }

  /** The URL ends with '/' exactly when it carries no query parameter: otherwise it ends with a digit. */
  lemma UrlEndsWithSlashIff(quote: string -> string, f: SearchFilter, page: Option<int>)
    ensures var url := UrlOf(quote, f, page);
      url != [] && (url[|url| - 1] == '/' <==> Params(f, page) == [])
    ensures var url := UrlOf(quote, f, page);
      Params(f, page) != [] ==> url != [] && IsDigit(url[|url| - 1])
  {
    var path := PathUrl(quote, f);
    var ps := Params(f, page);
    var query := Join("&", RenderParams(ps));
    PathUrlEndsWithSlash(quote, f);
    if ps != [] {
      RenderParamEndsInDigit(ps[|ps| - 1]);
      JoinLast("&", RenderParams(ps));
    }
    LastCharWithQuery(path, query, ps != []);
  }

  lemma PathUrlEndsWithSlash(quote: string -> string, f: SearchFilter)
    ensures PathUrl(quote, f) != [] && PathUrl(quote, f)[|PathUrl(quote, f)| - 1] == '/'
  {
  }

  /** A path ending in '/' keeps that last character unless a query ending elsewhere is appended. */
  lemma LastCharWithQuery(path: string, query: string, hasQuery: bool)
    requires path != [] && path[|path| - 1] == '/'
    requires hasQuery ==> query != [] && query[|query| - 1] != '/'
    ensures var u := path + (if hasQuery then "?" + query else "");
      u != [] && (u[|u| - 1] == '/' <==> !hasQuery)
    ensures var u := path + (if hasQuery then "?" + query else "");
      hasQuery ==> u != [] && u[|u| - 1] == query[|query| - 1]
  {
    var u := path + (if hasQuery then "?" + query else "");
    if hasQuery {
      assert u[|u| - 1] == query[|query| - 1];
    } else {
      assert u == path;
    }
  }

  lemma RenderParamEndsInDigit(p: QueryParam)
    ensures RenderParam(p) != [] && IsDigit(RenderParam(p)[|RenderParam(p)| - 1])
  {
    var d := Decimal(ParamValue(p));
    DecimalChars(ParamValue(p));
    var r := RenderParam(p);
    assert r == (ParamName(p) + "=") + d;
    assert r[|r| - 1] == d[|d| - 1];
  }

  lemma JoinLast(sep: string, parts: seq<string>)
    requires parts != [] && parts[|parts| - 1] != []
    ensures Join(sep, parts) != []
    ensures Join(sep, parts)[|Join(sep, parts)| - 1] == parts[|parts| - 1][|parts[|parts| - 1]| - 1]
  {
    var init := parts[..|parts| - 1];
    var last := parts[|parts| - 1];
    assert parts == init + [last];
    JoinSnoc(sep, init, last);
  }

  /** `urllib.parse.quote` escapes '?' (it is not in its default safe set). */
  ghost predicate QuoteEscapesQuestionMark(quote: string -> string) {
    forall s :: '?' !in quote(s)
  }

  /** The path part of a URL never contains '?' when `quote` escapes it. */
  lemma PathAvoidsQuestionMark(quote: string -> string, f: SearchFilter)
    requires QuoteEscapesQuestionMark(quote)
    ensures '?' !in PathUrl(quote, f)
  {
    var rendered := RenderSegments(quote, PathSegments(f));
    forall i | 0 <= i < |rendered|
      ensures '?' !in rendered[i]
    {
      var seg := PathSegments(f)[i];
      assert rendered[i] == Prefix(seg.kind) + quote(seg.value);
      PrefixAvoidsQuestionMark(seg.kind);
    }
    JoinAvoids("/", rendered, '?');
    BaseAvoidsQuestionMark();
  }

  lemma PrefixAvoidsQuestionMark(kind: SegmentKind)
    ensures '?' !in Prefix(kind)
  {
  }

  lemma BaseAvoidsQuestionMark()
    ensures '?' !in BaseUrl + "/"
  {
  }

  /**
   * api.py:95-96: '?' appears in the URL exactly when some parameter does; the
   * first '?' ends the path, and splitting what follows it on '&' gives back the
   * rendered parameters in order.
   */
  lemma UrlQueryParses(quote: string -> string, f: SearchFilter, page: Option<int>)
    requires QuoteEscapesQuestionMark(quote)
    ensures '?' in UrlOf(quote, f, page) <==> Params(f, page) != []
    ensures Params(f, page) != [] ==>
      Find(UrlOf(quote, f, page), "?") == Some(|PathUrl(quote, f)|)
      && Split(UrlOf(quote, f, page)[|PathUrl(quote, f)| + 1..], '&') == RenderParams(Params(f, page))
  {
    var path := PathUrl(quote, f);
    var ps := Params(f, page);
    PathAvoidsQuestionMark(quote, f);
    if ps != [] {
      var q := Join("&", RenderParams(ps));
      var url := UrlOf(quote, f, page);
      assert url == path + "?" + q;
      assert url[|path|] == '?';
      FindAfterPrefix(path, "?", q);
      assert url[|path| + 1..] == q;
      RenderedParamsAvoid(ps, '&');
      SplitJoin(RenderParams(ps), '&');
    }
  }

  /** Everything of a paged URL but the page number: it does not depend on the page. */
  function PageStem(quote: string -> string, f: SearchFilter): string {
    var bounds := RenderParams(Params(f, None));
    PathUrl(quote, f) + "?" + (if bounds == [] then "" else Join("&", bounds) + "&") + "page="
  }

  /** A truthy page adds `page=<n>` after the price bounds. */
  lemma ParamsWithPage(f: SearchFilter, n: int)
    requires n != 0
    ensures RenderParams(Params(f, Some(n))) == RenderParams(Params(f, None)) + ["page=" + Decimal(n)]
  {
    var bounds := Params(f, None);
    assert Params(f, Some(n)) == bounds + [PageNumber(n)];
    RenderParamsAppend(bounds, [PageNumber(n)]);
    PageParam(n);
  }

  lemma PageParam(n: int)
    ensures RenderParams([PageNumber(n)]) == ["page=" + Decimal(n)]
  {
    var r := RenderParams([PageNumber(n)]);
    assert r[0] == RenderParam(PageNumber(n)) == "page" + "=" + Decimal(n);
    assert "page" + "=" == "page=";
  }

  /** With a truthy page the URL ends in `page=<n>`, after a stem common to all pages. */
  lemma PagedUrl(quote: string -> string, f: SearchFilter, n: int)
    requires n != 0
    ensures UrlOf(quote, f, Some(n)) == PageStem(quote, f) + Decimal(n)
  {
    ParamsWithPage(f, n);
    QueryTail(PathUrl(quote, f), RenderParams(Params(f, None)), Decimal(n));
  }

  lemma QueryTail(path: string, rendered: seq<string>, number: string)
    ensures path + "?" + Join("&", rendered + ["page=" + number])
      == path + "?" + (if rendered == [] then "" else Join("&", rendered) + "&") + "page=" + number
  {
    var last := "page=" + number;
    JoinSnoc("&", rendered, last);
    if rendered != [] {
      var j := Join("&", rendered);
      assert path + "?" + (j + "&" + last) == path + "?" + (j + "&") + "page=" + number;
    }
  }

  /** Distinct truthy page numbers give distinct URLs, so no page is requested twice under one URL. */
  lemma PagedUrlsDiffer(quote: string -> string, f: SearchFilter, m: int, n: int)
    requires m != 0 && n != 0 && m != n
    ensures UrlOf(quote, f, Some(m)) != UrlOf(quote, f, Some(n))
  {
    PagedUrl(quote, f, m);
    PagedUrl(quote, f, n);
    var stem := PageStem(quote, f);
    if UrlOf(quote, f, Some(m)) == UrlOf(quote, f, Some(n)) {
      assert (stem + Decimal(m))[|stem|..] == Decimal(m);
      assert (stem + Decimal(n))[|stem|..] == Decimal(n);
      DecimalInjective(m, n);
    }
  }
}
