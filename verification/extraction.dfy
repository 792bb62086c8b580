/** The extraction half of `PriceTracker.get_price`. Fetching and HTML
    parsing are outside the model: a page is given as the result of its
    lookups, one optional element text per price selector and one for the
    title element. None means the lookup found no element; an element that
    was found but has no text is `Some("")`, since a BeautifulSoup element
    is always true. */
module Extraction {
  import opened Optional
  import opened Text
  import opened Decimal

  /** The title used when the page has no `span#productTitle` element. */
  const UnknownProduct: string := "Unknown Product"

  /** A fetched page as `get_price` sees it. `priceTexts` lists the lookup
      results of the price selectors in the order they are tried
      ("#priceblock_ourprice", "#priceblock_dealprice", ".a-price-whole",
      ".a-price .a-offscreen"); `titleText` is the lookup of
      `span#productTitle`. */
  datatype Page =
    | Unreachable  // a request error, a timeout or a non-2xx status
    | Loaded(priceTexts: seq<Option<string>>, titleText: Option<string>)

  /** What `get_price` returns: `(price, title)`, either possibly None. */
  datatype Fetched = Fetched(price: Option<real>, title: Option<string>)

  /** The price string a selector's lookup yields: the digits and decimal
      points of its text; "" when it found nothing. `get_price` strips the
      text before filtering it, which never changes the result (see
      `PriceCandidateOfStripped`), so the filter is applied directly. */
  function PriceCandidate(text: Option<string>): (r: string)
    ensures AllPriceChars(r)
    ensures text.None? ==> r == []
  {
    match text
    case None => []
    case Some(t) => KeepPriceChars(t)
  }

  /** The price string is the filter applied to the stripped element text,
      exactly as `get_price` computes it. */
  lemma PriceCandidateOfStripped(t: string)
    ensures PriceCandidate(Some(t)) == KeepPriceChars(Strip(t))
    ensures PriceCandidate(Some(t)) == [] <==> forall i :: 0 <= i < |t| ==> !IsPriceChar(t[i])
  {
    KeepPriceCharsIgnoresStrip(t);
    KeepPriceCharsEmpty(t);
  }

  /** The price strings of all the selectors, in selector order. */
  function Candidates(texts: seq<Option<string>>): (cs: seq<string>)
    ensures |cs| == |texts|
    ensures forall i :: 0 <= i < |texts| ==> cs[i] == PriceCandidate(texts[i])
    decreases |texts|
  {
    if texts == [] then [] else [PriceCandidate(texts[0])] + Candidates(texts[1..])
  }

  /** The position of the selector the loop breaks on: the first one with
      a non-empty price string, or the number of selectors if there is none. */
  function DecidingSelector(cs: seq<string>): (k: nat)
    ensures k <= |cs|
    ensures forall j :: 0 <= j < k ==> cs[j] == []
    ensures k < |cs| ==> cs[k] != []
    decreases |cs|
  {
    if cs == [] || cs[0] != [] then 0
    else
      var k := DecidingSelector(cs[1..]);
      assert forall j :: 1 <= j < k + 1 ==> cs[j] == cs[1..][j - 1];
      k + 1
  }

  /** The title `get_price` reports: the stripped element text, or the
      placeholder when the element is missing. */
  function Title(text: Option<string>): (r: string)
    ensures text.None? ==> r == UnknownProduct
    ensures text.Some? ==> r == Strip(text.value)
    ensures text.Some? && r != [] ==> !IsWhitespace(r[0]) && !IsWhitespace(r[|r| - 1])
  {
    match text
    case Some(t) => Strip(t)
    case None => UnknownProduct
  }

  /** `get_price` on a page. An unreachable page and a first price string
      that `float` rejects both end in the exception handler, which returns
      `(None, None)`; a page without any price string returns no price but
      the title. */
  function GetPrice(page: Page): (r: Fetched)
    ensures page.Unreachable? ==> r == Fetched(None, None)
    ensures r.price.Some? ==> page.Loaded? && r.price.value >= 0.0 && r.title == Some(Title(page.titleText))
    ensures r.price.None? && r.title.Some? ==> page.Loaded? && r.title == Some(Title(page.titleText))
    ensures page.Loaded? && (forall i :: 0 <= i < |page.priceTexts| ==> PriceCandidate(page.priceTexts[i]) == [])
            ==> r == Fetched(None, Some(Title(page.titleText)))
  {
    match page
    case Unreachable => Fetched(None, None)
    case Loaded(texts, titleText) =>
      var cs := Candidates(texts);
      var k := DecidingSelector(cs);
      if k == |cs| then Fetched(None, Some(Title(titleText))) else Decided(cs[k], titleText)
  }

  /** The result once the loop has broken on price string `c`: `float(c)`
      and the title, or `(None, None)` when `float` raises. */
  function Decided(c: string, titleText: Option<string>): (r: Fetched)
    requires AllPriceChars(c)
    ensures r.price == ParseDecimal(c)
    ensures r.price.None? <==> !IsDecimalLiteral(c)
    ensures r.price.None? ==> r.title.None?
    ensures r.price.Some? ==> r.title == Some(Title(titleText))
  {
    match ParseDecimal(c)
    case None => Fetched(None, None)
    case Some(p) => Fetched(Some(p), Some(Title(titleText)))
  }

  /** The first selector whose text holds a digit or a point decides the
      outcome: its price string is what `float` is applied to, and a string
      `float` rejects aborts the whole fetch, whatever later selectors hold. */
  lemma FirstCandidateDecides(texts: seq<Option<string>>, i: nat, titleText: Option<string>)
    requires i < |texts| && PriceCandidate(texts[i]) != []
    requires forall j :: 0 <= j < i ==> PriceCandidate(texts[j]) == []
    ensures GetPrice(Loaded(texts, titleText)).price == ParseDecimal(PriceCandidate(texts[i]))
    ensures ParseDecimal(PriceCandidate(texts[i])).None? ==> GetPrice(Loaded(texts, titleText)) == Fetched(None, None)
  {
    DecidingSelectorIsFirst(Candidates(texts), i);
  }

  /** The selectors after the deciding one are never consulted: replacing
      them changes nothing. */
  lemma LaterSelectorsIgnored(texts: seq<Option<string>>, i: nat, later: seq<Option<string>>, titleText: Option<string>)
    requires i < |texts| && PriceCandidate(texts[i]) != []
    requires forall j :: 0 <= j < i ==> PriceCandidate(texts[j]) == []
    ensures GetPrice(Loaded(texts[..i + 1] + later, titleText)) == GetPrice(Loaded(texts, titleText))
  {
    var pre, rest := texts[..i + 1], texts[i + 1..];
    assert texts == pre + rest;
    CandidatesConcat(pre, later);
    CandidatesConcat(pre, rest);
    var ps, ls, rs := Candidates(pre), Candidates(later), Candidates(rest);
    DecidingSelectorIsFirst(ps, i);
    DecidingSelectorConcat(ps, ls);
    DecidingSelectorConcat(ps, rs);
    assert GetPrice(Loaded(texts, titleText)) == Decided(ps[i], titleText);
    assert GetPrice(Loaded(pre + later, titleText)) == Decided(ps[i], titleText);
  }

  /** Price strings are computed selector by selector. */
  lemma {:induction false} CandidatesConcat(a: seq<Option<string>>, b: seq<Option<string>>)
    ensures Candidates(a + b) == Candidates(a) + Candidates(b)
    decreases |a|
  {
    if a == [] {
      assert a + b == b;
    } else {
      assert (a + b)[1..] == a[1..] + b;
      CandidatesConcat(a[1..], b);
    }
  }

  /** Once the loop has broken, what follows is never looked at. */
  lemma DecidingSelectorConcat(p: seq<string>, q: seq<string>)
    requires DecidingSelector(p) < |p|
    ensures DecidingSelector(p + q) == DecidingSelector(p)
  {
    DecidingSelectorIsFirst(p + q, DecidingSelector(p));
  }

  /** The loop breaks at the first non-empty price string, and runs through
      when there is none. */
  lemma DecidingSelectorIsFirst(cs: seq<string>, k: nat)
    requires k <= |cs| && (k < |cs| ==> cs[k] != [])
    requires forall j :: 0 <= j < k ==> cs[j] == []
    ensures DecidingSelector(cs) == k
  {
  }

  /** A selector whose text holds no digit and no point is passed over as
      if it were missing. */
  lemma EmptyCandidateSkipped(first: Option<string>, texts: seq<Option<string>>, titleText: Option<string>)
    requires PriceCandidate(first) == []
    ensures GetPrice(Loaded([first] + texts, titleText)) == GetPrice(Loaded(texts, titleText))
  {
    var all := [first] + texts;
    assert all[1..] == texts;
    var ts := Candidates(texts);
    var cs := Candidates(all);
    assert cs == [[]] + ts;
    assert cs[1..] == ts;
    assert DecidingSelector(cs) == 1 + DecidingSelector(ts);
  }

  /** A first price text that filters to "." aborts the fetch even though
      the next selector holds a good price. */
  lemma MalformedFirstPriceAbortsFetch()
    ensures GetPrice(Loaded([Some("."), Some("999.00")], Some("Headphones"))) == Fetched(None, None)
  {
    var texts := [Some("."), Some("999.00")];
    assert KeepPriceChars(".") == ".";
    ParseRejectsLonePoint();
    FirstCandidateDecides(texts, 0, Some("Headphones"));
  }
}
