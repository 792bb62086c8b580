# Price tracker: a Dafny model of the per-item decision logic

The price tracker keeps a catalogue of products. Each product is a URL, a
target price, an optional name, and the time and price of its last successful
observation. A scan cycle visits every product in order. It fetches the
product page and extracts a price and a title from it. It then updates the
stored record and sends an email when the price has dropped to or below the
target.

This project models the deterministic core of `PriceTracker` in `Setup.py`:

- `add_product`;
- the extraction half of `get_price`: selectors tried in order, digit/point
  filtering, parsing, the title default, and the exception path that turns a
  bad number into `(None, None)`;
- the per-item update and alert rule of `check_prices`, and one scan over the
  whole catalogue.

Fetching, HTML parsing, the clock and email delivery are not modelled. They
appear as inputs and outputs:

- A page is `Unreachable` or `Loaded`. A loaded page carries one optional
  element text per price selector, in selector order, and one optional
  title text. `None` stands for "no element". An element that is present
  but has no text is `Some("")`, because a BeautifulSoup element is always
  true (`Setup.py:77`, `87`). An empty price text is skipped like a missing
  one, but an empty title element gives the title `""`, not
  "Unknown Product".
- The `time.time()` reading for each item is a `real` input of its visit.
- A call of `alert_system` is an `Alert(name, url, price)` value. The scan
  returns its alerts in the order it raises them.

Prices are exact `real` numbers. `float(price_str)` is modelled as exact
decimal-to-rational conversion.

Modules:

- `Optional`: the `Option` type for Python's nullable values.
- `Text`: Python's argument-less `str.strip()` (with the exact `str.isspace`
  code points), and the filter that keeps digits and decimal points. The
  model filters an element's text without stripping it first, because
  `Text.KeepPriceCharsIgnoresStrip` proves the strip never changes the
  price string.
- `Decimal`: `float` applied to a string of digits and points.
- `Extraction`: `get_price` as a function of a page.
- `Tracker`: the catalogue record, `add_product`, the per-item check, the
  scan as a function (`Scan`: the item checks, `Checks`, run one after the
  other, `Collect`) and the loop that computes it (`CheckPrices`).
- `TrackerProperties`: what repeated checks of one item, and one scan,
  guarantee.

Three behaviours of `Setup.py` that are easy to misread:

- A matched price element whose filtered text is empty does not decide the
  price. The loop moves on to the next selector (`Setup.py:81`).
- When no selector yields a price string, `get_price` still returns the
  title with a null price. A parse failure returns `(None, None)`.
- A stored name is replaced by the page title when it is missing and also
  when it is the empty string, because the test at `Setup.py:104` treats a
  missing name and an empty one alike.

## Model

| member | source | states |
|---|---|---|
| Text.Strip | Setup.py:78 | the result is a slice of the input; only whitespace lies outside it; it neither starts nor ends with whitespace |
| Text.LeadingWhitespaceOf | Setup.py:78 | strip removes exactly the whitespace in front of a text that starts with something else |
| Text.TrailingWhitespaceOf | Setup.py:78 | strip removes exactly the whitespace after a text that ends with something else |
| Text.StripUnique | Setup.py:87 | for any text whose ends are not whitespace, wrapped in whitespace on both sides, strip returns exactly that text |
| Text.StripIdempotent | Setup.py:87 | stripping an already stripped title changes nothing |
| Text.KeepPriceChars | Setup.py:80 | the filtered text holds only digits and points and is never longer than the input |
| Text.KeepPriceCharsCounts | Setup.py:80 | each digit or point occurs in the filtered text as often as in the input; no other character occurs |
| Text.KeepPriceCharsEmpty | Setup.py:80-81 | the filtered text is empty exactly when the input holds no digit and no point |
| Text.KeepPriceCharsConcat | Setup.py:80 | the filter works character by character, so it keeps the original order |
| Text.KeepPriceCharsIgnoresStrip | Setup.py:78-80 | stripping the element text before filtering never changes the price string |
| Text.KeepPriceCharsFixed | Setup.py:80 | the filter leaves a text unchanged exactly when the text holds only digits and points |
| Decimal.ParseDecimal | Setup.py:82 | a digits-and-points string parses exactly when it has at most one point and is not made of points alone; the value is never negative |
| Decimal.ParseWholeNumber | Setup.py:82 | a non-empty run of digits parses to the number it denotes |
| Decimal.ParseWithPoint | Setup.py:82 | `whole.frac` parses to whole plus frac over ten to the number of fraction digits, including "5." and ".5" |
| Decimal.ParseRenderedNat | Setup.py:82 | the decimal rendering of any natural number parses back to that number |
| Decimal.ParseIgnoresLeadingZero | Setup.py:82 | a leading zero never changes an accepted parse ("0.5" and ".5" agree) |
| Decimal.TrailingZeroValue | Setup.py:82 | trailing zeros in the fraction do not change the value ("999.00" is 999) |
| Decimal.ParseAcceptsInteger | Setup.py:82 | "5" is accepted, with value 5 |
| Decimal.ParseAcceptsTrailingPoint | Setup.py:82 | "5." is accepted, with value 5 |
| Decimal.ParseAcceptsLeadingPoint | Setup.py:82 | ".5" is accepted, with value 0.5 |
| Decimal.ParsePriceWithCents | Setup.py:82 | "999.00" parses to 999 |
| Decimal.ParseRejectsLonePoint | Setup.py:82 | "." is rejected |
| Decimal.ParseRejectsTwoPoints | Setup.py:82 | "1.2.3" is rejected |
| Extraction.PriceCandidate | Setup.py:76-80 | a missing element gives the empty string; any price string holds only digits and points |
| Extraction.PriceCandidateOfStripped | Setup.py:78-81 | the price string of a present element is the filter applied to its stripped text; it is empty exactly when the text holds no digit and no point |
| Extraction.Candidates | Setup.py:75-80 | one price string per selector, in selector order, each from that selector's lookup alone |
| Extraction.DecidingSelector | Setup.py:74-83 | the loop breaks at the first selector with a non-empty price string; if there is none, it runs through every selector |
| Extraction.Title | Setup.py:86-87 | a missing title element gives "Unknown Product"; a present one gives its stripped text, which neither starts nor ends with whitespace |
| Extraction.Decided | Setup.py:82-93 | once the loop has broken, the price is `float` of the price string; a string `float` rejects gives `(None, None)`, an accepted one comes with the title |
| Extraction.GetPrice | Setup.py:59-93 | an unreachable page gives `(None, None)`; a page without any price string gives no price but the title; a price comes with the page's title and is never negative |
| Extraction.FirstCandidateDecides | Setup.py:75-93 | the first non-empty price string alone decides the price; if it does not parse, the whole fetch is `(None, None)` |
| Extraction.DecidingSelectorIsFirst | Setup.py:75-83 | the loop breaks at the first selector whose price string is non-empty, and at no other |
| Extraction.DecidingSelectorConcat | Setup.py:75-83 | once the loop has broken, the selectors that follow it are never looked at |
| Extraction.CandidatesConcat | Setup.py:75-80 | each selector's price string depends on that selector's lookup alone |
| Extraction.LaterSelectorsIgnored | Setup.py:75-83 | replacing the selectors after the deciding one does not change the result |
| Extraction.EmptyCandidateSkipped | Setup.py:77-81 | a selector whose text has no digit and no point is passed over as if it matched nothing |
| Extraction.MalformedFirstPriceAbortsFetch | Setup.py:80-93 | a first price string "." aborts the fetch although the next selector holds "999.00" |
| Tracker.AddProduct | Setup.py:48-57 | the old catalogue with one new record at the end, carrying the given url, target and name and no observation |
| Tracker.CheckItem | Setup.py:98-118 | url and target never change; without a price the record is untouched and there is no alert; with one, the price and time are recorded, and the title replaces only a missing or empty name; an alert fires exactly when the price is at or below target and below the previous price, or there was none |
| Tracker.VisitItem | Setup.py:98-101 | fetching and checking one item: an unreachable page leaves the record untouched and sends nothing; url and target never change; a changed record or an email means the page loaded and the check time was recorded |
| Tracker.Checks | Setup.py:96-98 | one check per catalogue item, each against that item's own visit, in catalogue order |
| Tracker.Collect | Setup.py:96-116 | a run of checks leaves one record per check and never more alerts than checks; `CollectAlertCount` and `CollectAlertMultiplicity` give the exact count |
| Tracker.CollectKeepsEachItem | Setup.py:96-109 | each record left by a run of checks is the record of its own check |
| Tracker.CollectAlertsExtend | Setup.py:96-116 | the alerts of the first checks are a prefix of the alerts of the whole run, so alerts come out in catalogue order |
| Tracker.CollectRaisesEveryAlert | Setup.py:114-116 | every check that calls `alert_system` has its alert in the run's alerts |
| Tracker.CollectInventsNoAlert | Setup.py:114-116 | every alert of a run is the alert of one of its checks |
| Tracker.CollectAlertCount | Setup.py:114-116 | a run of checks sends exactly one email per check that calls `alert_system` |
| Tracker.CollectAlertMultiplicity | Setup.py:114-116 | each email occurs among the alerts exactly as often as there are checks that call `alert_system` with it |
| Tracker.CollectQuietChecks | Setup.py:114-116 | a run of checks none of which calls `alert_system` leaves no alert |
| Tracker.Scan | Setup.py:95-120 | a scan returns one record per catalogue item and never more alerts than items; `TrackerProperties.ScanAlertCount` gives the exact count |
| Tracker.ScanChecksEachItem | Setup.py:96-109 | each record a scan returns is its own item's check, at the same position |
| Tracker.CheckPrices | Setup.py:95-122 | the loop keeps catalogue length and order; each item is replaced by its own check; the records and alerts are those of the scan, in catalogue order |
| TrackerProperties.ReplayKeepsIdentity | Setup.py:96-109 | no sequence of checks changes an item's url or target price |
| TrackerProperties.ReplayKeepsSetName | Setup.py:104-105 | a set, non-empty name survives any sequence of checks |
| TrackerProperties.FailedChecksChangeNothing | Setup.py:98-101 | checks that yield no price leave the item as it was and send nothing |
| TrackerProperties.ReplayRemembersLastPrice | Setup.py:107-109 | after a sequence of checks, the stored price and check time are those of the last check that yielded a price |
| TrackerProperties.SamePriceNeverAlerts | Setup.py:114-116 | observing the stored price again never sends an email |
| TrackerProperties.FlatPriceAlertsAtMostOnce | Setup.py:114-116 | a run of checks at one price sends one email if its first check qualifies, otherwise none |
| TrackerProperties.FallingPricesAlertEachTime | Setup.py:114-116 | prices that keep falling at or below target send an email at every fall |
| TrackerProperties.ReboundIsReportedAgain | Setup.py:108-116 | a rise and a return to an already reported price sends a second email, because the rule compares with the previous observation |
| TrackerProperties.FirstCheckOfNewProduct | Setup.py:48-57 | a product just added alerts on its first priced check exactly when the price is at or below target |
| TrackerProperties.TargetThousandScenario | Setup.py:98-116 | with target 1000, a first price of 999 sends an email with price 999 and stores 999; a second 999 sends none |
| TrackerProperties.NameAdoptedFromPage | Setup.py:86-105 | an unnamed item takes the stripped page title, or "Unknown Product", on its first priced check |
| TrackerProperties.UnreachableScanChangesNothing | Setup.py:96-101 | a scan in which no page is reachable returns the catalogue unchanged and sends nothing |
| TrackerProperties.ScanAlertsAreQualified | Setup.py:96-116 | every email a scan sends is for a catalogue URL, at a price no higher than that item's target |
| TrackerProperties.ScanAlertCount | Setup.py:96-116 | a scan sends exactly one email per item whose check calls for one, and each email as often as there are such items |
| TrackerProperties.ScanRaisesEveryAlert | Setup.py:96-116 | an item whose check calls for an email has that email among the scan's alerts |
| TrackerProperties.ScanAlertsComeFromChecks | Setup.py:96-116 | every alert of a scan is the alert of some item's own check |
| TrackerProperties.EmptyTitleKeepsNameUnset | Setup.py:86-105 | an unnamed item checked against a page whose title element is empty stores the name "", which still counts as unset |

## Left out

- HTTP session, headers, the 10-second timeout and `raise_for_status`
  (`Setup.py:29-33`, `61-62`) are network I/O. Every failure of that kind
  becomes the `Unreachable` page.
- BeautifulSoup parsing and CSS selector matching (`Setup.py:64`, `76`, `86`)
  belong to a foreign library. A page is given as the lookup results, in
  the order of the selectors at `Setup.py:67-72`.
- Loading and saving `products.json` (`Setup.py:36-46`, `57`, `122`) are file
  I/O. The model's catalogue is a value that the scan returns.
- `time.time()` is supplied as the `now` of each visit.
- Logging (`Setup.py:18-25`, `92`, `111`, `117`, `120`) is output only.
- `threading.Timer` rescheduling (`Setup.py:124`) and `run` are scheduling.
  The model covers one scan cycle.
- The per-item exception handler (`Setup.py:119-120`) is not modelled. It
  fires for malformed records, such as a missing url or a non-numeric
  target or last price, which the typed record cannot express. It also
  fires when `alert_system` raises: `emailalert.py:18` sets the subject
  header from the product name outside its own `try`, and a name with a
  line break makes that assignment raise. Then no email goes out and the
  log line at `Setup.py:117` is skipped, but the model still emits the
  `Alert`. In both cases the record updates already made at
  `Setup.py:104-109` stand, as they do in the model.
- The example product that the entry point seeds into an empty catalogue
  (`Setup.py:134-139`) is start-up configuration.
- `alert_system` in `emailalert.py` is not modelled. SMTP delivery,
  credentials (a missing one makes it return without sending) and the
  message text are left out; the model records each call as an `Alert`.
- Text.IsDigit: accepts only the ASCII digits. Python's `str.isdigit`
  also accepts other Unicode digits, such as Devanagari digits and
  superscripts, which product pages do not use in prices.
- Decimal.ParseDecimal: gives the exact decimal value rather than the
  nearest IEEE double. It is defined only on strings of digits and points,
  which are the only strings `get_price` passes to `float`.
