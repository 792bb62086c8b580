/** The catalogue of tracked products and the scan that `check_prices`
    runs over it. The clock and the network are inputs: each visit of an
    item brings the page that was fetched for it and the `time.time()`
    reading taken after the fetch. Sending the email is an output: the scan
    returns the alerts it raised, in the order it raised them. */
module Tracker {
  import opened Optional
  import opened Extraction

  /** One entry of `products.json`. */
  datatype Item = Item(
    url: string,
    targetPrice: real,
    name: Option<string>,
    lastChecked: Option<real>,
    lastPrice: Option<real>)

  /** A call of `alert_system(name, url, price)`. */
  datatype Alert = Alert(name: Option<string>, url: string, price: real)

  /** The outcome of one item's check: the updated record and the alert it
      raised, if any. */
  datatype Checked = Checked(item: Item, alert: Option<Alert>)

  /** What the scan learns about the item at one position. */
  datatype Visit = Visit(page: Page, now: real)

  /** `add_product(url, target_price, name)`: a new record with no
      observation yet, appended at the end of the catalogue. */
  function AddProduct(catalog: seq<Item>, url: string, targetPrice: real, name: Option<string>): (r: seq<Item>)
    ensures |r| == |catalog| + 1
    ensures r[..|catalog|] == catalog
    ensures r[|catalog|].url == url && r[|catalog|].targetPrice == targetPrice && r[|catalog|].name == name
    ensures r[|catalog|].lastChecked.None? && r[|catalog|].lastPrice.None?
  {
    catalog + [Item(url, targetPrice, name, None, None)]
  }

  /** The name counts as unset when it is missing or empty, so the page
      title replaces it (`Setup.py:104`). */
  predicate NameUnset(name: Option<string>) {
    name.None? || name.value == []
  }

  /** The alert rule: the price is at or below the target and either
      nothing was observed before or it is strictly below the previous
      observation. */
  predicate QualifyingDrop(previous: Option<real>, current: real, target: real) {
    current <= target && (previous.None? || current < previous.value)
  }

  /** One item's step of `check_prices`, given what `get_price` returned
      for it and the clock reading. */
  function CheckItem(item: Item, fetched: Fetched, now: real): (r: Checked)
    ensures r.item.url == item.url && r.item.targetPrice == item.targetPrice
    ensures fetched.price.None? ==> r.item == item && r.alert.None?
    ensures fetched.price.Some? ==> r.item.lastPrice == fetched.price && r.item.lastChecked == Some(now)
    ensures fetched.price.Some? && NameUnset(item.name) ==> r.item.name == fetched.title
    ensures fetched.price.Some? && !NameUnset(item.name) ==> r.item.name == item.name
    ensures r.alert.Some? <==>
              && fetched.price.Some?
              && fetched.price.value <= item.targetPrice
              && (item.lastPrice.None? || fetched.price.value < item.lastPrice.value)
    ensures r.alert.Some? ==> r.alert.value == Alert(r.item.name, item.url, fetched.price.value)
  {
    match fetched.price
    case None => Checked(item, None)
    case Some(current) =>
      var name := if NameUnset(item.name) then fetched.title else item.name;
      var updated := item.(name := name, lastChecked := Some(now), lastPrice := Some(current));
      var alert := if QualifyingDrop(item.lastPrice, current, item.targetPrice)
                   then Some(Alert(name, item.url, current))
                   else None;
      Checked(updated, alert)
  }

  /** Fetching an item's page and checking it. */
  function VisitItem(item: Item, visit: Visit): (r: Checked)
    ensures visit.page.Unreachable? ==> r == Checked(item, None)
    ensures r.item.url == item.url && r.item.targetPrice == item.targetPrice
    ensures r.item != item || r.alert.Some? ==> visit.page.Loaded? && r.item.lastChecked == Some(visit.now)
  {
    CheckItem(item, GetPrice(visit.page), visit.now)
  }

  /** The alert a check raised, as a list of zero or one alerts. */
  function Raised(c: Checked): seq<Alert> {
    if c.alert.Some? then [c.alert.value] else []
  }

  /** What a scan leaves behind: the updated catalogue and the alerts it
      raised, in the order it raised them. */
  datatype Scanned = Scanned(items: seq<Item>, alerts: seq<Alert>)

  /** The check of every item of the catalogue against its own visit, in
      catalogue order. */
  function Checks(catalog: seq<Item>, visits: seq<Visit>): (cs: seq<Checked>)
    requires |visits| == |catalog|
    ensures |cs| == |catalog|
    ensures forall i :: 0 <= i < |catalog| ==> cs[i] == VisitItem(catalog[i], visits[i])
    decreases |catalog|
  {
    if catalog == [] then []
    else
      var rest := Checks(catalog[1..], visits[1..]);
      assert forall i :: 1 <= i < |catalog| ==> catalog[1..][i - 1] == catalog[i] && visits[1..][i - 1] == visits[i];
      [VisitItem(catalog[0], visits[0])] + rest
  }

  /** The outcome of a sequence of checks run one after the other, defined
      by its last step: the updated items in order, and the alerts raised. */
  function Collect(checks: seq<Checked>): (r: Scanned)
    ensures |r.items| == |checks|
    ensures |r.alerts| <= |checks|
    decreases |checks|
  {
    if checks == [] then Scanned([], [])
    else
      var n := |checks| - 1;
      var s := Collect(checks[..n]);
      Scanned(s.items + [checks[n].item], s.alerts + Raised(checks[n]))
  }

  /** One scan of the catalogue, one visit per item. */
  function Scan(catalog: seq<Item>, visits: seq<Visit>): (r: Scanned)
    requires |visits| == |catalog|
    ensures |r.items| == |catalog|
    ensures |r.alerts| <= |catalog|
  {
    Collect(Checks(catalog, visits))
  }

  /** Each item a sequence of checks leaves is the item of its own check. */
  lemma {:induction false} CollectKeepsEachItem(checks: seq<Checked>)
    ensures forall i :: 0 <= i < |checks| ==> Collect(checks).items[i] == checks[i].item
    decreases |checks|
  {
    if checks != [] {
      var n := |checks| - 1;
      CollectKeepsEachItem(checks[..n]);
    }
  }

  /** The alerts of the first `m` checks are a prefix of the alerts of all. */
  lemma {:induction false} CollectAlertsExtend(checks: seq<Checked>, m: nat)
    requires m <= |checks|
    ensures Collect(checks[..m]).alerts <= Collect(checks).alerts
    decreases |checks|
  {
    if m < |checks| {
      var n := |checks| - 1;
      assert checks[..n][..m] == checks[..m];
      CollectAlertsExtend(checks[..n], m);
    } else {
      assert checks[..m] == checks;
    }
  }

  /** No alert of a check is lost. */
  lemma CollectRaisesEveryAlert(checks: seq<Checked>, i: nat)
    requires i < |checks| && checks[i].alert.Some?
    ensures checks[i].alert.value in Collect(checks).alerts
  {
    var front := checks[..i + 1];
    assert front[..i] == checks[..i];
    assert Collect(front).alerts == Collect(checks[..i]).alerts + [checks[i].alert.value];
    CollectAlertsExtend(checks, i + 1);
  }

  /** Every alert collected is the alert of one of the checks. */
  lemma {:induction false} CollectInventsNoAlert(checks: seq<Checked>)
    ensures forall a :: a in Collect(checks).alerts ==>
              exists i :: 0 <= i < |checks| && checks[i].alert == Some(a)
    decreases |checks|
  {
    if checks != [] {
      var n := |checks| - 1;
      CollectInventsNoAlert(checks[..n]);
      forall a | a in Collect(checks).alerts
        ensures exists i :: 0 <= i < |checks| && checks[i].alert == Some(a)
      {
        if a in Collect(checks[..n]).alerts {
          var i :| 0 <= i < n && checks[..n][i].alert == Some(a);
          assert checks[i] == checks[..n][i];
        } else {
          assert checks[n].alert == Some(a);
        }
      }
    }
  }

  /** Checks that raise nothing collect no alert. */
  lemma {:induction false} CollectQuietChecks(checks: seq<Checked>)
    requires forall i :: 0 <= i < |checks| ==> checks[i].alert.None?
    ensures Collect(checks).alerts == []
    decreases |checks|
  {
    if checks != [] {
      CollectQuietChecks(checks[..|checks| - 1]);
    }
  }

  /** The number of checks that call for an email. */
  function CountFired(checks: seq<Checked>): (n: nat)
    ensures n <= |checks|
    decreases |checks|
  {
    if checks == [] then 0
    else
      var n := |checks| - 1;
      CountFired(checks[..n]) + if checks[n].alert.Some? then 1 else 0
  }

  /** The number of checks whose email is exactly `a`. */
  function CountAlert(checks: seq<Checked>, a: Alert): (n: nat)
    ensures n <= CountFired(checks)
    decreases |checks|
  {
    if checks == [] then 0
    else
      var n := |checks| - 1;
      CountAlert(checks[..n], a) + if checks[n].alert == Some(a) then 1 else 0
  }

  /** A run of checks sends exactly one email per check that calls for one. */
  lemma {:induction false} CollectAlertCount(checks: seq<Checked>)
    ensures |Collect(checks).alerts| == CountFired(checks)
    decreases |checks|
  {
    if checks != [] {
      CollectAlertCount(checks[..|checks| - 1]);
    }
  }

  /** Each email occurs among the collected alerts exactly as often as
      there are checks that call for it. */
  lemma {:induction false} CollectAlertMultiplicity(checks: seq<Checked>, a: Alert)
    ensures multiset(Collect(checks).alerts)[a] == CountAlert(checks, a)
    decreases |checks|
  {
    if checks != [] {
      var n := |checks| - 1;
      var front, c := Collect(checks[..n]).alerts, checks[n];
      CollectAlertMultiplicity(checks[..n], a);
      assert multiset(front + Raised(c)) == multiset(front) + multiset(Raised(c));
    }
  }

  /** Each record a scan returns is its own item's check. */
  lemma ScanChecksEachItem(catalog: seq<Item>, visits: seq<Visit>)
    requires |visits| == |catalog|
    ensures forall i :: 0 <= i < |catalog| ==> Scan(catalog, visits).items[i] == VisitItem(catalog[i], visits[i]).item
  {
    CollectKeepsEachItem(Checks(catalog, visits));
  }

  /** One run of `check_prices` over the whole catalogue: every item is
      visited once, in order, and updated by its own check; nothing is
      added, removed or reordered. */
  method CheckPrices(catalog: seq<Item>, visits: seq<Visit>) returns (next: seq<Item>, alerts: seq<Alert>)
    requires |visits| == |catalog|
    ensures |next| == |catalog|
    ensures forall i :: 0 <= i < |catalog| ==> next[i] == VisitItem(catalog[i], visits[i]).item
    ensures Scanned(next, alerts) == Scan(catalog, visits)
  {
    ghost var checks := Checks(catalog, visits);
    next, alerts := [], [];
    var i := 0;
    while i < |catalog|
      invariant 0 <= i <= |catalog|
      invariant Scanned(next, alerts) == Collect(checks[..i])
    {
      var c := VisitItem(catalog[i], visits[i]);
      assert checks[..i + 1][..i] == checks[..i] && checks[..i + 1][i] == c;
      next := next + [c.item];
      alerts := alerts + Raised(c);
      i := i + 1;
    }
    assert checks[..i] == checks;
    ScanChecksEachItem(catalog, visits);
  }
}
