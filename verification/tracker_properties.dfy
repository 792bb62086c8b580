/** What repeated checks of one tracked item, and one scan of the whole
    catalogue, guarantee. */
module TrackerProperties {
  import opened Optional
  import opened Extraction
  import opened Tracker

  /** One check of an item: what `get_price` returned and the clock reading. */
  datatype Observation = Observation(fetched: Fetched, now: real)

  /** The item after a series of checks, one per scan cycle. */
  function Replay(item: Item, obs: seq<Observation>): Item
    decreases |obs|
  {
    if obs == [] then item
    else Replay(CheckItem(item, obs[0].fetched, obs[0].now).item, obs[1..])
  }

  /** The number of emails a series of checks sends. */
  function AlertCount(item: Item, obs: seq<Observation>): nat
    decreases |obs|
  {
    if obs == [] then 0
    else
      var c := CheckItem(item, obs[0].fetched, obs[0].now);
      (if c.alert.Some? then 1 else 0) + AlertCount(c.item, obs[1..])
  }

  /** No series of checks changes an item's url or target price. */
  lemma {:induction false} ReplayKeepsIdentity(item: Item, obs: seq<Observation>)
    ensures Replay(item, obs).url == item.url
    ensures Replay(item, obs).targetPrice == item.targetPrice
    decreases |obs|
  {
    if obs != [] {
      ReplayKeepsIdentity(CheckItem(item, obs[0].fetched, obs[0].now).item, obs[1..]);
    }
  }

  /** A name that is set and non-empty is never replaced by a page title. */
  lemma {:induction false} ReplayKeepsSetName(item: Item, obs: seq<Observation>)
    requires !NameUnset(item.name)
    ensures Replay(item, obs).name == item.name
    decreases |obs|
  {
    if obs != [] {
      ReplayKeepsSetName(CheckItem(item, obs[0].fetched, obs[0].now).item, obs[1..]);
    }
  }

  /** Checks whose fetch produced no price leave the item exactly as it was
      and send nothing, however many of them there are. */
  lemma {:induction false} FailedChecksChangeNothing(item: Item, obs: seq<Observation>)
    requires forall i :: 0 <= i < |obs| ==> obs[i].fetched.price.None?
    ensures Replay(item, obs) == item
    ensures AlertCount(item, obs) == 0
    decreases |obs|
  {
    if obs != [] {
      assert obs[0].fetched.price.None?;
      assert forall i :: 0 <= i < |obs| - 1 ==> obs[1..][i] == obs[i + 1];
      FailedChecksChangeNothing(item, obs[1..]);
    }
  }

  /** After a series of checks, the stored price and check time are those
      of the last check that produced a price. */
  lemma {:induction false} ReplayRemembersLastPrice(item: Item, obs: seq<Observation>, k: nat)
    requires k < |obs| && obs[k].fetched.price.Some?
    requires forall i :: k < i < |obs| ==> obs[i].fetched.price.None?
    ensures Replay(item, obs).lastPrice == obs[k].fetched.price
    ensures Replay(item, obs).lastChecked == Some(obs[k].now)
    decreases |obs|
  {
    var next := CheckItem(item, obs[0].fetched, obs[0].now).item;
    if k == 0 {
      assert forall i :: 0 <= i < |obs| - 1 ==> obs[1..][i] == obs[i + 1];
      FailedChecksChangeNothing(next, obs[1..]);
    } else {
      ReplayRemembersLastPrice(next, obs[1..], k - 1);
    }
  }

  /** Once an item has been seen at price `p`, further checks that all see
      `p` again never send an email. */
  lemma {:induction false} SamePriceNeverAlerts(item: Item, obs: seq<Observation>, p: real)
    requires item.lastPrice == Some(p)
    requires forall i :: 0 <= i < |obs| ==> obs[i].fetched.price == Some(p)
    ensures AlertCount(item, obs) == 0
    decreases |obs|
  {
    if obs != [] {
      assert obs[0].fetched.price == Some(p);
      assert forall i :: 0 <= i < |obs| - 1 ==> obs[1..][i] == obs[i + 1];
      SamePriceNeverAlerts(CheckItem(item, obs[0].fetched, obs[0].now).item, obs[1..], p);
    }
  }

  /** A price that stays flat below the target is reported once, not on
      every cycle: a series of checks that all see `p` sends one email if
      the first of them qualifies and none otherwise. */
  lemma FlatPriceAlertsAtMostOnce(item: Item, obs: seq<Observation>, p: real)
    requires obs != []
    requires forall i :: 0 <= i < |obs| ==> obs[i].fetched.price == Some(p)
    ensures AlertCount(item, obs) == if QualifyingDrop(item.lastPrice, p, item.targetPrice) then 1 else 0
  {
    assert obs[0].fetched.price == Some(p);
    assert forall i :: 0 <= i < |obs| - 1 ==> obs[1..][i] == obs[i + 1];
    SamePriceNeverAlerts(CheckItem(item, obs[0].fetched, obs[0].now).item, obs[1..], p);
  }

  /** Prices that keep falling while at or below the target are reported at
      every fall. */
  lemma {:induction false} FallingPricesAlertEachTime(item: Item, obs: seq<Observation>)
    requires forall i :: 0 <= i < |obs| ==> obs[i].fetched.price.Some?
    requires forall i :: 0 <= i < |obs| ==> obs[i].fetched.price.value <= item.targetPrice
    requires forall i :: 0 < i < |obs| ==> obs[i].fetched.price.value < obs[i - 1].fetched.price.value
    requires obs != [] && item.lastPrice.Some? ==> obs[0].fetched.price.value < item.lastPrice.value
    ensures AlertCount(item, obs) == |obs|
    decreases |obs|
  {
    if obs != [] {
      var next := CheckItem(item, obs[0].fetched, obs[0].now).item;
      var rest := obs[1..];
      assert forall i :: 0 <= i < |rest| ==> rest[i] == obs[i + 1];
      assert rest != [] ==> rest[0].fetched.price.value < next.lastPrice.value;
      FallingPricesAlertEachTime(next, rest);
    }
  }

  /** The rule compares with the previous observation, not with the last
      price that was reported: a price that rises and then returns to a
      value already reported is reported again. */
  lemma ReboundIsReportedAgain(item: Item, high: Observation, back: Observation)
    requires item.lastPrice.Some? && item.lastPrice.value <= item.targetPrice
    requires high.fetched.price.Some? && high.fetched.price.value > item.lastPrice.value
    requires back.fetched.price == item.lastPrice
    ensures CheckItem(item, high.fetched, high.now).alert.None?
    ensures CheckItem(CheckItem(item, high.fetched, high.now).item, back.fetched, back.now).alert.Some?
  {
  }

  /** A product just added has no previous price, so its first successful
      check sends an email exactly when the price is at or below target. */
  lemma FirstCheckOfNewProduct(catalog: seq<Item>, url: string, target: real, name: Option<string>,
                               fetched: Fetched, now: real)
    requires fetched.price.Some?
    ensures var item := AddProduct(catalog, url, target, name)[|catalog|];
            CheckItem(item, fetched, now).alert.Some? <==> fetched.price.value <= target
  {
  }

  /** The two single-item scenarios of the alert rule with a target of
      1000: a first observation of 999 is reported with that price, and a
      second observation of 999 is not. */
  lemma TargetThousandScenario(url: string, t1: real, t2: real)
    ensures var added := Item(url, 1000.0, None, None, None);
            var first := CheckItem(added, Fetched(Some(999.0), Some("Boat Rockerz 255 Pro")), t1);
            && first.alert == Some(Alert(Some("Boat Rockerz 255 Pro"), url, 999.0))
            && first.item.lastPrice == Some(999.0)
            && CheckItem(first.item, Fetched(Some(999.0), Some("Boat Rockerz 255 Pro")), t2).alert.None?
  {
  }

  /** An item without a name takes the title of the first page that yields
      a price: the stripped title element text, or "Unknown Product". */
  lemma NameAdoptedFromPage(item: Item, visit: Visit)
    requires NameUnset(item.name)
    requires GetPrice(visit.page).price.Some?
    ensures visit.page.Loaded?
    ensures VisitItem(item, visit).item.name == Some(Title(visit.page.titleText))
  {
  }

  /** A scan in which no page could be fetched leaves the catalogue as it
      was and sends nothing. */
  lemma UnreachableScanChangesNothing(catalog: seq<Item>, visits: seq<Visit>)
    requires |visits| == |catalog|
    requires forall i :: 0 <= i < |visits| ==> visits[i].page.Unreachable?
    ensures Scan(catalog, visits) == Scanned(catalog, [])
  {
    var checks := Checks(catalog, visits);
    assert forall i :: 0 <= i < |checks| ==> checks[i] == Checked(catalog[i], None);
    CollectKeepsEachItem(checks);
    CollectQuietChecks(checks);
    assert Collect(checks).items == catalog;
  }

  /** Every email a scan sends is for an item of the catalogue, at a price
      no higher than that item's target. */
  lemma ScanAlertsAreQualified(catalog: seq<Item>, visits: seq<Visit>)
    requires |visits| == |catalog|
    ensures forall a :: a in Scan(catalog, visits).alerts ==>
              exists i :: 0 <= i < |catalog| && catalog[i].url == a.url && a.price <= catalog[i].targetPrice
  {
    ScanAlertsComeFromChecks(catalog, visits);
  }

  /** Every check of a scan that calls for an email has its email sent:
      the scan drops no alert. */
  lemma ScanRaisesEveryAlert(catalog: seq<Item>, visits: seq<Visit>, i: nat)
    requires |visits| == |catalog| && i < |catalog|
    requires VisitItem(catalog[i], visits[i]).alert.Some?
    ensures VisitItem(catalog[i], visits[i]).alert.value in Scan(catalog, visits).alerts
  {
    CollectRaisesEveryAlert(Checks(catalog, visits), i);
  }

  /** Conversely, every email a scan sends is the alert of one of its
      checks: the scan invents no alert. */
  lemma ScanAlertsComeFromChecks(catalog: seq<Item>, visits: seq<Visit>)
    requires |visits| == |catalog|
    ensures forall a :: a in Scan(catalog, visits).alerts ==>
              exists i :: 0 <= i < |catalog| && VisitItem(catalog[i], visits[i]).alert == Some(a)
  {
    CollectInventsNoAlert(Checks(catalog, visits));
  }

  /** A scan sends exactly one email per item whose check calls for one,
      and each email as often as there are items whose check calls for it. */
  lemma ScanAlertCount(catalog: seq<Item>, visits: seq<Visit>)
    requires |visits| == |catalog|
    ensures |Scan(catalog, visits).alerts| == CountFired(Checks(catalog, visits))
    ensures forall a :: multiset(Scan(catalog, visits).alerts)[a] == CountAlert(Checks(catalog, visits), a)
  {
    CollectAlertCount(Checks(catalog, visits));
    forall a ensures multiset(Scan(catalog, visits).alerts)[a] == CountAlert(Checks(catalog, visits), a) {
      CollectAlertMultiplicity(Checks(catalog, visits), a);
    }
  }

  /** A product page whose title element is present but empty gives the
      title "", and an unnamed item that adopts it stays unnamed, so the
      next priced check offers it a title again. */
  lemma EmptyTitleKeepsNameUnset(item: Item, visit: Visit)
    requires NameUnset(item.name)
    requires visit.page.Loaded? && visit.page.titleText == Some("")
    requires GetPrice(visit.page).price.Some?
    ensures VisitItem(item, visit).item.name == Some("")
    ensures NameUnset(VisitItem(item, visit).item.name)
  {
    assert Title(Some("")) == "";
  }
}
