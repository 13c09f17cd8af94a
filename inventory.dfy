/** `InventoryAlertSystem` of ai_service.py: stock alerts against the global
    thresholds 5 (critical) and 10 (low), and a restock-date estimate. */
module Inventory {
  import opened Common

  /** The `quantity` entry of an item: absent from the dictionary, present
      but None (the column is nullable), or a number of units. */
  datatype Quantity = Absent | Null | Units(n: int)

  /** An inventory item as passed in: its name when present, its quantity,
      and the item's own low-stock threshold, which the alerts ignore. */
  datatype Item = Item(name: Option<string>, quantity: Quantity, lowStockThreshold: Option<int>)

  datatype AlertType = Critical | Warning
  datatype Priority = High | Medium

  datatype Alert = Alert(kind: AlertType, item: string, quantity: int, message: string, priority: Priority)

  /** The value of a call, or the `TypeError` Python raises when it compares
      or divides None as a number. */
  datatype Outcome<T> = Done(value: T) | TypeError

  const LowStockThreshold := 10
  const CriticalThreshold := 5

  /** `item.get('quantity', 0)`, with None for a quantity stored as None. */
  function StockLevel(item: Item): Option<int> {
    match item.quantity
    case Absent => Some(0)
    case Null => None
    case Units(n) => Some(n)
  }

  /** `item.get('name', 'Unknown')`. */
  function ItemName(item: Item): string {
    item.name.GetOr("Unknown")
  }

  /** The alert that stock level q of the item called name raises, if any. */
  function LevelAlert(name: string, q: int): Option<Alert> {
    if q <= CriticalThreshold then
      Some(Alert(Critical, name, q, "CRITICAL: " + name + " is running very low (" + IntToString(q) + " remaining)", High))
    else if q <= LowStockThreshold then
      Some(Alert(Warning, name, q, "WARNING: " + name + " is running low (" + IntToString(q) + " remaining)", Medium))
    else None
  }

  /** What one item of `check_alerts` gives: its alert, if any, or the
      `TypeError` of comparing a None quantity with the threshold. */
  function AlertFor(item: Item): Outcome<Option<Alert>> {
    if StockLevel(item).None? then TypeError else Done(LevelAlert(ItemName(item), StockLevel(item).value))
  }

  function AsList(a: Option<Alert>): seq<Alert> {
    if a.Some? then [a.value] else []
  }

  /** The alerts of a list of items, in item order; one None quantity makes
      the whole call raise. */
  function Alerts(items: seq<Item>): Outcome<seq<Alert>> {
    if items == [] then Done([])
    else
      var front := Alerts(items[..|items| - 1]);
      var last := AlertFor(items[|items| - 1]);
      if front.TypeError? || last.TypeError? then TypeError else Done(front.value + AsList(last.value))
  }

  /** How severe an alert a stock level draws: 2 critical, 1 warning, 0 none. */
  function Severity(q: int): nat {
    if q <= CriticalThreshold then 2 else if q <= LowStockThreshold then 1 else 0
  }

  // ------------------------------------------------------------ lemmas

  /** One item's alert: a `TypeError` exactly when its quantity is None;
      otherwise critical with high priority at 5 or fewer, warning with
      medium priority from 6 to 10, none above 10; it names the item (or
      "Unknown") and carries its quantity (0 when the key is absent). */
  lemma AlertForSpec(item: Item)
    ensures AlertFor(item).TypeError? <==> item.quantity.Null?
    ensures AlertFor(item).Done? ==>
      var q := StockLevel(item).value;
      var r := AlertFor(item).value;
      && (item.quantity.Absent? ==> q == 0)
      && (item.quantity.Units? ==> q == item.quantity.n)
      && (r.Some? <==> q <= LowStockThreshold)
      && (r.Some? ==>
            && r.value.item == ItemName(item)
            && r.value.quantity == q
            && (r.value.kind == Critical <==> q <= CriticalThreshold)
            && (r.value.priority == High <==> r.value.kind == Critical)
            && (r.value.kind == Critical ==> "CRITICAL: " + r.value.item <= r.value.message)
            && (r.value.kind == Warning ==> "WARNING: " + r.value.item <= r.value.message))
      && Severity(q) == (if r.None? then 0 else if r.value.kind == Critical then 2 else 1)
  {
  }

  /** Lower stock never draws a milder alert. */
  lemma SeverityMonotone(q1: int, q2: int)
    requires q1 <= q2
    ensures Severity(q1) >= Severity(q2)
  {
  }

  /** The alerts of two lists one after the other are the alerts of each,
      in order; a None quantity in either makes the whole call raise. */
  lemma {:induction false} AlertsAppend(xs: seq<Item>, ys: seq<Item>)
    ensures Alerts(xs + ys) ==
      if Alerts(xs).Done? && Alerts(ys).Done? then Done(Alerts(xs).value + Alerts(ys).value) else TypeError
    decreases |ys|
  {
    if ys == [] {
      assert xs + ys == xs;
      if Alerts(xs).Done? {
        assert Alerts(xs).value + [] == Alerts(xs).value;
      }
    } else {
      var n := |ys| - 1;
      assert (xs + ys)[..|xs + ys| - 1] == xs + ys[..n];
      assert (xs + ys)[|xs + ys| - 1] == ys[n];
      AlertsAppend(xs, ys[..n]);
      var last := AlertFor(ys[n]);
      assert Alerts(xs + ys) == if Alerts(xs + ys[..n]).TypeError? || last.TypeError? then TypeError
        else Done(Alerts(xs + ys[..n]).value + AsList(last.value));
      assert Alerts(ys) == if Alerts(ys[..n]).TypeError? || last.TypeError? then TypeError
        else Done(Alerts(ys[..n]).value + AsList(last.value));
      if Alerts(xs).Done? && Alerts(ys).Done? {
        assert Alerts(xs).value + Alerts(ys[..n]).value + AsList(last.value)
          == Alerts(xs).value + (Alerts(ys[..n]).value + AsList(last.value));
      }
    }
  }

  /** `check_alerts` raises iff some item's quantity is None; otherwise it
      gives at most one alert per item, each that of one of the items. */
  lemma AlertsCount(items: seq<Item>)
    ensures Alerts(items).TypeError? <==> exists i :: 0 <= i < |items| && items[i].quantity.Null?
    ensures Alerts(items).Done? ==> |Alerts(items).value| <= |items|
    ensures Alerts(items).Done? ==>
      forall a :: a in Alerts(items).value ==> exists i :: 0 <= i < |items| && AlertFor(items[i]) == Done(Some(a))
  {
    AlertsRaise(items);
    AlertsFromItems(items);
  }

  /** The alerts raise iff some item's quantity is None. */
  lemma {:induction false} AlertsRaise(items: seq<Item>)
    ensures Alerts(items).TypeError? <==> exists i :: 0 <= i < |items| && items[i].quantity.Null?
  {
    if items != [] {
      var n := |items| - 1;
      var front := items[..n];
      AlertsRaise(front);
      AlertForSpec(items[n]);
      if exists i :: 0 <= i < |items| && items[i].quantity.Null? {
        var i :| 0 <= i < |items| && items[i].quantity.Null?;
        if i < n {
          assert front[i] == items[i];
        }
      }
      if Alerts(front).TypeError? {
        var i :| 0 <= i < n && front[i].quantity.Null?;
        assert items[i] == front[i];
      }
    }
  }

  /** Alerts that are computed number at most one per item, and each is the
      alert of one of the items. */
  lemma {:induction false} AlertsFromItems(items: seq<Item>)
    ensures Alerts(items).Done? ==> |Alerts(items).value| <= |items|
    ensures Alerts(items).Done? ==>
      forall a :: a in Alerts(items).value ==> exists i :: 0 <= i < |items| && AlertFor(items[i]) == Done(Some(a))
  {
    if items != [] {
      var n := |items| - 1;
      var front := items[..n];
      AlertsFromItems(front);
      if Alerts(items).Done? {
        forall a | a in Alerts(items).value ensures exists i :: 0 <= i < |items| && AlertFor(items[i]) == Done(Some(a)) {
          if a in Alerts(front).value {
            var i :| 0 <= i < n && AlertFor(front[i]) == Done(Some(a));
            assert items[i] == front[i];
          } else {
            assert AlertFor(items[n]) == Done(Some(a));
          }
        }
      }
    }
  }

  /** The per-item threshold is read but does not matter. */
  lemma ItemThresholdIgnored(item: Item, t: Option<int>)
    ensures AlertFor(item.(lowStockThreshold := t)) == AlertFor(item)
  {
  }

  /** `check_alerts`. */
  method CheckAlerts(items: seq<Item>) returns (r: Outcome<seq<Alert>>)
    ensures r == Alerts(items)
    ensures r.TypeError? <==> exists i :: 0 <= i < |items| && items[i].quantity.Null?
    ensures r.Done? ==> |r.value| <= |items|
    ensures r.Done? ==>
      forall a :: a in r.value ==> exists i :: 0 <= i < |items| && AlertFor(items[i]) == Done(Some(a))
  {
    AlertsCount(items);
    var alerts: seq<Alert> := [];
    for i := 0 to |items|
      invariant Alerts(items[..i]) == Done(alerts)
    {
      assert items[..i + 1][..i] == items[..i];
      var item := items[i];
      if item.quantity.Null? {
        return TypeError;
      }
      var stockLevel := if item.quantity.Units? then item.quantity.n else 0;
      var itemName := if item.name.Some? then item.name.value else "Unknown";
      ghost var before := alerts;
      assert AlertFor(item) == Done(LevelAlert(itemName, stockLevel));
      assert Alerts(items[..i + 1]) == Done(before + AsList(LevelAlert(itemName, stockLevel)));
      if stockLevel <= CriticalThreshold {
        alerts := alerts + [Alert(Critical, itemName, stockLevel,
          "CRITICAL: " + itemName + " is running very low (" + IntToString(stockLevel) + " remaining)", High)];
      } else if stockLevel <= LowStockThreshold {
        alerts := alerts + [Alert(Warning, itemName, stockLevel,
          "WARNING: " + itemName + " is running low (" + IntToString(stockLevel) + " remaining)", Medium)];
      }
      assert alerts == before + AsList(LevelAlert(itemName, stockLevel));
    }
    assert items[..|items|] == items;
    r := Done(alerts);
  }

  // ------------------------------------------------------------ restocking

  /** Python's `int(x)`: truncation toward zero. */
  function Truncate(x: real): int {
    if x >= 0.0 then x.Floor else -((-x).Floor)
  }

  /** `predict_restock_date`, as the number of days from now: none when the
      daily usage is not positive, else `int(quantity / daily_usage)`, which
      raises for a None quantity. */
  function RestockInDays(item: Item, dailyUsage: real): Outcome<Option<int>> {
    if dailyUsage <= 0.0 then Done(None)
    else if StockLevel(item).None? then TypeError
    else Done(Some(Truncate(StockLevel(item).value as real / dailyUsage)))
  }

  /** No estimate iff usage is not positive; with positive usage a None
      quantity raises; otherwise the estimate is the number of whole days
      the stock lasts, counted toward zero for negative stock. */
  lemma RestockSpec(item: Item, dailyUsage: real)
    ensures RestockInDays(item, dailyUsage) == Done(None) <==> dailyUsage <= 0.0
    ensures RestockInDays(item, dailyUsage).TypeError? <==> dailyUsage > 0.0 && item.quantity.Null?
    ensures RestockInDays(item, dailyUsage).Done? && RestockInDays(item, dailyUsage).value.Some? ==>
      var q := StockLevel(item).value;
      var d := RestockInDays(item, dailyUsage).value.value;
      && (q >= 0 ==> d >= 0 && d as real * dailyUsage <= q as real < (d + 1) as real * dailyUsage)
      && (q < 0 ==> d <= 0 && (-d) as real * dailyUsage <= (-q) as real < (-d + 1) as real * dailyUsage)
  {
    if dailyUsage > 0.0 && StockLevel(item).Some? {
      var q := StockLevel(item).value;
      assert RestockInDays(item, dailyUsage) == Done(Some(Truncate(q as real / dailyUsage)));
      if q >= 0 {
        WholeDays(q, dailyUsage);
      } else {
        NegativeDays(q, dailyUsage);
      }
    }
  }

  /** Negative stock: the estimate is minus the whole days of its size. */
  lemma NegativeDays(q: int, u: real)
    requires q < 0 && u > 0.0
    ensures var d := Truncate(q as real / u);
      d <= 0 && (-d) as real * u <= (-q) as real < (-d + 1) as real * u
  {
    WholeDays(-q, u);
    var x := q as real / u;
    assert -x == (-q) as real / u;
    assert x < 0.0;
  }

  /** For stock q >= 0 and usage u > 0, the whole days d = floor(q / u)
      satisfy d * u <= q < (d + 1) * u. */
  lemma WholeDays(q: int, u: real)
    requires q >= 0 && u > 0.0
    ensures var d := (q as real / u).Floor;
      d >= 0 && d as real * u <= q as real < (d + 1) as real * u
  {
    var x := q as real / u;
    assert x >= 0.0;
    var d := x.Floor;
    var lo, hi := d as real, (d + 1) as real;
    assert lo <= x < hi;
    MultiplyBounds(lo, x, hi, u, q as real);
  }

  lemma MultiplyBounds(lo: real, x: real, hi: real, u: real, p: real)
    requires u > 0.0 && lo <= x < hi && x == p / u
    ensures lo * u <= p < hi * u
  {
    assert x * u == p;
  }

  /** Ten units used two a day last five days; minus three units give
      minus one day (truncated toward zero); no usage, no estimate; a None
      quantity raises once usage is positive. */
  lemma RestockExamples()
    ensures RestockInDays(Item(Some("Gauze"), Units(10), None), 2.0) == Done(Some(5))
    ensures RestockInDays(Item(Some("Gauze"), Units(-3), None), 2.0) == Done(Some(-1))
    ensures RestockInDays(Item(Some("Gauze"), Units(10), None), 0.0) == Done(None)
    ensures RestockInDays(Item(Some("Gauze"), Null, None), 1.0) == TypeError
    ensures RestockInDays(Item(Some("Gauze"), Null, None), 0.0) == Done(None)
  {
    assert 10 as real / 2.0 == 5.0;
    assert (-3) as real / 2.0 == -1.5;
    assert (1.5).Floor == 1;
  }
}
