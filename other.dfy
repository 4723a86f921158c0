/** src/models/other.rs: canonical time slots, orders, logs, regions and cities. */
module Other {
  import opened Common
  import opened Tables

  // ------------------------------------------------------------------ times

  /** The lookup `times.filter(time.eq(t)).first().is_ok()`: some row holds
      exactly `t`. */
  predicate HasTime(times: seq<Time>, t: Timestamp)
  {
    exists i :: 0 <= i < |times| && times[i].time == t
  }

  /** The `time` column of the table, in storage order. */
  function TimeValues(times: seq<Time>): (r: seq<Timestamp>)
    ensures |r| == |times|
    ensures forall i :: 0 <= i < |times| ==> r[i] == times[i].time
  {
    seq(|times|, i requires 0 <= i < |times| => times[i].time)
  }

  /** `Time::get_all`: the stored times, ascending, each as often as it is
      stored. */
  function AllTimes(times: seq<Time>): (r: seq<Timestamp>)
    ensures Ascending(r)
    ensures multiset(r) == multiset(TimeValues(times))
    ensures forall t :: t in r <==> HasTime(times, t)
  {
    var r := SortAscending(TimeValues(times));
    assert forall t :: t in r <==> t in TimeValues(times) by {
      forall t ensures t in r <==> t in TimeValues(times) {
        assert t in r <==> t in multiset(r);
        assert t in TimeValues(times) <==> t in multiset(TimeValues(times));
      }
    }
    assert forall t :: t in TimeValues(times) ==> HasTime(times, t) by {
      forall t | t in TimeValues(times) ensures HasTime(times, t) {
        var i :| 0 <= i < |times| && TimeValues(times)[i] == t;
      }
    }
    assert forall t :: HasTime(times, t) ==> t in TimeValues(times) by {
      forall t | HasTime(times, t) ensures t in TimeValues(times) {
        var i :| 0 <= i < |times| && times[i].time == t;
        assert TimeValues(times)[i] == t;
      }
    }
    r
  }

  /** `Time::create`: refuses (0) a time that is already stored, otherwise
      stores it unshifted and reports 1. */
  method CreateTime(db: Database, t: Timestamp, id: Id) returns (r: int)
    modifies db`times
    ensures r == (if HasTime(old(db.times), t) then 0 else 1)
    ensures r == 0 ==> db.times == old(db.times)
    ensures r == 1 ==> db.times == old(db.times) + [Time(id, t)]
    ensures HasTime(db.times, t)
  {
    if HasTime(db.times, t) {
      return 0;
    }
    db.times := db.times + [Time(id, t)];
    assert db.times[|db.times| - 1] == Time(id, t);
    return 1;
  }

  /** `Time::create` is idempotent: a second call with the same time reports 0
      and leaves the table as the first call left it. */
  method CreateTimeTwice(db: Database, t: Timestamp, firstId: Id, secondId: Id) returns (first: int, second: int)
    modifies db`times
    ensures second == 0
    ensures first == (if HasTime(old(db.times), t) then 0 else 1)
    ensures db.times == if first == 0 then old(db.times) else old(db.times) + [Time(firstId, t)]
  {
    first := CreateTime(db, t, firstId);
    second := CreateTime(db, t, secondId);
  }

  /** The find-or-create step that `Order::create` and `Event::create` run for
      each submitted time: the lookup asks for the parsed value, and on a miss
      the inserted row holds that value shifted by three hours. */
  function TimeSlot(times: seq<Time>, parsed: Timestamp, id: Id): seq<Time>
  {
    if HasTime(times, parsed) then times else times + [Time(id, parsed + ThreeHours)]
  }

  /** The find-or-create step on the database. */
  method StoreSlot(db: Database, parsed: Timestamp, id: Id)
    modifies db`times
    ensures db.times == TimeSlot(old(db.times), parsed, id)
  {
    if !HasTime(db.times, parsed) {
      db.times := db.times + [Time(id, parsed + ThreeHours)];
    }
  }

  /** Because the lookup and the insert disagree by three hours, the step never
      stores the value it looks up: a miss stays a miss, and repeating the step
      for the same time inserts a second row. */
  lemma TimeSlotMissRepeats(times: seq<Time>, parsed: Timestamp, id1: Id, id2: Id)
    requires !HasTime(times, parsed)
    ensures !HasTime(TimeSlot(times, parsed, id1), parsed)
    ensures TimeSlot(TimeSlot(times, parsed, id1), parsed, id2)
         == times + [Time(id1, parsed + ThreeHours), Time(id2, parsed + ThreeHours)]
  {
  }

  // ----------------------------------------------------------------- orders

  /** One submitted order (`OrderJson`). */
  datatype OrderJson = OrderJson(
    title: string,
    placeId: Id,
    objectId: Id,
    eventId: Option<string>,
    price: int,
    timeStart: string,
    timeEnd: string)

  /** The fresh uuids one submitted item may draw: one per time row it might
      insert and one for the order. */
  datatype ItemUuids = ItemUuids(startTime: Id, endTime: Id, order: Id)

  /** Every submitted time matches "%Y-%m-%d %H:%M:%S" (otherwise `unwrap`
      panics). */
  predicate TimesParse(parseTime: Parser, form: seq<OrderJson>)
  {
    forall i :: 0 <= i < |form| ==> parseTime(form[i].timeStart).Some? && parseTime(form[i].timeEnd).Some?
  }

  /** The order row `Order::create` writes for one submitted item. */
  function PlacedOrder(userId: Id, item: OrderJson, u: ItemUuids, now: Timestamp): Order
  {
    Order(u.order, item.title, 1, item.placeId, item.objectId, item.eventId,
          now, userId, item.price, item.timeStart, item.timeEnd)
  }

  /** The orders `Order::create` writes, one per submitted item, in list order:
      each carries the item's fields verbatim, its own fresh id, the caller as
      owner, type 1 and the request time. */
  function PlacedOrders(userId: Id, form: seq<OrderJson>, uuids: seq<ItemUuids>, now: Timestamp): (r: seq<Order>)
    requires |uuids| == |form|
    ensures |r| == |form|
    ensures forall i :: 0 <= i < |form| ==>
      && r[i].id == uuids[i].order
      && r[i].userId == userId
      && r[i].types == 1
      && r[i].created == now
      && r[i].title == form[i].title
      && r[i].placeId == form[i].placeId
      && r[i].objectId == form[i].objectId
      && r[i].eventId == form[i].eventId
      && r[i].price == form[i].price
      && r[i].timeStart == form[i].timeStart
      && r[i].timeEnd == form[i].timeEnd
  {
    seq(|form|, i requires 0 <= i < |form| => PlacedOrder(userId, form[i], uuids[i], now))
  }

  /** The parsed start and end of one submitted item. */
  datatype Slot = Slot(start: Timestamp, end: Timestamp)

  /** What `parse_from_str(..).unwrap()` yields for each item's start and end. */
  function ParsedSlots(parseTime: Parser, form: seq<OrderJson>): (r: seq<Slot>)
    requires TimesParse(parseTime, form)
    ensures |r| == |form|
    ensures forall i :: 0 <= i < |form| ==>
      r[i] == Slot(parseTime(form[i].timeStart).value, parseTime(form[i].timeEnd).value)
  {
    seq(|form|, i requires 0 <= i < |form| =>
      Slot(parseTime(form[i].timeStart).value, parseTime(form[i].timeEnd).value))
  }

  /** The times table after `Order::create` has run the find-or-create step for
      the start and then the end of every item, in list order. */
  function SlotsAfter(times: seq<Time>, slots: seq<Slot>, uuids: seq<ItemUuids>): (r: seq<Time>)
    requires |uuids| == |slots|
    ensures times <= r
    ensures |r| <= |times| + 2 * |slots|
  {
    if slots == [] then times
    else
      var n := |slots| - 1;
      TimeSlot(TimeSlot(SlotsAfter(times, slots[..n], uuids[..n]), slots[n].start, uuids[n].startTime),
               slots[n].end, uuids[n].endTime)
  }

  /** `row` is what the find-or-create steps of item `i` add: its shifted start
      under its start uuid when the start was missing from the table that
      lookup read, or its shifted end under its end uuid when the end was
      missing from the table that lookup read. */
  ghost predicate AddedFor(times: seq<Time>, slots: seq<Slot>, uuids: seq<ItemUuids>, i: int, row: Time)
    requires |uuids| == |slots| && 0 <= i < |slots|
  {
    var before := SlotsAfter(times, slots[..i], uuids[..i]);
    || (row == Time(uuids[i].startTime, slots[i].start + ThreeHours) && !HasTime(before, slots[i].start))
    || (row == Time(uuids[i].endTime, slots[i].end + ThreeHours)
        && !HasTime(TimeSlot(before, slots[i].start, uuids[i].startTime), slots[i].end))
  }

  /** What item `i` adds does not depend on the items after it. */
  lemma AddedForPrefix(times: seq<Time>, slots: seq<Slot>, uuids: seq<ItemUuids>, n: int, i: int, row: Time)
    requires |uuids| == |slots| && 0 <= i < n <= |slots|
    requires AddedFor(times, slots[..n], uuids[..n], i, row)
    ensures AddedFor(times, slots, uuids, i, row)
  {
    assert slots[..n][..i] == slots[..i] && uuids[..n][..i] == uuids[..i];
    assert slots[..n][i] == slots[i] && uuids[..n][i] == uuids[i];
  }

  /** Every row `Order::create` adds to the times table is added by the
      find-or-create step of some item, for a value that was missing from the
      table its lookup read. */
  lemma {:induction false} SlotsAfterRowsFromItems(times: seq<Time>, slots: seq<Slot>, uuids: seq<ItemUuids>, k: int)
    requires |uuids| == |slots|
    requires |times| <= k < |SlotsAfter(times, slots, uuids)|
    ensures exists i :: 0 <= i < |slots| && AddedFor(times, slots, uuids, i, SlotsAfter(times, slots, uuids)[k])
  {
    var n := |slots| - 1;
    var before := SlotsAfter(times, slots[..n], uuids[..n]);
    var mid := TimeSlot(before, slots[n].start, uuids[n].startTime);
    var r := SlotsAfter(times, slots, uuids);
    assert r == TimeSlot(mid, slots[n].end, uuids[n].endTime);
    if k < |before| {
      SlotsAfterRowsFromItems(times, slots[..n], uuids[..n], k);
      var i :| 0 <= i < n && AddedFor(times, slots[..n], uuids[..n], i, before[k]);
      assert r[k] == before[k];
      AddedForPrefix(times, slots, uuids, n, i, r[k]);
    } else if k < |mid| {
      assert r[k] == Time(uuids[n].startTime, slots[n].start + ThreeHours);
      assert AddedFor(times, slots, uuids, n, r[k]);
    } else {
      assert r[k] == Time(uuids[n].endTime, slots[n].end + ThreeHours);
      assert AddedFor(times, slots, uuids, n, r[k]);
    }
  }

  /** One more item of `Order::create`: its start, then its end, go through the
      find-or-create step. */
  lemma SlotsAfterStep(times: seq<Time>, slots: seq<Slot>, uuids: seq<ItemUuids>, k: nat)
    requires |uuids| == |slots| && k < |slots|
    ensures SlotsAfter(times, slots[..k + 1], uuids[..k + 1])
         == TimeSlot(TimeSlot(SlotsAfter(times, slots[..k], uuids[..k]), slots[k].start, uuids[k].startTime),
                     slots[k].end, uuids[k].endTime)
  {
    assert slots[..k + 1][..k] == slots[..k];
    assert uuids[..k + 1][..k] == uuids[..k];
  }

  /** One more pass of the `Order::create` loop appends that item's order. */
  lemma PlacedOrdersStep(orders0: seq<Order>, userId: Id, form: seq<OrderJson>, uuids: seq<ItemUuids>,
                         now: Timestamp, k: nat)
    requires |uuids| == |form| && k < |form|
    ensures (orders0 + PlacedOrders(userId, form[..k], uuids[..k], now)) + [PlacedOrder(userId, form[k], uuids[k], now)]
         == orders0 + PlacedOrders(userId, form[..k + 1], uuids[..k + 1], now)
  {
    assert PlacedOrders(userId, form[..k + 1], uuids[..k + 1], now)
        == PlacedOrders(userId, form[..k], uuids[..k], now) + [PlacedOrder(userId, form[k], uuids[k], now)];
  }

  /** When every submitted time is already stored, `Order::create` adds no
      time row. */
  lemma {:induction false} SlotsAfterAllStored(times: seq<Time>, slots: seq<Slot>, uuids: seq<ItemUuids>)
    requires |uuids| == |slots|
    requires forall i :: 0 <= i < |slots| ==> HasTime(times, slots[i].start) && HasTime(times, slots[i].end)
    ensures SlotsAfter(times, slots, uuids) == times
  {
    if slots != [] {
      var n := |slots| - 1;
      SlotsAfterAllStored(times, slots[..n], uuids[..n]);
    }
  }

  /** `Order::create`: for each submitted item, in list order, find-or-create
      both times, then write the order stamped with the caller's id. Always 1. */
  method CreateOrders(db: Database, userId: Id, form: seq<OrderJson>, parseTime: Parser,
                      uuids: seq<ItemUuids>, now: Timestamp) returns (r: int)
    requires |uuids| == |form|
    requires TimesParse(parseTime, form)
    modifies db`times, db`orders
    ensures r == 1
    ensures db.orders == old(db.orders) + PlacedOrders(userId, form, uuids, now)
    ensures db.times == SlotsAfter(old(db.times), ParsedSlots(parseTime, form), uuids)
  {
    var slots := ParsedSlots(parseTime, form);
    ghost var times0, orders0 := db.times, db.orders;
    var k := 0;
    assert form[..0] == [] && slots[..0] == [] && uuids[..0] == [];
    while k < |form|
      invariant 0 <= k <= |form|
      invariant db.orders == orders0 + PlacedOrders(userId, form[..k], uuids[..k], now)
      invariant db.times == SlotsAfter(times0, slots[..k], uuids[..k])
    {
      PlaceItem(db, userId, form[k], slots[k], uuids[k], now);
      SlotsAfterStep(times0, slots, uuids, k);
      PlacedOrdersStep(orders0, userId, form, uuids, now, k);
      k := k + 1;
    }
    assert form[..k] == form && slots[..k] == slots && uuids[..k] == uuids;
    return 1;
  }

  /** One pass of the `Order::create` loop: find-or-create the start, then the
      end, then write the order. */
  method PlaceItem(db: Database, userId: Id, item: OrderJson, slot: Slot, u: ItemUuids, now: Timestamp)
    modifies db`times, db`orders
    ensures db.times == TimeSlot(TimeSlot(old(db.times), slot.start, u.startTime), slot.end, u.endTime)
    ensures db.orders == old(db.orders) + [PlacedOrder(userId, item, u, now)]
  {
    StoreSlot(db, slot.start, u.startTime);
    StoreSlot(db, slot.end, u.endTime);
    var order := Order(u.order, item.title, 1, item.placeId, item.objectId,
                       item.eventId, now, userId, item.price, item.timeStart, item.timeEnd);
    db.orders := db.orders + [order];
  }

  /** The orders left after `Order::delete`: a row goes exactly when it belongs
      to the caller and its id is listed. */
  function OrdersAfterDelete(orders: seq<Order>, userId: Id, ids: seq<Id>): (r: seq<Order>)
    ensures forall o :: o in r <==> o in orders && !(o.userId == userId && o.id in ids)
    ensures forall o :: multiset(r)[o] == if o.userId == userId && o.id in ids then 0 else multiset(orders)[o]
  {
    Filter(orders, Survives(userId, ids))
  }

  /** The row test of `Order::delete`: rows that stay. */
  function Survives(userId: Id, ids: seq<Id>): Order -> bool
  {
    (o: Order) => !(o.userId == userId && o.id in ids)
  }

  /** The ids `Order::create` gives the orders it writes. */
  function PlacedIds(uuids: seq<ItemUuids>): (r: seq<Id>)
    ensures |r| == |uuids| && forall i :: 0 <= i < |uuids| ==> r[i] == uuids[i].order
  {
    seq(|uuids|, i requires 0 <= i < |uuids| => uuids[i].order)
  }

  /** Deleting, by their ids, the orders one `Order::create` call just wrote
      removes all of them and leaves the table as deleting those ids would
      have left it before the call. */
  lemma DeletePlacedOrders(orders: seq<Order>, userId: Id, form: seq<OrderJson>, uuids: seq<ItemUuids>, now: Timestamp)
    requires |uuids| == |form|
    ensures OrdersAfterDelete(orders + PlacedOrders(userId, form, uuids, now), userId, PlacedIds(uuids))
         == OrdersAfterDelete(orders, userId, PlacedIds(uuids))
  {
    var placed := PlacedOrders(userId, form, uuids, now);
    var keep := Survives(userId, PlacedIds(uuids));
    FilterAppend(orders, placed, keep);
    forall i | 0 <= i < |placed| ensures !keep(placed[i]) {
      assert PlacedIds(uuids)[i] == placed[i].id;
    }
    FilterNone(placed, keep);
  }

  /** `Order::delete`: removes the caller's listed orders. Always 1. */
  method DeleteOrders(db: Database, userId: Id, ids: seq<Id>) returns (r: int)
    modifies db`orders
    ensures r == 1
    ensures db.orders == OrdersAfterDelete(old(db.orders), userId, ids)
  {
    db.orders := OrdersAfterDelete(db.orders, userId, ids);
    return 1;
  }

  /** `Order::get_for_place` */
  function OrdersForPlace(orders: seq<Order>, placeId: Id): (r: seq<Order>)
    ensures forall o :: o in r <==> o in orders && o.placeId == placeId
  {
    Filter(orders, (o: Order) => o.placeId == placeId)
  }

  /** `ORDER BY created DESC` */
  ghost predicate NewestFirst(s: seq<Order>)
  {
    forall i, j :: 0 <= i < j < |s| ==> s[i].created >= s[j].created
  }

  /** Every row of a permutation of `s` plus `o` is no newer than `top` when
      every row of `s` and `o` itself are not. */
  lemma NoNewerThan(rest: seq<Order>, s: seq<Order>, o: Order, top: Timestamp)
    requires multiset(rest) == multiset(s) + multiset{o}
    requires forall k :: 0 <= k < |s| ==> s[k].created <= top
    requires o.created <= top
    ensures forall k :: 0 <= k < |rest| ==> rest[k].created <= top
  {
    forall k | 0 <= k < |rest| ensures rest[k].created <= top {
      assert rest[k] in multiset(rest);
      if rest[k] != o {
        assert rest[k] in multiset(s);
        var i :| 0 <= i < |s| && s[i] == rest[k];
      }
    }
  }

  /** An order no older than any of a newest-first sequence can go in front. */
  lemma ConsNewestFirst(h: Order, s: seq<Order>)
    requires NewestFirst(s)
    requires forall k :: 0 <= k < |s| ==> s[k].created <= h.created
    ensures NewestFirst([h] + s)
  {
    forall i, j | 0 <= i < j < |[h] + s| ensures ([h] + s)[i].created >= ([h] + s)[j].created {
      if i > 0 {
        assert ([h] + s)[i] == s[i - 1];
      }
      assert ([h] + s)[j] == s[j - 1];
    }
  }

  /** Inserts `o` into a newest-first sequence, keeping it newest first. */
  function InsertNewestFirst(o: Order, s: seq<Order>): (r: seq<Order>)
    requires NewestFirst(s)
    ensures NewestFirst(r)
    ensures |r| == |s| + 1
    ensures multiset(r) == multiset(s) + multiset{o}
  {
    if s == [] || o.created >= s[0].created then
      ConsNewestFirst(o, s);
      [o] + s
    else
      var rest := InsertNewestFirst(o, s[1..]);
      assert s == [s[0]] + s[1..];
      NoNewerThan(rest, s[1..], o, s[0].created);
      ConsNewestFirst(s[0], rest);
      [s[0]] + rest
  }

  /** The orders in `s`, newest first (ties in any order). */
  function SortNewestFirst(s: seq<Order>): (r: seq<Order>)
    ensures NewestFirst(r)
    ensures multiset(r) == multiset(s)
  {
    if s == [] then []
    else
      assert s == [s[0]] + s[1..];
      InsertNewestFirst(s[0], SortNewestFirst(s[1..]))
  }

  /** The rows `Place::get_orders` lists: the place's orders, newest first
      (each shown with its client's public columns, which the model leaves
      out). */
  function PlaceOrders(orders: seq<Order>, placeId: Id): (r: seq<Order>)
    ensures NewestFirst(r)
    ensures multiset(r) == multiset(OrdersForPlace(orders, placeId))
    ensures forall o :: o in r <==> o in orders && o.placeId == placeId
  {
    var r := SortNewestFirst(OrdersForPlace(orders, placeId));
    assert forall o :: o in r <==> o in multiset(r);
    r
  }

  // ------------------------------------------------------------------- logs

  datatype LogJson = LogJson(userId: Id, text: string, orderId: Id, placeId: Id)

  /** `Log::create`: appends one log row. As written, the row's place_id takes
      the submitted user_id (the submitted place_id is ignored), and the
      timestamp is shifted by three hours. Always 1. */
  method CreateLog(db: Database, form: LogJson, id: Id, now: Timestamp) returns (r: int)
    modifies db`logs
    ensures r == 1
    ensures db.logs == old(db.logs) + [Log(id, form.userId, form.text, form.orderId, form.userId, now + ThreeHours)]
  {
    db.logs := db.logs + [Log(id, form.userId, form.text, form.orderId, form.userId, now + ThreeHours)];
    return 1;
  }

  // ---------------------------------------------------------------- regions

  /** The country every region and city the handlers create belongs to. */
  const DefaultCountry: int := 1

  /** `Region::get_country_all` */
  function RegionsOfCountry(regions: seq<Region>, countryId: int): (r: seq<Region>)
    ensures forall x :: x in r <==> x in regions && x.countryId == countryId
  {
    Filter(regions, (x: Region) => x.countryId == countryId)
  }

  /** `Region::get` */
  function RegionById(regions: seq<Region>, id: int): (r: Region)
    requires exists x :: x in regions && x.id == id
    ensures r in regions && r.id == id
  {
    First(regions, (x: Region) => x.id == id)
  }

  /** `Region::create`: one new row in country 1 with no geo or timezone;
      `id` is the value the table's serial column assigns. Always 1. */
  method CreateRegion(db: Database, name: string, cord: Option<string>, id: int) returns (r: int)
    modifies db`regions
    ensures r == 1
    ensures db.regions == old(db.regions) + [Region(id, name, None, DefaultCountry, None, cord)]
  {
    db.regions := db.regions + [Region(id, name, None, DefaultCountry, None, cord)];
    return 1;
  }

  /** The regions table after `Region::edit`: the row with that id takes the new
      name and cord; every other column and every other row is unchanged. */
  function RegionsEdited(regions: seq<Region>, id: int, name: string, cord: Option<string>): (r: seq<Region>)
    ensures |r| == |regions|
    ensures forall i :: 0 <= i < |r| ==>
      && r[i].id == regions[i].id && r[i].geoId == regions[i].geoId
      && r[i].countryId == regions[i].countryId && r[i].timezoneId == regions[i].timezoneId
      && (regions[i].id == id ==> r[i].name == name && r[i].cord == cord)
      && (regions[i].id != id ==> r[i] == regions[i])
  {
    seq(|regions|, i requires 0 <= i < |regions| =>
      if regions[i].id == id then regions[i].(name := name, cord := cord) else regions[i])
  }

  /** `Region::edit`: the region must exist (`expect`). Always 1. */
  method EditRegion(db: Database, id: int, name: string, cord: Option<string>) returns (r: int)
    requires exists x :: x in db.regions && x.id == id
    modifies db`regions
    ensures r == 1
    ensures db.regions == RegionsEdited(old(db.regions), id, name, cord)
  {
    db.regions := RegionsEdited(db.regions, id, name, cord);
    return 1;
  }

  /** After `Region::edit`, `Region::get` returns the row it read before,
      with the new name and cord. */
  lemma EditThenGetRegion(regions: seq<Region>, id: int, name: string, cord: Option<string>)
    requires exists x :: x in regions && x.id == id
    ensures exists x :: x in RegionsEdited(regions, id, name, cord) && x.id == id
    ensures RegionById(RegionsEdited(regions, id, name, cord), id) == RegionById(regions, id).(name := name, cord := cord)
  {
    FirstIndexAgree(regions, RegionsEdited(regions, id, name, cord), (x: Region) => x.id == id);
  }

  /** A created region is listed under country 1 and, when its id was free,
      `Region::get` finds it. */
  lemma CreatedRegionListed(regions: seq<Region>, name: string, cord: Option<string>, id: int)
    ensures Region(id, name, None, DefaultCountry, None, cord)
      in RegionsOfCountry(regions + [Region(id, name, None, DefaultCountry, None, cord)], DefaultCountry)
    ensures (forall x :: x in regions ==> x.id != id) ==>
      RegionById(regions + [Region(id, name, None, DefaultCountry, None, cord)], id)
        == Region(id, name, None, DefaultCountry, None, cord)
  {
    var row := Region(id, name, None, DefaultCountry, None, cord);
    assert row in regions + [row];
  }

  /** The rows a delete by id keeps. */
  function RegionIsNot(id: int): Region -> bool
  {
    (x: Region) => x.id != id
  }

  /** `Region::delete`. Always 1. */
  method DeleteRegion(db: Database, id: int) returns (r: int)
    modifies db`regions
    ensures r == 1
    ensures db.regions == Filter(old(db.regions), RegionIsNot(id))
    ensures forall x :: x in db.regions <==> x in old(db.regions) && x.id != id
  {
    db.regions := Filter(db.regions, RegionIsNot(id));
    return 1;
  }

  /** After a delete, a country's region listing is the old listing without
      the deleted region, in the same order. */
  lemma DeletedRegionUnlisted(regions: seq<Region>, id: int, countryId: int)
    ensures RegionsOfCountry(Filter(regions, RegionIsNot(id)), countryId)
         == Filter(RegionsOfCountry(regions, countryId), RegionIsNot(id))
  {
    FilterCommute(regions, RegionIsNot(id), (x: Region) => x.countryId == countryId);
  }

  // ----------------------------------------------------------------- cities

  /** `Citie::get` */
  function CityById(cities: seq<City>, id: int): (r: City)
    requires exists x :: x in cities && x.id == id
    ensures r in cities && r.id == id
  {
    First(cities, (x: City) => x.id == id)
  }

  /** `Citie::get_region_all` */
  function CitiesOfRegion(cities: seq<City>, regionId: int): (r: seq<City>)
    ensures forall x :: x in r <==> x in cities && x.regionId == Some(regionId)
  {
    Filter(cities, (x: City) => x.regionId == Some(regionId))
  }

  /** `Citie::get_country_all` */
  function CitiesOfCountry(cities: seq<City>, countryId: int): (r: seq<City>)
    ensures forall x :: x in r <==> x in cities && x.countryId == countryId
  {
    Filter(cities, (x: City) => x.countryId == countryId)
  }

  /** `Citie::create`: one new row in country 1 with no geo id. Always 1. */
  method CreateCity(db: Database, regionId: Option<int>, name: string, cord: Option<string>, id: int) returns (r: int)
    modifies db`cities
    ensures r == 1
    ensures db.cities == old(db.cities) + [City(id, name, None, regionId, DefaultCountry, cord)]
  {
    db.cities := db.cities + [City(id, name, None, regionId, DefaultCountry, cord)];
    return 1;
  }

  /** The cities table after `Citie::edit`: the row with that id takes the new
      name, region and cord; every other column and every other row is
      unchanged. */
  function CitiesEdited(cities: seq<City>, id: int, regionId: Option<int>, name: string, cord: Option<string>): (r: seq<City>)
    ensures |r| == |cities|
    ensures forall i :: 0 <= i < |r| ==>
      && r[i].id == cities[i].id && r[i].geoId == cities[i].geoId && r[i].countryId == cities[i].countryId
      && (cities[i].id == id ==> r[i].name == name && r[i].regionId == regionId && r[i].cord == cord)
      && (cities[i].id != id ==> r[i] == cities[i])
  {
    seq(|cities|, i requires 0 <= i < |cities| =>
      if cities[i].id == id then cities[i].(name := name, regionId := regionId, cord := cord) else cities[i])
  }

  /** `Citie::edit`: the city must exist (`expect`). Always 1. */
  method EditCity(db: Database, id: int, regionId: Option<int>, name: string, cord: Option<string>) returns (r: int)
    requires exists x :: x in db.cities && x.id == id
    modifies db`cities
    ensures r == 1
    ensures db.cities == CitiesEdited(old(db.cities), id, regionId, name, cord)
  {
    db.cities := CitiesEdited(db.cities, id, regionId, name, cord);
    return 1;
  }

  /** After `Citie::edit`, `Citie::get` returns the row it read before, with
      the new name, region and cord. */
  lemma EditThenGetCity(cities: seq<City>, id: int, regionId: Option<int>, name: string, cord: Option<string>)
    requires exists x :: x in cities && x.id == id
    ensures exists x :: x in CitiesEdited(cities, id, regionId, name, cord) && x.id == id
    ensures CityById(CitiesEdited(cities, id, regionId, name, cord), id)
         == CityById(cities, id).(name := name, regionId := regionId, cord := cord)
  {
    FirstIndexAgree(cities, CitiesEdited(cities, id, regionId, name, cord), (x: City) => x.id == id);
  }

  /** The rows a delete by id keeps. */
  function CityIsNot(id: int): City -> bool
  {
    (x: City) => x.id != id
  }

  /** `Citie::delete`. Always 1. */
  method DeleteCity(db: Database, id: int) returns (r: int)
    modifies db`cities
    ensures r == 1
    ensures db.cities == Filter(old(db.cities), CityIsNot(id))
    ensures forall x :: x in db.cities <==> x in old(db.cities) && x.id != id
  {
    db.cities := Filter(db.cities, CityIsNot(id));
    return 1;
  }
}
