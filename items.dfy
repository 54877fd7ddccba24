/** The event-sourced item store of `src/persistence/mod.rs`: items are
    created with an initial `Unchecked` event, changed only by appending
    events, and listed per date by a projection over both tables. */
module Items {
  import opened Common
  import opened ItemStates
  import opened ItemEvents

  /** A listed item: the query's `item_uid`, `content` and `state`. */
  datatype Item = Item(itemUid: Uuid, content: string, state: ItemState)

  /** The row the query yields for item `i`, if any: the item joined with
      its latest event, kept when the item was created on `date`, dropped
      afterwards when that event is `Deleted`. */
  function ListedRow(items: seq<ItemRow>, events: seq<EventRow>, date: Date, i: nat): (row: Option<Item>)
    requires i < |items|
  {
    if DateOf(items[i].createdAt) != date then None
    else match Latest(events, i)
      case None => None
      case Some(j) =>
        if events[j].kind == Deleted then None
        else Some(Item(items[i].itemUid, items[i].content, events[j].kind))
  }

  /** The rows of the first `n` items. */
  function SelectPrefix(items: seq<ItemRow>, events: seq<EventRow>, date: Date, n: nat): (r: seq<Item>)
    requires n <= |items|
    ensures |r| <= n
  {
    if n == 0 then []
    else
      var rest := SelectPrefix(items, events, date, n - 1);
      match ListedRow(items, events, date, n - 1)
      case None => rest
      case Some(row) => rest + [row]
  }

  /** `select_items`: the current, not deleted items created on `date`. The
      query has no outer `ORDER BY`, so only membership is promised. */
  function SelectItems(items: seq<ItemRow>, events: seq<EventRow>, date: Date): (r: seq<Item>)
    ensures |r| <= |items|
  {
    SelectPrefix(items, events, date, |items|)
  }

  lemma {:induction false} SelectPrefixRows(items: seq<ItemRow>, events: seq<EventRow>, date: Date, n: nat, row: Item)
    requires n <= |items|
    ensures row in SelectPrefix(items, events, date, n) <==>
            exists i :: 0 <= i < n && ListedRow(items, events, date, i) == Some(row)
  {
    if n > 0 {
      SelectPrefixRows(items, events, date, n - 1, row);
      var rest := SelectPrefix(items, events, date, n - 1);
      match ListedRow(items, events, date, n - 1)
      case None =>
        assert SelectPrefix(items, events, date, n) == rest;
      case Some(last) =>
        assert SelectPrefix(items, events, date, n) == rest + [last];
        if row == last {
          assert ListedRow(items, events, date, n - 1) == Some(row);
        }
    }
  }

  /** Every listed row is an item created on `date`, reported with the kind
      of one of its events with the greatest `occurred_at`, and that kind
      is not `Deleted`. */
  lemma SelectItemsSound(items: seq<ItemRow>, events: seq<EventRow>, date: Date, row: Item)
    requires row in SelectItems(items, events, date)
    ensures row.state != Deleted
    ensures exists i, j :: 0 <= i < |items| && IsLatest(events, i, j)
              && items[i].itemUid == row.itemUid && items[i].content == row.content
              && DateOf(items[i].createdAt) == date && events[j].kind == row.state
  {
    SelectPrefixRows(items, events, date, |items|, row);
    var i :| 0 <= i < |items| && ListedRow(items, events, date, i) == Some(row);
    var j := Latest(events, i).value;
    assert IsLatest(events, i, j);
  }

  /** Every item created on `date` that has events, none of its latest ones
      `Deleted`, is listed with its content. */
  lemma SelectItemsComplete(items: seq<ItemRow>, events: seq<EventRow>, date: Date, i: nat)
    requires i < |items| && DateOf(items[i].createdAt) == date && HasEvent(events, i)
    requires forall j :: IsLatest(events, i, j) ==> events[j].kind != Deleted
    ensures exists row :: row in SelectItems(items, events, date)
              && row.itemUid == items[i].itemUid && row.content == items[i].content
  {
    var row := ListedRow(items, events, date, i).value;
    SelectPrefixRows(items, events, date, |items|, row);
  }

  /** A listed row for item `i` comes from item `i` itself, when UIDs are
      unique. */
  lemma RowOfItem(items: seq<ItemRow>, events: seq<EventRow>, date: Date, i: nat, row: Item)
    requires UniqueUids(items) && i < |items|
    requires row in SelectItems(items, events, date) && row.itemUid == items[i].itemUid
    ensures ListedRow(items, events, date, i) == Some(row)
  {
    SelectPrefixRows(items, events, date, |items|, row);
  }

  /** Only items created on `date` are listed: an item created on another
      day is absent. */
  lemma SelectItemsDateFilter(items: seq<ItemRow>, events: seq<EventRow>, date: Date, i: nat)
    requires UniqueUids(items) && i < |items| && DateOf(items[i].createdAt) != date
    ensures forall row :: row in SelectItems(items, events, date) ==> row.itemUid != items[i].itemUid
  {
    forall row | row in SelectItems(items, events, date)
      ensures row.itemUid != items[i].itemUid
    {
      if row.itemUid == items[i].itemUid {
        RowOfItem(items, events, date, i, row);
      }
    }
  }

  /** An item whose latest events are all `Deleted` is never listed. */
  lemma SelectItemsHidesDeleted(items: seq<ItemRow>, events: seq<EventRow>, date: Date, i: nat)
    requires UniqueUids(items) && i < |items|
    requires forall j :: IsLatest(events, i, j) ==> events[j].kind == Deleted
    ensures forall row :: row in SelectItems(items, events, date) ==> row.itemUid != items[i].itemUid
  {
    forall row | row in SelectItems(items, events, date)
      ensures row.itemUid != items[i].itemUid
    {
      if row.itemUid == items[i].itemUid {
        RowOfItem(items, events, date, i, row);
      }
    }
  }

  ghost predicate DistinctUids(rows: seq<Item>) {
    forall a, b :: 0 <= a < b < |rows| ==> rows[a].itemUid != rows[b].itemUid
  }

  /** At most one row per item. */
  lemma {:induction false} SelectPrefixOneRowPerItem(items: seq<ItemRow>, events: seq<EventRow>, date: Date, n: nat)
    requires UniqueUids(items) && n <= |items|
    ensures DistinctUids(SelectPrefix(items, events, date, n))
  {
    if n > 0 {
      SelectPrefixOneRowPerItem(items, events, date, n - 1);
      var rest := SelectPrefix(items, events, date, n - 1);
      match ListedRow(items, events, date, n - 1)
      case None =>
        assert SelectPrefix(items, events, date, n) == rest;
      case Some(last) =>
        forall a | 0 <= a < |rest| ensures rest[a].itemUid != last.itemUid {
          SelectPrefixRows(items, events, date, n - 1, rest[a]);
        }
    }
  }

  lemma SelectItemsOneRowPerItem(items: seq<ItemRow>, events: seq<EventRow>, date: Date)
    requires UniqueUids(items)
    ensures DistinctUids(SelectItems(items, events, date))
  {
    SelectPrefixOneRowPerItem(items, events, date, |items|);
    assert SelectItems(items, events, date) == SelectPrefix(items, events, date, |items|);
  }

  /** Latest event wins: after appending an event for item `i` stamped
      later than all of its earlier events, the item is listed in exactly
      the appended state (or not at all, when that state is `Deleted`). */
  lemma UpdateIsVisible(items: seq<ItemRow>, events: seq<EventRow>, date: Date, i: nat, kind: ItemState, at: Timestamp)
    requires UniqueUids(items) && i < |items| && DateOf(items[i].createdAt) == date
    requires forall j :: 0 <= j < |events| && events[j].itemId == i ==> events[j].occurredAt < at
    ensures var r := SelectItems(items, events + [EventRow(i, kind, at)], date);
            && (kind != Deleted ==> Item(items[i].itemUid, items[i].content, kind) in r)
            && (forall row :: row in r && row.itemUid == items[i].itemUid ==> row == Item(items[i].itemUid, items[i].content, kind) && kind != Deleted)
  {
    var events' := events + [EventRow(i, kind, at)];
    LatestNewest(events, EventRow(i, kind, at));
    if kind != Deleted {
      assert ListedRow(items, events', date, i) == Some(Item(items[i].itemUid, items[i].content, kind));
      SelectPrefixRows(items, events', date, |items|, Item(items[i].itemUid, items[i].content, kind));
    }
    forall row | row in SelectItems(items, events', date) && row.itemUid == items[i].itemUid
      ensures row == Item(items[i].itemUid, items[i].content, kind) && kind != Deleted
    {
      RowOfItem(items, events', date, i, row);
    }
  }

  /** An appended event changes no other item's row. */
  lemma UpdateLeavesOthers(items: seq<ItemRow>, events: seq<EventRow>, date: Date, e: EventRow, row: Item)
    requires UniqueUids(items) && e.itemId < |items| && row.itemUid != items[e.itemId].itemUid
    ensures row in SelectItems(items, events + [e], date) <==> row in SelectItems(items, events, date)
  {
    SelectPrefixRows(items, events, date, |items|, row);
    SelectPrefixRows(items, events + [e], date, |items|, row);
    forall i | 0 <= i < |items| && i != e.itemId
      ensures ListedRow(items, events + [e], date, i) == ListedRow(items, events, date, i)
    {
      LatestOtherItem(events, e, i);
    }
    if row in SelectItems(items, events + [e], date) {
      var i :| 0 <= i < |items| && ListedRow(items, events + [e], date, i) == Some(row);
      assert i != e.itemId;
    }
    if row in SelectItems(items, events, date) {
      var i :| 0 <= i < |items| && ListedRow(items, events, date, i) == Some(row);
      assert i != e.itemId;
    }
  }

  /** A newly created item is listed as `Unchecked` on the day it was
      created, and on no other day. */
  lemma CreateIsVisible(items: seq<ItemRow>, events: seq<EventRow>, date: Date, uid: Uuid, content: string, at: Timestamp)
    requires WellFormed(items, events) && forall i :: 0 <= i < |items| ==> items[i].itemUid != uid
    ensures var r := SelectItems(items + [ItemRow(uid, content, at)], events + [EventRow(|items|, Unchecked, at)], date);
            && (Item(uid, content, Unchecked) in r <==> DateOf(at) == date)
            && (forall row :: row in r && row.itemUid == uid ==> row == Item(uid, content, Unchecked))
  {
    var items', events' := items + [ItemRow(uid, content, at)], events + [EventRow(|items|, Unchecked, at)];
    var n := |items|;
    assert !HasEvent(events, n);
    LatestFirstEvent(events, EventRow(n, Unchecked, at));
    assert UniqueUids(items');
    SelectPrefixRows(items', events', date, |items'|, Item(uid, content, Unchecked));
    forall row | row in SelectItems(items', events', date) && row.itemUid == uid
      ensures row == Item(uid, content, Unchecked)
    {
      RowOfItem(items', events', date, n, row);
    }
  }

  /** The store: the `item` and `item_event` tables, both only ever
      appended to. */
  class ItemStore {
    var items: seq<ItemRow>
    var events: seq<EventRow>

    ghost predicate Valid()
      reads this
    {
      WellFormed(items, events)
    }

    constructor ()
      ensures Valid() && items == [] && events == []
    {
      items, events := [], [];
    }

    /** `create_item`: one transaction inserting the item and its initial
        `Unchecked` event stamped `createdAt`. A UID already in use makes
        the transaction fail (the item insert violates the UID's uniqueness,
        or else the event's `SELECT id ... WHERE item_uid` finds two rows),
        and the rollback leaves both tables as they were. */
    method CreateItem(itemUid: Uuid, content: string, createdAt: Timestamp) returns (r: Result<(), StoreError>)
      requires Valid()
      modifies this
      ensures Valid()
      ensures r.Ok? <==> forall i :: 0 <= i < |old(items)| ==> old(items)[i].itemUid != itemUid
      ensures r.Ok? ==> && items == old(items) + [ItemRow(itemUid, content, createdAt)]
                        && events == old(events) + [EventRow(|old(items)|, Unchecked, createdAt)]
      ensures r.Err? ==> items == old(items) && events == old(events)
    {
      var txItems, txEvents := items, events;
      if FindItem(txItems, itemUid).Some? {
        return Err(DuplicateItemUid);
      }
      txItems := txItems + [ItemRow(itemUid, content, createdAt)];
      var itemId := FindItem(txItems, itemUid).value;
      RoundTrip(Unchecked);
      var eventType := FromName("Unchecked").value;
      txEvents := txEvents + [EventRow(itemId, eventType, createdAt)];
      assert txEvents[|events|].itemId == itemId;
      KeepsEvents(events, txEvents);
      items, events := txItems, txEvents;
      r := Ok(());
    }

    /** `update_item`: one transaction appending an event of kind `state`
        stamped `now` to the item with the given UID. Item rows and earlier
        events are untouched. An unknown UID leaves the event's `item_id`
        NULL and the insert fails. */
    method UpdateItem(itemUid: Uuid, state: ItemState, now: Timestamp) returns (r: Result<(), StoreError>)
      requires Valid()
      modifies this
      ensures Valid()
      ensures items == old(items)
      ensures r.Ok? <==> exists i :: 0 <= i < |items| && items[i].itemUid == itemUid
      ensures r.Ok? ==> exists i :: 0 <= i < |items| && items[i].itemUid == itemUid
                                    && events == old(events) + [EventRow(i, state, now)]
      ensures r.Err? ==> events == old(events)
    {
      var itemId := FindItem(items, itemUid);
      if itemId.None? {
        return Err(UnknownItemUid);
      }
      RoundTrip(state);
      var eventType := FromName(AsStr(state)).value;
      var txEvents := events + [EventRow(itemId.value, eventType, now)];
      KeepsEvents(events, txEvents);
      events := txEvents;
      r := Ok(());
    }
  }

  /** The scenario of `items_are_only_returned_for_the_current_day`: one item
      created now, one a day earlier; today's listing holds the first and
      not the second. */
  method OnlyCurrentDayListed(now: Timestamp, todayUid: Uuid, yesterdayUid: Uuid) returns (listed: seq<Item>)
    requires todayUid != yesterdayUid
    ensures exists row :: row in listed && row.itemUid == todayUid
    ensures forall row :: row in listed ==> row.itemUid != yesterdayUid
  {
    var store := new ItemStore();
    var r1 := store.CreateItem(todayUid, "Today", now);
    var r2 := store.CreateItem(yesterdayUid, "Yesterday", now - MicrosPerDay);
    listed := SelectItems(store.items, store.events, DateOf(now));
    DayBefore(now);
    SelectItemsComplete(store.items, store.events, DateOf(now), 0);
    SelectItemsDateFilter(store.items, store.events, DateOf(now), 1);
  }
}
