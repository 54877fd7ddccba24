/** The earlier item store of `src/persistence.rs`: the same two tables, a
    boolean state (`Checked` or not) and a listing with neither a date nor a
    deletion filter. */
module LegacyItems {
  import opened Common
  import opened ItemStates
  import opened ItemEvents

  /** A listed item; `state` is true when the item is checked. */
  datatype Item = Item(itemUid: Uuid, content: string, state: bool)

  /** The event-type name `update_item` uses for a boolean state. */
  function StateName(checked: bool): (name: string) {
    if checked then "Checked" else "Unchecked"
  }

  /** The names map onto the two non-deleted kinds, true onto `Checked`. */
  lemma StateNameDecodes(checked: bool)
    ensures FromName(StateName(checked)) == Some(if checked then Checked else Unchecked)
    ensures FromName(StateName(checked)) != Some(Deleted)
  {
  }

  /** The row for item `i`: joined with its latest event, reported as
      checked when that event's type is named `Checked`. */
  function ListedRow(items: seq<ItemRow>, events: seq<EventRow>, i: nat): (row: Option<Item>)
    requires i < |items|
  {
    match Latest(events, i)
    case None => None
    case Some(j) => Some(Item(items[i].itemUid, items[i].content, AsStr(events[j].kind) == "Checked"))
  }

  function SelectPrefix(items: seq<ItemRow>, events: seq<EventRow>, n: nat): (r: seq<Item>)
    requires n <= |items|
    ensures |r| <= n
  {
    if n == 0 then []
    else
      var rest := SelectPrefix(items, events, n - 1);
      match ListedRow(items, events, n - 1)
      case None => rest
      case Some(row) => rest + [row]
  }

  /** `select_items`: every item with events, with its state. */
  function SelectItems(items: seq<ItemRow>, events: seq<EventRow>): (r: seq<Item>)
    ensures |r| <= |items|
  {
    SelectPrefix(items, events, |items|)
  }

  lemma {:induction false} SelectPrefixRows(items: seq<ItemRow>, events: seq<EventRow>, n: nat, row: Item)
    requires n <= |items|
    ensures row in SelectPrefix(items, events, n) <==>
            exists i :: 0 <= i < n && ListedRow(items, events, i) == Some(row)
  {
    if n > 0 {
      SelectPrefixRows(items, events, n - 1, row);
      var rest := SelectPrefix(items, events, n - 1);
      match ListedRow(items, events, n - 1)
      case None =>
        assert SelectPrefix(items, events, n) == rest;
      case Some(last) =>
        assert SelectPrefix(items, events, n) == rest + [last];
        if row == last {
          assert ListedRow(items, events, n - 1) == Some(row);
        }
    }
  }

  /** A listed row for item `i` comes from item `i` itself, when UIDs are
      unique. */
  lemma RowOfItem(items: seq<ItemRow>, events: seq<EventRow>, i: nat, row: Item)
    requires UniqueUids(items) && i < |items|
    requires row in SelectItems(items, events) && row.itemUid == items[i].itemUid
    ensures ListedRow(items, events, i) == Some(row)
  {
    SelectPrefixRows(items, events, |items|, row);
  }

  ghost predicate DistinctUids(rows: seq<Item>) {
    forall a, b :: 0 <= a < b < |rows| ==> rows[a].itemUid != rows[b].itemUid
  }

  lemma {:induction false} SelectPrefixOneRowPerItem(items: seq<ItemRow>, events: seq<EventRow>, n: nat)
    requires UniqueUids(items) && n <= |items|
    ensures DistinctUids(SelectPrefix(items, events, n))
  {
    if n > 0 {
      SelectPrefixOneRowPerItem(items, events, n - 1);
      var rest := SelectPrefix(items, events, n - 1);
      match ListedRow(items, events, n - 1)
      case None =>
        assert SelectPrefix(items, events, n) == rest;
      case Some(last) =>
        forall a | 0 <= a < |rest| ensures rest[a].itemUid != last.itemUid {
          SelectPrefixRows(items, events, n - 1, rest[a]);
        }
    }
  }

  /** At most one row per item. */
  lemma SelectItemsOneRowPerItem(items: seq<ItemRow>, events: seq<EventRow>)
    requires UniqueUids(items)
    ensures DistinctUids(SelectItems(items, events))
  {
    SelectPrefixOneRowPerItem(items, events, |items|);
    assert SelectItems(items, events) == SelectPrefix(items, events, |items|);
  }

  /** The `id` of the item with the given UID, -1 when there is none. */
  function Position(items: seq<ItemRow>, uid: Uuid): (id: int)
    ensures id < |items|
  {
    match FindItem(items, uid)
    case None => -1
    case Some(i) => i
  }

  lemma PositionOf(items: seq<ItemRow>, i: nat)
    requires UniqueUids(items) && i < |items|
    ensures Position(items, items[i].itemUid) == i
  {
  }

  /** The rows come in the order of their items' `id`s: the query's
      `ORDER BY i.id` applies to its result. */
  ghost predicate OrderedByItem(items: seq<ItemRow>, rows: seq<Item>) {
    forall a, b :: 0 <= a < b < |rows| ==> Position(items, rows[a].itemUid) < Position(items, rows[b].itemUid)
  }

  lemma {:induction false} SelectPrefixOrdered(items: seq<ItemRow>, events: seq<EventRow>, n: nat)
    requires UniqueUids(items) && n <= |items|
    ensures OrderedByItem(items, SelectPrefix(items, events, n))
  {
    if n > 0 {
      SelectPrefixOrdered(items, events, n - 1);
      var rest := SelectPrefix(items, events, n - 1);
      match ListedRow(items, events, n - 1)
      case None =>
        assert SelectPrefix(items, events, n) == rest;
      case Some(last) =>
        PrefixPositions(items, events, n - 1);
        PositionOf(items, n - 1);
        var r := rest + [last];
        assert SelectPrefix(items, events, n) == r;
        forall a, b | 0 <= a < b < |r|
          ensures Position(items, r[a].itemUid) < Position(items, r[b].itemUid)
        {
          assert r[a] == rest[a];
          if b < |rest| {
            assert r[b] == rest[b];
          } else {
            assert r[b] == last;
          }
        }
    }
  }

  /** The rows built from the first `n` items belong to items before `n`. */
  lemma PrefixPositions(items: seq<ItemRow>, events: seq<EventRow>, n: nat)
    requires UniqueUids(items) && n <= |items|
    ensures forall a :: 0 <= a < |SelectPrefix(items, events, n)| ==>
              Position(items, SelectPrefix(items, events, n)[a].itemUid) < n
  {
    var rows := SelectPrefix(items, events, n);
    forall a | 0 <= a < |rows| ensures Position(items, rows[a].itemUid) < n {
      SelectPrefixRows(items, events, n, rows[a]);
      var k :| 0 <= k < n && ListedRow(items, events, k) == Some(rows[a]);
      PositionOf(items, k);
    }
  }

  /** The listing is ordered by item, as `ORDER BY i.id` demands. */
  lemma SelectItemsOrdered(items: seq<ItemRow>, events: seq<EventRow>)
    requires UniqueUids(items)
    ensures OrderedByItem(items, SelectItems(items, events))
  {
    SelectPrefixOrdered(items, events, |items|);
    assert SelectItems(items, events) == SelectPrefix(items, events, |items|);
  }

  /** The reported state is true exactly when the item's latest event is
      `Checked`: every row reports the kind of one of the item's events with
      the greatest `occurred_at`. */
  lemma SelectItemsState(items: seq<ItemRow>, events: seq<EventRow>, row: Item)
    requires row in SelectItems(items, events)
    ensures exists i, j :: 0 <= i < |items| && IsLatest(events, i, j)
              && items[i].itemUid == row.itemUid && items[i].content == row.content
              && (row.state <==> events[j].kind == Checked)
  {
    SelectPrefixRows(items, events, |items|, row);
    var i :| 0 <= i < |items| && ListedRow(items, events, i) == Some(row);
    var j := Latest(events, i).value;
    NamesDistinct(events[j].kind, Checked);
    assert IsLatest(events, i, j);
  }

  /** With no date and no deletion filter, every item of a well-formed
      store is listed, deleted ones included. */
  lemma EveryItemListed(items: seq<ItemRow>, events: seq<EventRow>, i: nat)
    requires WellFormed(items, events) && i < |items|
    ensures exists row :: row in SelectItems(items, events)
              && row.itemUid == items[i].itemUid && row.content == items[i].content
  {
    assert HasEvent(events, i);
    var row := ListedRow(items, events, i).value;
    SelectPrefixRows(items, events, |items|, row);
  }

  /** Latest event wins: after appending an event for item `i` stamped later
      than all its earlier ones, its row reports exactly that event. */
  lemma UpdateIsVisible(items: seq<ItemRow>, events: seq<EventRow>, i: nat, kind: ItemState, at: Timestamp)
    requires UniqueUids(items) && i < |items|
    requires forall j :: 0 <= j < |events| && events[j].itemId == i ==> events[j].occurredAt < at
    ensures var r := SelectItems(items, events + [EventRow(i, kind, at)]);
            && Item(items[i].itemUid, items[i].content, kind == Checked) in r
            && (forall row :: row in r && row.itemUid == items[i].itemUid ==> row.state == (kind == Checked))
  {
    var events' := events + [EventRow(i, kind, at)];
    LatestNewest(events, EventRow(i, kind, at));
    NamesDistinct(kind, Checked);
    assert ListedRow(items, events', i) == Some(Item(items[i].itemUid, items[i].content, kind == Checked));
    SelectPrefixRows(items, events', |items|, Item(items[i].itemUid, items[i].content, kind == Checked));
    forall row | row in SelectItems(items, events') && row.itemUid == items[i].itemUid
      ensures row.state == (kind == Checked)
    {
      RowOfItem(items, events', i, row);
    }
  }

  /** A freshly created item with no further events is listed unchecked. */
  lemma CreatedItemUnchecked(items: seq<ItemRow>, events: seq<EventRow>, uid: Uuid, content: string, at: Timestamp)
    requires WellFormed(items, events) && forall i :: 0 <= i < |items| ==> items[i].itemUid != uid
    ensures var r := SelectItems(items + [ItemRow(uid, content, at)], events + [EventRow(|items|, Unchecked, at)]);
            && Item(uid, content, false) in r
            && (forall row :: row in r && row.itemUid == uid ==> !row.state)
  {
    var items', events' := items + [ItemRow(uid, content, at)], events + [EventRow(|items|, Unchecked, at)];
    var n := |items|;
    assert !HasEvent(events, n);
    LatestFirstEvent(events, EventRow(n, Unchecked, at));
    assert UniqueUids(items');
    NamesDistinct(Unchecked, Checked);
    assert ListedRow(items', events', n) == Some(Item(uid, content, false));
    SelectPrefixRows(items', events', |items'|, Item(uid, content, false));
    forall row | row in SelectItems(items', events') && row.itemUid == uid
      ensures !row.state
    {
      RowOfItem(items', events', n, row);
    }
  }

  /** The same two tables as the later store, behind the earlier API. */
  class LegacyItemStore {
    var items: seq<ItemRow>
    var events: seq<EventRow>

    ghost predicate Valid()
      reads this
    {
      WellFormed(items, events)
    }

    constructor ()
      ensures Valid() && items == [] && events == []
    {
      items, events := [], [];
    }

    /** `create_item`: one transaction inserting the item and its initial
        `Unchecked` event, both stamped with the current time `now`; a UID
        already in use makes it fail and roll back. */
    method CreateItem(itemUid: Uuid, content: string, now: Timestamp) returns (r: Result<(), StoreError>)
      requires Valid()
      modifies this
      ensures Valid()
      ensures r.Ok? <==> forall i :: 0 <= i < |old(items)| ==> old(items)[i].itemUid != itemUid
      ensures r.Ok? ==> && items == old(items) + [ItemRow(itemUid, content, now)]
                        && events == old(events) + [EventRow(|old(items)|, Unchecked, now)]
      ensures r.Err? ==> items == old(items) && events == old(events)
    {
      var txItems, txEvents := items, events;
      if FindItem(txItems, itemUid).Some? {
        return Err(DuplicateItemUid);
      }
      txItems := txItems + [ItemRow(itemUid, content, now)];
      var itemId := FindItem(txItems, itemUid).value;
      RoundTrip(Unchecked);
      var eventType := FromName("Unchecked").value;
      txEvents := txEvents + [EventRow(itemId, eventType, now)];
      assert txEvents[|events|].itemId == itemId;
      KeepsEvents(events, txEvents);
      items, events := txItems, txEvents;
      r := Ok(());
    }

    /** `update_item(bool)`: appends a `Checked` event for true and an
        `Unchecked` one for false, stamped `now`; nothing else changes. */
    method UpdateItem(itemUid: Uuid, checked: bool, now: Timestamp) returns (r: Result<(), StoreError>)
      requires Valid()
      modifies this
      ensures Valid()
      ensures items == old(items)
      ensures r.Ok? <==> exists i :: 0 <= i < |items| && items[i].itemUid == itemUid
      ensures r.Ok? ==> exists i :: 0 <= i < |items| && items[i].itemUid == itemUid
                          && events == old(events) + [EventRow(i, if checked then Checked else Unchecked, now)]
      ensures r.Err? ==> events == old(events)
    {
      var name := StateName(checked);
      var itemId := FindItem(items, itemUid);
      if itemId.None? {
        return Err(UnknownItemUid);
      }
      StateNameDecodes(checked);
      var eventType := FromName(name).value;
      var txEvents := events + [EventRow(itemId.value, eventType, now)];
      KeepsEvents(events, txEvents);
      events := txEvents;
      r := Ok(());
    }
  }
}
