/** The two tables behind both item stores, `item` and `item_event`, and the
    reduction both `select_items` queries perform on them: for one item,
    the event with the latest `occurred_at` (`DISTINCT ON (i.id) ...
    ORDER BY i.id, i.created_at, ie.occurred_at DESC`). */
module ItemEvents {
  import opened Common
  import opened ItemStates

  /** A row of `item`. Its serial `id` is its position in the table. */
  datatype ItemRow = ItemRow(itemUid: Uuid, content: string, createdAt: Timestamp)

  /** A row of `item_event`; `kind` stands for the `item_event_type` row
      that `event_type_id` points at. */
  datatype EventRow = EventRow(itemId: nat, kind: ItemState, occurredAt: Timestamp)

  /** Why a writing transaction fails and rolls back: the UID is already
      taken, or no item has it. */
  datatype StoreError = DuplicateItemUid | UnknownItemUid

  ghost predicate UniqueUids(items: seq<ItemRow>) {
    forall i, j :: 0 <= i < j < |items| ==> items[i].itemUid != items[j].itemUid
  }

  ghost predicate HasEvent(events: seq<EventRow>, id: nat) {
    exists j :: 0 <= j < |events| && events[j].itemId == id
  }

  /** What the store's two writers keep true: item UIDs are unique, every
      event belongs to an item, and every item has an event (its initial
      `Unchecked` one, inserted in the same transaction). */
  ghost predicate WellFormed(items: seq<ItemRow>, events: seq<EventRow>) {
    && UniqueUids(items)
    && (forall j :: 0 <= j < |events| ==> events[j].itemId < |items|)
    && (forall i :: 0 <= i < |items| ==> HasEvent(events, i))
  }

  /** Event `j` is one of item `id`'s events with the greatest `occurred_at`. */
  ghost predicate IsLatest(events: seq<EventRow>, id: nat, j: int) {
    && 0 <= j < |events|
    && events[j].itemId == id
    && forall k :: 0 <= k < |events| && events[k].itemId == id ==> events[k].occurredAt <= events[j].occurredAt
  }

  /** The `id` of the item with the given UID (`SELECT id FROM item WHERE
      item_uid = $1`), or nothing when there is none. */
  function FindItem(items: seq<ItemRow>, uid: Uuid): (r: Option<nat>)
    ensures r.Some? ==> r.value < |items| && items[r.value].itemUid == uid
    ensures r.None? ==> forall i :: 0 <= i < |items| ==> items[i].itemUid != uid
  {
    if items == [] then None
    else if items[|items| - 1].itemUid == uid then Some(|items| - 1)
    else FindItem(items[..|items| - 1], uid)
  }

  /** The position of the event `DISTINCT ON` keeps for item `id`: one with
      the greatest `occurred_at`. Which of several tied events Postgres keeps
      is not defined; this model keeps the earliest inserted, and no
      contract relies on that choice. */
  function Latest(events: seq<EventRow>, id: nat): (r: Option<nat>)
    ensures r.Some? ==> IsLatest(events, id, r.value)
    ensures r.None? <==> !HasEvent(events, id)
  {
    if events == [] then None
    else
      var n := |events| - 1;
      var prev := Latest(events[..n], id);
      if events[n].itemId != id then prev
      else if prev.None? || events[prev.value].occurredAt < events[n].occurredAt then Some(n)
      else prev
  }

  /** Appending to the event table keeps every item's events. */
  lemma KeepsEvents(events: seq<EventRow>, longer: seq<EventRow>)
    requires events <= longer
    ensures forall id :: HasEvent(events, id) ==> HasEvent(longer, id)
  {
  }

  /** An event appended for another item does not change an item's latest
      event. */
  lemma LatestOtherItem(events: seq<EventRow>, e: EventRow, id: nat)
    requires e.itemId != id
    ensures Latest(events + [e], id) == Latest(events, id)
  {
  }

  /** An event stamped strictly later than every earlier event of its item
      becomes that item's latest event. */
  lemma LatestNewest(events: seq<EventRow>, e: EventRow)
    requires forall j :: 0 <= j < |events| && events[j].itemId == e.itemId ==> events[j].occurredAt < e.occurredAt
    ensures Latest(events + [e], e.itemId) == Some(|events|)
  {
  }

  /** The first event recorded for an item is its latest one. */
  lemma LatestFirstEvent(events: seq<EventRow>, e: EventRow)
    requires !HasEvent(events, e.itemId)
    ensures Latest(events + [e], e.itemId) == Some(|events|)
  {
  }
}
