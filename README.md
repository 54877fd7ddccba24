# Item and account persistence of `today`, modelled in Dafny

`today` is a small to-do list web service. The storage layer underneath
keeps three things:

- **Items, event-sourced.** An item row (`item`) never changes after it is
  inserted. Each state change is a new row in `item_event`, of kind
  `Checked`, `Unchecked` or `Deleted`, stamped with `occurred_at`. The current
  state comes from a projection that keeps each item's latest event.
- **An earlier version of the same store.** It has a boolean state and a
  listing with no date filter and no deletion filter.
- **Accounts.** Each account has an e-mail address, lower-cased on the way in.
  A unique index on the lower-cased address allows only one account per
  address.

The model holds the SQL tables in memory. Sequences stand for the
append-only item tables. A map keyed by the unique index's expression stands
for the account table. The queries become functions over those values. The
writing transactions become methods of a store class that replace the fields
all at once at the end, which is the commit.

Modules:

- `Common` (`common.dfy`): `Option`, `Result`, UUIDs, and timestamps in
  microseconds. It also holds `DateOf`, the `::date` cast.
- `ItemStates` (`item_state.dfy`): `ItemState` and its encoder and decoder.
- `ItemEvents` (`item_events.dfy`): the rows of `item` and `item_event`, which
  both stores share. It holds the `item_uid` lookup and the
  latest-event-per-item reduction that `DISTINCT ON` performs.
- `Items` (`items.dfy`): the store of `src/persistence/mod.rs`.
- `LegacyItems` (`legacy_items.dfy`): the store of `src/persistence.rs`.
- `Accounts` (`accounts.dfy`): `src/persistence/account.rs`.

Parameters replace the clock. `create_item` in `src/persistence/mod.rs`
already takes `created_at` as an argument. For every other use of
`Utc::now()`, the method takes the time as `now`. The bcrypt hash is an
opaque `HashedPassword`. UUIDs are opaque natural numbers.

Choices where the source leaves room:

- **Ties on `occurred_at`.** `DISTINCT ON` keeps an arbitrary row among events
  that share the greatest `occurred_at`. `Latest` keeps the earliest inserted
  of them, but no contract depends on that choice. Every lemma speaks of "one
  of the item's events with the greatest `occurred_at`" (`IsLatest`).
  A last-inserted-wins tie-break would need an insertion-order key, and the
  query orders by none.
- **Ownership.** The persistence functions modelled here take no account
  identifier, so there is no ownership check and no per-account scoping.
- **Reused item UID.** A `create_item` that reuses an `item_uid` fails either
  way. Under a unique constraint on `item_uid`, the item insert fails. Without
  one, the event insert's `SELECT id FROM item WHERE item_uid = $1` returns
  two rows and fails. Either way the transaction rolls back, so the model
  returns `DuplicateItemUid` and changes nothing.
- **Unknown item UID.** An `update_item` for a UID that does not exist looks up
  a NULL `item_id`. The model assumes the column is NOT NULL, so the insert
  fails and nothing changes. If the column were nullable, the orphan row
  would be invisible to both projections, because they inner-join on
  `item_id`.

## Model

| member | source | states |
|---|---|---|
| `ItemStates.AsStr` | src/persistence/mod.rs:18-24 | the name of each state, which `FromName` decodes back to that state; injective (`NamesDistinct`) and inverted by `FromName` on every decodable name (`DecodedNameIsCanonical`) |
| `ItemStates.FromName` | src/persistence/mod.rs:27-35 | decoding succeeds exactly for the names "Checked", "Unchecked" and "Deleted"; every other string is the panic, modelled as `None` |
| `ItemStates.RoundTrip` | src/persistence/mod.rs:18-35 | decoding the name of a state yields that state |
| `ItemStates.NamesDistinct` | src/persistence/mod.rs:18-24 | two states have the same name exactly when they are the same state |
| `ItemStates.DecodedNameIsCanonical` | src/persistence/mod.rs:27-35 | every name that decodes is the name of the state it decodes to |
| `Common.DateOf` | src/persistence/mod.rs:89 | the `::date` of a timestamp is the day whose span of microseconds contains it |
| `Common.DayBefore` | src/persistence/tests.rs:19 | a timestamp one day earlier falls on the previous date |
| `ItemEvents.FindItem` | src/persistence/mod.rs:128 | the `item_uid` lookup returns the position of an item with that UID, or nothing when no item has it |
| `ItemEvents.Latest` | src/persistence/mod.rs:82-90 | the event `DISTINCT ON` keeps for an item has the greatest `occurred_at` of that item's events; there is none exactly when the item has no events |
| `ItemEvents.LatestOtherItem` | src/persistence/mod.rs:144-171 | an event appended for one item leaves every other item's latest event unchanged |
| `ItemEvents.LatestNewest` | src/persistence/mod.rs:90 | an event stamped later than all of its item's earlier events becomes that item's latest |
| `ItemEvents.LatestFirstEvent` | src/persistence/mod.rs:124-137 | an item's first event is its latest |
| `ItemEvents.KeepsEvents` | src/persistence/mod.rs:144-171 | appending to the event table keeps every item's earlier events |
| `Items.SelectItems` | src/persistence/mod.rs:77-102 | the listing has no more rows than there are items |
| `Items.SelectPrefixRows` | src/persistence/mod.rs:81-94 | a row is listed exactly when some item yields it: the item joined with its latest event, created on the date, and that event not `Deleted` |
| `Items.SelectItemsSound` | src/persistence/mod.rs:77-102 | every listed row is an item created on the date, with its content, reported with the kind of one of its latest events, and that kind is never `Deleted` |
| `Items.SelectItemsComplete` | src/persistence/mod.rs:81-94 | every item created on the date that has events, none of its latest ones `Deleted`, is listed with its content |
| `Items.RowOfItem` | src/persistence/mod.rs:82-90 | with unique UIDs, a listed row carrying an item's UID is that item's own row |
| `Items.SelectItemsDateFilter` | src/persistence/mod.rs:89 | an item created on another date is never listed |
| `Items.SelectItemsHidesDeleted` | src/persistence/mod.rs:92-94 | an item whose latest events are all `Deleted` is never listed |
| `Items.SelectPrefixOneRowPerItem` | src/persistence/mod.rs:82-90 | with unique UIDs, the rows built from the first items carry distinct UIDs |
| `Items.SelectItemsOneRowPerItem` | src/persistence/mod.rs:82-90 | with unique UIDs, the listing has at most one row per item |
| `Items.UpdateIsVisible` | src/persistence/mod.rs:144-171 | after appending an event stamped later than the item's other events, the item is listed in exactly that state, or not at all when the state is `Deleted` |
| `Items.UpdateLeavesOthers` | src/persistence/mod.rs:144-171 | an appended event does not change whether another item's row is listed |
| `Items.CreateIsVisible` | src/persistence/mod.rs:104-142 | a newly created item is listed as `Unchecked` with its content exactly on the date it was created, and in no other state |
| `Items.ItemStore.CreateItem` | src/persistence/mod.rs:104-142 | all or nothing: on success exactly one item row and one `Unchecked` event stamped `created_at` are appended; on a reused UID neither table changes; the store invariant is kept |
| `Items.ItemStore.UpdateItem` | src/persistence/mod.rs:144-171 | for a known UID exactly one event of the requested kind, stamped `now`, is appended; item rows and earlier events are unchanged; an unknown UID changes nothing |
| `Items.OnlyCurrentDayListed` | src/persistence/tests.rs:16-37 | an item created now is in today's listing and one created a day earlier is not |
| `LegacyItems.StateNameDecodes` | src/persistence.rs:66 | the name for `true` decodes to `Checked` and the name for `false` to `Unchecked`, never to `Deleted` |
| `LegacyItems.SelectItems` | src/persistence.rs:8-26 | the listing has no more rows than there are items |
| `LegacyItems.SelectPrefixRows` | src/persistence.rs:12-19 | a row is listed exactly when some item yields it: the item joined with its latest event |
| `LegacyItems.RowOfItem` | src/persistence.rs:12-19 | with unique UIDs, a listed row carrying an item's UID is that item's own row |
| `LegacyItems.SelectPrefixOneRowPerItem` | src/persistence.rs:12-19 | with unique UIDs, the rows built from the first items carry distinct UIDs |
| `LegacyItems.SelectItemsOneRowPerItem` | src/persistence.rs:12-19 | with unique UIDs, the listing has at most one row per item |
| `LegacyItems.SelectPrefixOrdered` | src/persistence.rs:12-19 | with unique UIDs, the rows built from the first items come in increasing item `id` |
| `LegacyItems.PrefixPositions` | src/persistence.rs:12-19 | with unique UIDs, every row built from the first `n` items belongs to an item whose `id` is below `n` |
| `LegacyItems.SelectItemsOrdered` | src/persistence.rs:12-19 | with unique UIDs, the listing is ordered by item `id`, as the query's `ORDER BY i.id` demands |
| `LegacyItems.SelectItemsState` | src/persistence.rs:15-19 | each row's state is true exactly when the kind of one of the item's latest events is `Checked` |
| `LegacyItems.EveryItemListed` | src/persistence.rs:12-19 | with no date or deletion filter, every item of a well-formed store is listed, deleted ones included |
| `LegacyItems.UpdateIsVisible` | src/persistence.rs:64-89 | after appending an event stamped later than the item's other events, the item's row reports true exactly when that event is `Checked` |
| `LegacyItems.CreatedItemUnchecked` | src/persistence.rs:28-62 | a freshly created item with no further events is listed with state false |
| `LegacyItems.LegacyItemStore.CreateItem` | src/persistence.rs:28-62 | all or nothing: on success one item row and one `Unchecked` event, both stamped `now`, are appended; on a reused UID nothing changes |
| `LegacyItems.LegacyItemStore.UpdateItem` | src/persistence.rs:64-89 | for a known UID, `true` appends a `Checked` event and `false` an `Unchecked` one, stamped `now`; nothing else changes; an unknown UID changes nothing |
| `Accounts.Lowercase` | src/persistence/account.rs:15 | the result has the input's length and no upper-case letter, and each character is the input's up to letter case |
| `Accounts.EmailFrom` | src/persistence/account.rs:14-16 | the normalised address equals the input up to letter case |
| `Accounts.LowercaseFixesLowercase` | src/persistence/account.rs:15 | lower-casing a string without upper-case letters returns it unchanged |
| `Accounts.EmailFromIdempotent` | src/persistence/account.rs:14-16 | normalising a normalised address leaves it unchanged |
| `Accounts.EmailFromCaseInsensitive` | src/persistence/account.rs:15 | two inputs give equal addresses exactly when they differ only in letter case |
| `Accounts.AccountTable.FetchAccountByEmail` | src/persistence/account.rs:57-77 | returns a row of the table whose `email_address` equals the address, and returns nothing exactly when there is none; it reads the table without changing it |
| `Accounts.AccountTable.CreateAccount` | src/persistence/account.rs:36-55 | fails exactly when a row with the same lower-cased address exists, leaving the table unchanged; otherwise adds exactly one row, leaves all others unchanged, and a fetch by the address returns the new account |
| `Accounts.UnknownAddressNotFound` | src/persistence/account.rs:87-94 | fetching an address from an empty table returns nothing |
| `Accounts.CreatedAccountFound` | src/persistence/account.rs:96-111 | after creating an account, fetching by its address returns its `account_uid` |
| `Accounts.DuplicateAddressRejected` | src/persistence/account.rs:113-130 | a second account whose address differs from the first only in letter case is rejected, and the address still belongs to the first account |

## Left out

- `Accounts.Lowercase`: covers ASCII letters only. Rust's `to_lowercase` is
  full Unicode case mapping, and the model has no Unicode tables. Non-ASCII
  characters pass through unchanged.
- `Accounts.EmailFrom`: inherits the ASCII-only case mapping of
  `Accounts.Lowercase`.
- `HashedPassword::from_raw` (bcrypt) is left out. It is a slow foreign
  cryptographic primitive. The model treats the hash as an opaque string
  given by the caller.
- `Content`'s markdown serialisation is left out. It depends entirely on the
  `pulldown_cmark` parser. The model treats content as plain text.
- The `created_at` column of `account`, set by `now()`, is left out. Nothing
  reads it.
- `Accounts.AccountTable.CreateAccount`: its "fails exactly when the address
  is taken" clause assumes no constraint on `account_uid`. The migrations are
  not part of this model, and `src/persistence/account.rs` shows only the
  unique index on the lower-cased address. If the schema also makes
  `account_uid` unique, a second insert with a reused UID fails in the source
  but succeeds in the model. Every caller passes a fresh `Uuid::new_v4()`.
- Whether `item.id` is unique is left out. The model takes the serial `id` to
  be the row's position in the table.
- Storage failures other than the constraint and lookup failures above are
  left out. These are connection loss, aborted transactions and similar.
  Every write is one transaction, and the methods commit by assigning both
  fields at once, so a failure changes nothing.
- Concurrency and transaction isolation are left out. They are behaviour of
  the database engine.
- Order of the `src/persistence/mod.rs` listing: its `ORDER BY` sits inside
  the `WITH` clause, and the outer `SELECT` has none. So no order is
  promised, and every contract about that listing is about membership. The
  model's sequence happens to follow item order. The legacy listing
  (`src/persistence.rs:12-19`) is different: there the `ORDER BY i.id`
  applies to the result, and `LegacyItems.SelectItemsOrdered` proves the
  model follows it.
- `Items.UpdateIsVisible` and `LegacyItems.UpdateIsVisible`: the new state is
  promised only when the new event is stamped later than the item's earlier
  events. Update events carry the wall clock (`src/persistence/mod.rs:146`,
  `src/persistence.rs:68`). In `src/persistence/mod.rs`, the creation event
  carries the caller's `created_at` (lines 108 and 134), which may lie in the
  future, and nothing orders it against a later update's clock. The legacy
  store stamps its creation event with the wall clock too, but that clock is
  not kept monotonic either. An update stamped earlier than the item's latest
  event is not reported. With a tie, the engine picks the row.
- Session tokens, HTTP routing, templates and database bootstrap are not
  part of this model.
