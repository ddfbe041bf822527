# Bounded-depth order book with gap/stale reconciliation

This project models the core of a small Rust client that keeps a local copy of
the top of a trading pair's limit order book (the `PERP_ETH_USDT` perpetual on
the WOO X exchange). Two parts are modelled:

- **The order book** (`src/orderbook.rs`). A bid side sorted best (highest) price
  first, an ask side sorted best (lowest) price first, each cut to 5 levels, and
  the timestamp `last_ts` of the last snapshot or delta applied.
  - `apply_snapshot` replaces both sides with a sorted, truncated copy of a full
    snapshot.
  - `update` merges a delta level by level through `update_level`. That
    function either deletes a price (quantity 0), overwrites a quantity in
    place, or inserts a new price, then re-sorts and truncates.
- **The synchronisation loop** (`src/ws_client.rs`). The reading task forwards
  only update frames whose topic starts with `orderbookupdate`. The consuming
  loop bootstraps from one snapshot, then compares the book's `last_ts` with
  each delta's `prevTs`. Equal means the delta is applied. A book behind the
  delta means a gap: a fresh snapshot replaces the book and the delta is
  dropped. A book ahead means the delta is stale and is ignored.

Layout:

| file | module | contents |
|---|---|---|
| `wrappers.dfy` | `Wrappers` | `Option` |
| `dto.dfy` | `Dto` | the wire records: `BidAsk`, `UpdateData`, `WsUpdate`, `Snapshot` |
| `decimal.dfy` | `Decimal` | the decimal-string parser standing in for `str::parse::<f64>`, and natural-number printing |
| `levels.dfy` | `Levels` | `Level`, side order, and one side's operations as functions (`Retain`, `FindPrice`, `SetQuantity`, stable insertion sort `SortSide`, `Truncate`, `ApplyLevel`, `MergeSide`) |
| `side_properties.dfy` | `SideProperties` | what those operations preserve and produce |
| `orderbook.dfy` | `OrderbookModel` | the book as a value (`BookState`, `FromSnapshot`, `Merge`) and the class `Orderbook`, whose methods update `bids`, `asks` and `lastTs` step by step and are proved equal to those functions |
| `ws_client.dfy` | `WsClient` | frame filter, subscription channel name, one reconciliation step on the live book, and the whole session over a sequence of updates |
| `scenarios.dfy` | `Scenarios` | worked examples: a one-level snapshot, a deletion and an insertion that evicts the worst level |

Modelling choices:

- **Numbers.** Prices and quantities are `real`. The source stores `f64`, but it
  only compares them with `==`, `!=` and `<`, and never does arithmetic on
  them.
- **Parsing.** A price or quantity string is read by a decimal grammar: an
  optional sign, digits, an optional fractional part, and at least one digit.
  A string that does not parse becomes `0.0`, as `unwrap_or(0.0)` makes it
  (`src/orderbook.rs:132-133`). So an unparseable quantity deletes its price
  (`SideProperties.UnparseableQuantityDeletes`).
- **Sorting.** Rust's `sort_by` is stable. It is modelled as a stable insertion
  sort that keeps equal prices in their input order.
- **Duplicate prices.** Sides are not deduplicated: a snapshot carrying the
  same price twice keeps both levels (`src/orderbook.rs:33-49`). So a side is
  only *non-strictly* sorted in general. "Prices are unique" is a separate
  property, proved to be preserved by every delta and by sorting.
- **Snapshot fetches.** The HTTP request is a parameter
  `fetch: nat -> Option<Snapshot>`. The n-th request made in a session returns
  `fetch(n)`, and `None` stands for a failed request. The source unwraps the
  result, so a failure ends the process. The model records this as
  `Aborted(Bootstrap | Resync, book)`.
- **Frames and updates.** The reading task and the channel are modelled as
  sequences in arrival order. The first frame read after subscribing is the
  server's reply and is consumed without being forwarded, whatever it holds
  (`src/ws_client.rs:32-34`). A session that consumed every update without
  aborting is the case where the channel closed: `connect_ws` then returns
  `Err(ConnectionClosed)` (`src/ws_client.rs:113`).
- **Idempotent snapshots.** `Orderbook.ApplySnapshot` ensures
  `State() == FromSnapshot(snapshot)`, an expression that does not mention the
  previous state. So applying the same snapshot twice gives the same book.

## Model

| member | source | states |
|---|---|---|
| Decimal.ParseDecimal | src/orderbook.rs:132-133 | a price or quantity string parses only if it is non-empty and holds a digit; otherwise the parse fails (`None`) |
| Decimal.DecimalValue | src/orderbook.rs:132-133 | the value of `whole.frac` is never negative |
| Decimal.ParseUnsignedFraction | src/orderbook.rs:132-133 | an unsigned `w.f` with at least one digit parses to the whole digits plus the fraction digits over 10^len(f) |
| Decimal.ParseUnsignedWhole | src/orderbook.rs:132-133 | a non-empty digit string parses to its value |
| Decimal.ParseDecimalFraction | src/orderbook.rs:132-133 | a price or quantity written `w.f` (either part may be empty, not both) parses to its exact value |
| Decimal.ParseDecimalWhole | src/orderbook.rs:132-133 | a price or quantity written as plain digits parses to its value |
| Decimal.ParseSigned | src/orderbook.rs:132-133 | a leading `-` negates the value of the rest, a leading `+` keeps it |
| Decimal.ParseUnsignedAlone | src/orderbook.rs:132-133 | an unsigned decimal starting with a digit or `.` parses as itself |
| Decimal.NatToString | src/ws_client.rs:25 | the `{}` rendering of a number is a non-empty digit string with no leading zero |
| Decimal.ParseNatToString | src/ws_client.rs:25 | the digits printed for a number parse back to that same number |
| Levels.ParseNumber | src/orderbook.rs:132-133 | a string that parses gives its value; one that does not gives 0.0 |
| Levels.ParseLevels | src/orderbook.rs:33-41 | the parsed side has one level per wire level, and the i-th is the parse of the i-th wire level |
| Levels.Retain | src/orderbook.rs:82-84 | `retain`: a level is kept iff it was present and its price differs from the deleted one; an absent price leaves the side unchanged |
| Levels.FindPrice | src/orderbook.rs:86 | `iter_mut().find`: the first index holding the price, or none when no level holds it |
| Levels.SetQuantity | src/orderbook.rs:87-89 | the in-place write changes only the quantity at that index; length and all prices stay the same |
| Levels.Insert | src/orderbook.rs:44-45 | one step of the stable sort adds exactly the new level to the multiset of levels |
| Levels.InsertSorted | src/orderbook.rs:44-45 | inserting into a side sorted in its order keeps it sorted |
| Levels.SortSide | src/orderbook.rs:44-45 | `sort_by`: the result is a permutation of the input (same multiset) sorted in the side's order |
| Levels.Truncate | src/orderbook.rs:48-49 | `truncate(5)`: a prefix of length min(5, n) |
| Levels.SideFromRaw | src/orderbook.rs:33-49 | a snapshot side is sorted and has at most 5 levels; it is the first min(5, n) levels of a sorted permutation of the parsed input |
| SideProperties.RetainKeepsSorted | src/orderbook.rs:82-84 | a deletion keeps a side sorted |
| SideProperties.RetainKeepsUnique | src/orderbook.rs:82-84 | a deletion keeps prices unique |
| SideProperties.RetainRemovesExactlyOne | src/orderbook.rs:82-84 | on a side with unique prices, deleting a present price removes exactly that level; the others stay in their original order |
| SideProperties.SetQuantityKeepsOrder | src/orderbook.rs:86-89 | overwriting a quantity keeps sortedness and price uniqueness |
| SideProperties.InsertAtEnd | src/orderbook.rs:44-45 | a level that beats none of a side goes after all of them (stability) |
| SideProperties.SortedDropLast | src/orderbook.rs:44-45 | the prefix of a sorted side is sorted, and its last level beats none before it |
| SideProperties.SortOfSorted | src/orderbook.rs:44-45 | sorting an already sorted side leaves it exactly as it is |
| SideProperties.SortPushWorst | src/orderbook.rs:93-98 | pushing a level no better than any in a sorted side and re-sorting leaves it last |
| SideProperties.InsertKeepsUnique | src/orderbook.rs:93-98 | inserting a level at a new price keeps prices unique |
| SideProperties.SortKeepsUnique | src/orderbook.rs:44-45 | sorting keeps prices unique |
| SideProperties.SortedTail | src/orderbook.rs:44-45 | the tail of a sorted side is sorted |
| SideProperties.UniqueTail | src/orderbook.rs:82-89 | the tail of a side with unique prices has unique prices |
| SideProperties.SameHead | src/orderbook.rs:44-45 | two sorted arrangements of the same levels, one with unique prices, start with the same level |
| SideProperties.SortedPermutationIsUnique | src/orderbook.rs:44-45 | with unique prices there is only one sorted arrangement of a set of levels, so the sorted side is determined by its levels |
| SideProperties.CountBetter | src/orderbook.rs:91-101 | the rank of a new level (how many levels beat it) is at most the side's length |
| SideProperties.CountBetterNone | src/orderbook.rs:91-101 | a level beaten by none of a side has rank 0 |
| SideProperties.InsertAtRank | src/orderbook.rs:93-98 | on a sorted side, a level at a new price is inserted exactly after the levels that beat it |
| SideProperties.SurvivesIffRanked | src/orderbook.rs:100-101 | after truncation, the new level is present iff fewer than 5 levels beat it |
| SideProperties.InsertNewLevel | src/orderbook.rs:91-101 | inserting a new price gives a sorted side of at most 5 levels, equal to the old side with the level at its rank cut to 5; the level survives iff fewer than 5 levels beat it; unique prices stay unique |
| SideProperties.SortPushedNewLevel | src/orderbook.rs:93-98 | push-then-sort on a sorted side places the new level at its rank |
| SideProperties.TruncateKeepsOrder | src/orderbook.rs:100-101 | truncation keeps sortedness and price uniqueness |
| SideProperties.ApplyLevelKeepsShape | src/orderbook.rs:71-105 | every branch of `update_level` keeps a side sorted and at most 5 long, and keeps prices unique if they were |
| SideProperties.ApplyLevelCases | src/orderbook.rs:82-101 | on a side with unique prices: quantity 0 removes exactly the level at that price; a known price has only its quantity overwritten; a new price is inserted at its rank and the side cut to 5 |
| SideProperties.MergeSideKeepsShape | src/orderbook.rs:61-67 | merging all levels of a delta side keeps it sorted and at most 5 long, and keeps prices unique if they were |
| SideProperties.UnparseableQuantityDeletes | src/orderbook.rs:131-135 | a level whose quantity does not parse acts as a deletion of its price |
| OrderbookModel.Empty | src/orderbook.rs:19-25 | the new book is well formed and has no duplicate prices |
| OrderbookModel.FromSnapshot | src/orderbook.rs:28-50 | after a snapshot both sides are sorted with at most 5 levels (min(5, n) of each side), and `last_ts` is the snapshot's timestamp |
| OrderbookModel.Merge | src/orderbook.rs:58-68 | an update always sets `last_ts` to its `ts`, keeps both sides sorted and at most 5 long, and keeps prices unique |
| OrderbookModel.MergeSidesIndependent | src/orderbook.rs:58-67 | bid levels never change the asks and ask levels never change the bids |
| OrderbookModel.Orderbook.constructor | src/orderbook.rs:19-25 | `new`: empty bids, empty asks, `last_ts` 0 |
| OrderbookModel.Orderbook.LastTs | src/orderbook.rs:53-55 | returns the timestamp of the book's state |
| OrderbookModel.Orderbook.ApplySnapshot | src/orderbook.rs:28-50 | the clear/push/sort/truncate sequence leaves the book equal to `FromSnapshot(snapshot)`, whatever it held before |
| OrderbookModel.Orderbook.Update | src/orderbook.rs:58-68 | the level-by-level loops leave the book equal to `Merge(old book, update)` |
| OrderbookModel.Orderbook.UpdateLevel | src/orderbook.rs:71-105 | only the chosen side changes, to `ApplyBidAsk` of its old value; the other side and `last_ts` are unchanged |
| WsClient.SubscriptionChannel | src/ws_client.rs:25 | the subscribed channel `orderbookupdate@<symbol>@<depth>` passes the topic filter, has `@` at both separators with exactly the symbol between them, and its suffix parses back to the depth |
| WsClient.Relevants | src/ws_client.rs:37-53 | every forwarded payload comes from a frame with an orderbook topic, and every such frame's payload is forwarded |
| WsClient.RelevantsAppend | src/ws_client.rs:37-53 | frames read in two batches forward the first batch's payloads, then the second's: arrival order and multiplicity are kept |
| WsClient.RelevantsSingle | src/ws_client.rs:41-42 | one frame forwards its payload exactly when its topic starts with `orderbookupdate` |
| WsClient.Ingest | src/ws_client.rs:31-54 | the reading loop forwards exactly the relevant frames after the first, in arrival order |
| WsClient.Step | src/ws_client.rs:95-111 | one loop iteration on the live book gives exactly the reconciliation step's result |
| WsClient.Run | src/ws_client.rs:88-111 | a new book takes the first snapshot before any update is looked at, then the updates are reconciled in order |
| WsClient.ConsumeUpdates | src/ws_client.rs:95-111 | the consuming loop reconciles the updates in order and stops at a failed fetch |
| WsClient.ConnectWs | src/ws_client.rs:74-113 | the whole session is the forwarded updates reconciled after the bootstrap snapshot |
| WsClient.AbortedIsFinal | src/ws_client.rs:89 | after a failed fetch nothing more happens |
| WsClient.ConsumeAppend | src/ws_client.rs:95 | reconciling two batches in turn is reconciling their concatenation |
| WsClient.ConsumeKeepsWellFormed | src/ws_client.rs:95-111 | over any updates and snapshots, both sides stay sorted and at most 5 long after every step |
| WsClient.SessionWellFormed | src/ws_client.rs:88-111 | a session's book is always well formed, and a failed bootstrap fetch aborts before any update |
| WsClient.StaleUpdatesChangeNothing | src/ws_client.rs:107-110 | updates whose `prevTs` is older than the book leave the book and the fetch count unchanged |
| WsClient.ChainedPrefix | src/ws_client.rs:97-99 | a prefix of a chain of updates is a chain |
| WsClient.ChainedUpdatesAllApply | src/ws_client.rs:97-99 | a chain of updates starting at the book's timestamp is all applied, with no fetch, and ends at the last `ts` |
| WsClient.ReconcileCases | src/ws_client.rs:97-110 | exactly one branch runs: equal timestamps merge the delta and take its `ts`; a gap replaces the book by the next snapshot and takes its timestamp, or aborts; a stale delta changes nothing |
| WsClient.GapDropsUpdate | src/ws_client.rs:101-104 | on a gap none of the delta's levels reach the book: the result is the fetched snapshot's book |
| Scenarios.SingleLevelSide | src/orderbook.rs:33-49 | a snapshot side with one level is that level |
| Scenarios.SnapshotScenario | src/orderbook.rs:28-50 | a snapshot at 100 whose bid and ask strings parse to (10,1) and (11,1) gives exactly that book at 100 |
| Scenarios.DeletionScenario | src/ws_client.rs:97-99 | a delta 100 to 101 whose bid strings parse to (10,0), applied to that book, empties the bids and moves to 101 |
| Scenarios.WireLevel | src/orderbook.rs:131-135 | prices and quantities printed as decimal naturals parse to exactly those numbers, so the wire levels of the examples exist |
| Scenarios.SnapshotScenarioOnWire | src/orderbook.rs:28-50 | the snapshot example written with the strings "10", "11" and "1" gives exactly the expected book |
| Scenarios.DeletionScenarioOnWire | src/ws_client.rs:97-99 | the deletion example written with the strings "10" and "0" empties the bids and moves to 101 |
| Scenarios.InsertionScenario | src/orderbook.rs:91-101 | bids 10,9,8,7,6 plus 9.5 give 10,9.5,9,8,7: the new level takes its rank and 6 is evicted |
| Scenarios.InsertionScenarioFacts | src/orderbook.rs:91-101 | the bids of the insertion example are sorted, lack 9.5, and exactly one of them beats 9.5 |

## Left out

- Network I/O. The websocket connection, the subscribe send, frame reads and the
  `tokio::spawn`/`mpsc` producer–consumer pair are left out. Frames and updates
  are sequences in arrival order.
- The HTTP snapshot request (`fetch_orderbook_snapshot`), its URL and
  `SNAPSHOT_MAX_LEVEL`. The request is the `fetch` parameter.
- JSON (de)serialisation. Any frame that is not a text message decoding as an
  update envelope is `Frame.Other`.
- Console output. `print_columnar`, the `Display` of the book, and every
  `println!`/`eprintln!` are left out.
- The loop exit when a channel send fails (`src/ws_client.rs:42-45`). The
  consumer never drops the receiver while it runs.
- `src/orderbook_service.rs`, `src/consts.rs` and `src/ws_types.rs` are not
  part of this model. They are not declared as modules in `src/main.rs`.
- Decimal.ParseDecimal: it accepts only sign, digits and one decimal point.
  Exponents, `inf`, `NaN` and f64 rounding are not modelled, so two strings
  denoting the same `f64` after rounding may parse to different reals. The
  `partial_cmp(..).unwrap()` panic on NaN cannot occur in the model. Its
  own contract gives only when a parse can succeed; the value is stated by
  `ParseDecimalFraction`, `ParseDecimalWhole` and `ParseSigned`.
- OrderbookModel.Orderbook.LastTs: `last_ts` is a `u64`; the model uses an
  unbounded `nat`.
- Levels.Retain: its contract states which levels are kept. The order of the
  kept levels is stated only for sides with unique prices
  (`SideProperties.RetainRemovesExactlyOne`).
- Levels.SortSide: its contract states a sorted permutation. Stability is
  visible in its definition and in `SideProperties.InsertAtEnd`, but it is not
  stated as a theorem. With unique prices the sorted arrangement is unique
  (`SideProperties.SortedPermutationIsUnique`), so stability matters only for
  snapshots carrying a price twice.
- Scenarios.InsertionScenario: the insertion example uses the source's depth
  of 5 (bids 10..6 plus 9.5) rather than a depth-2 book.
