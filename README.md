# Simple-Orderbook in Dafny

This project models the core of Simple-Orderbook. The program turns per-exchange
order-book snapshots (Coinbase, Gemini, Kraken) into one figure per side: the
notional cost of filling 10 units against the merged book. The model has four parts,
one per source file:

- `order_book.dfy` (module `OrderBooks`): the canonical `Order` (exchange tag,
  price, quantity) and `OrderBook` (bids, asks).
- `order.dfy` (module `Adapters`): the three `From` conversions from the raw
  snapshot shapes. Each maps the raw bid and ask arrays entry by entry.
- `sorting.dfy` (module `BookSort`) and `main.dfy` (module `Merger`): the two merge
  blocks and two `sort_by` calls of `main`. The selected books are drained into one
  vector, Coinbase first, then Gemini, then Kraken. The vector is sorted in place
  (bids by descending price, asks by ascending price) and each side is priced for
  10 units.
- `utils.dfy` (module `PriceWalk`): `calculate_price`, the loop that walks an
  execution-ordered book.

`wrappers.dfy` holds `Option` and `Result`.

Prices and quantities are `real`. The program's expected results (14.9, 530, 528)
are proved as exact values. Parsing a numeral is the library's `str::parse::<f64>`.
It is a parameter `parse: string -> Option<real>` of every adapter. When it returns
`None`, the source panics in `unwrap`; the model returns `Err(ParseError)`. When
Kraken's `result` map is empty, `values().next().unwrap()` panics; the model returns
`Err(EmptyResult)`.

`CalculatePrice` is proved equal to `ExecutionCost`, a closed form built on
`FirstReach`. `FirstReach(s, target)` is the first index at which the running
quantity reaches the target, or `|s|` if none does. The lemmas about `ExecutionCost`
give the consumed amount at each level, a bound on the total filled, the
insufficient-liquidity case and the irrelevance of later levels.

`SortInPlace` is an insertion sort on an array. It is proved equal to the pure
`StableSort`. Lemmas prove that `StableSort` is in execution order, is a permutation,
keeps equal-price orders in merge order, and is idempotent. `StableSortIsUnique`
shows that these properties determine the result. So the library's stable merge
sort produces the same sequence.

## Where the code and the design description differ

The model follows the code in each case below.

- The design asks the adapters to reject orders whose price or quantity is not
  positive. The code does not check this: any numeral that parses is kept.
- The design asks for a shape error when Kraken's `result` map does not hold exactly
  one entry. The code only fails on an empty map. With several entries it takes
  whichever one the map yields first. `FromKraken` picks an arbitrary entry, and
  `KrakenSinglePair` covers the one-entry case.
- The design asks the walker to report when liquidity falls short of the target. The
  code returns the notional of the whole book with no signal (`InsufficientLiquidity`).
- The design mentions per-exchange quantity and worst-price accounting in the walker.
  This code has none.
- `Order` declares a `String` field `exchange_name`, but the adapters and tests build
  orders without it. The model makes the tag an `Option<string>`, and the adapters
  leave it `None`.

## Model

| member | source | states |
|---|---|---|
| OrderBooks.OrderEquality | src/order_book.rs:1-6 | Two orders are equal exactly when their tag, price and quantity are equal (the derived `PartialEq`). |
| OrderBooks.BookDeterminedBySides | src/order_book.rs:8-12 | A book is exactly its two sides: two books are equal iff their bids and their asks are equal. |
| Adapters.ParseOrder | src/order.rs:45-48 | One entry converts iff both its price and its quantity numerals parse. The order then carries the parsed values and no tag; otherwise the result is a parse error. |
| Adapters.CollectAll | src/order.rs:42-49 | The mapped sequence succeeds iff every entry converts. It then has the same length and holds entry i's conversion at position i. Otherwise the error is that of the first entry that fails. |
| Adapters.FromTupleSides | src/order.rs:42-60 | A tuple-shaped book converts iff every bid and ask parses. Each side is then converted element by element in order, price from the first element and quantity from the second. Any failure is a parse error. |
| Adapters.FromCoinbase | src/order.rs:40-62 | Coinbase conversion keeps the length and order of each side and takes price and quantity from tuple elements 0 and 1. It fails exactly when some numeral does not parse. |
| Adapters.FromGemini | src/order.rs:72-94 | Gemini conversion takes price from `price` and quantity from `amount`, element by element and in order. It fails exactly when some numeral does not parse. |
| Adapters.FromKraken | src/order.rs:104-128 | Kraken conversion fails with an empty-result error iff the map is empty. Otherwise it converts the bids and asks of some entry of the map. |
| Adapters.KrakenSinglePair | src/order.rs:106-106 | With exactly one pair in `result`, that pair's book is the one converted. |
| Adapters.StampIgnored | src/order.rs:7-8 | The third tuple element never influences the converted book. |
| Adapters.SidesIndependent | src/order.rs:42-60 | The converted bids do not depend on the asks. |
| PriceWalk.FirstReach | src/utils.rs:13-17 | The stopping index k is at most the length. Every level before it leaves the running quantity below the target, and level k (if any) brings it to the target or beyond. |
| PriceWalk.FirstReachUnique | src/utils.rs:13-17 | Those two conditions determine the stopping index uniquely. |
| PriceWalk.CalculatePrice | src/utils.rs:7-25 | The loop returns `ExecutionCost`: full levels before the stopping level, then the stopping level for the remainder only, or the whole book if it runs out. It has no `modifies` clause, so the slice is unchanged. |
| PriceWalk.FinalLevelShare | src/utils.rs:14-16 | The amount taken from the stopping level, `quantity - leftover`, equals `target - filled` and lies in (0, quantity]. |
| PriceWalk.CostIsSumOfTaken | src/utils.rs:13-21 | The result is the sum over levels of price times the amount taken at that level. |
| PriceWalk.TakenIsMinOfTargetAndLiquidity | src/utils.rs:13-24 | No level gives more than its own quantity, and levels after the stopping level give nothing. The total taken is min(target, total liquidity). |
| PriceWalk.LaterLevelsIgnored | src/utils.rs:14-17 | Replacing everything after the stopping level leaves the result unchanged. |
| PriceWalk.ExactFill | src/utils.rs:14-17 | A level that brings the running quantity exactly to the target takes the break branch and is consumed in full. |
| PriceWalk.InsufficientLiquidity | src/utils.rs:13-24 | When the book holds less than the target, every level is consumed. The result is the book's whole notional, with no signal. |
| PriceWalk.EmptyBookCostsNothing | src/utils.rs:8-9 | An empty book yields 0. |
| PriceWalk.WalkExample | src/tests.rs:56-73 | Levels (1.0, 5.1), (2.0, 7.1) with target 10 cost exactly 14.9. |
| BookSort.InsertAt | src/main.rs:109-109 | One insertion step moves the next order left past the orders it strictly precedes. The rest of the array is unchanged. |
| BookSort.SortInPlace | src/main.rs:109-109 | Sorting in place leaves `StableSort` of the old contents: in execution order and a permutation of the input. |
| BookSort.SortOrders | src/main.rs:133-133 | The sorted side is in execution order: bid prices non-increasing, ask prices non-decreasing. |
| BookSort.SortPermutes | src/main.rs:109-109 | The sorted side is a permutation of the merged side. |
| BookSort.SortKeepsTies | src/main.rs:133-133 | Stability: orders at the same price keep their merge order. |
| BookSort.SortIdempotent | src/main.rs:109-109 | Re-sorting a side already in execution order leaves it unchanged. |
| BookSort.TiesDetermineOrder | src/main.rs:109-109 | Two sequences in execution order that list the same orders at every price are equal. |
| BookSort.StableSortIsUnique | src/main.rs:133-133 | Any sort into execution order that keeps ties in order yields exactly `StableSort`. |
| BookSort.SortExamples | src/tests.rs:8-54 | The two sorting tests: asks priced 2, 1, 3 sort to 1, 2, 3, and bids sort to 3, 2, 1. |
| Merger.Append | src/main.rs:88-90 | Appending a selected book's side grows the vector by exactly that side and leaves the book's side empty with its other side intact. An unselected book adds nothing. |
| Merger.MergeSide | src/main.rs:86-98 | The merged side is Coinbase ++ Gemini ++ Kraken of the selected books, unselected books contributing nothing. Its length is the sum of theirs, and each book's side is moved out. |
| Merger.QuotePrices | src/main.rs:86-136 | Both sides are merged and sorted. Bids end up non-increasing and asks non-decreasing, each a permutation of its merged side. The sell price is the cost of 10 against the sorted bids, the buy price the cost against the sorted asks. |
| Merger.SellExample | src/tests.rs:75-99 | Bids (54, 5), (52, 6) are already sorted and cost exactly 530 for 10 units. |
| Merger.BuyExample | src/tests.rs:101-124 | Asks (54, 5), (52, 6) sort to (52, 6), (54, 5) and cost exactly 528 for 10 units. |

## Left out

- The HTTP fetches, the async runtime, the exchange selection prompt and its
  fall-through arm, and all printing and time stamps are I/O. The selection is given
  as three optional books.
- JSON decoding (`serde::Deserialize`) is a foreign library. The model starts from
  already-shaped raw records. Fields the program never reads (Gemini's `timestamp`)
  are not modelled.
- `str::parse::<f64>` is a foreign function. It is the `parse` parameter, and nothing
  is assumed about which strings it accepts.
- IEEE-754 floating point (rounding, NaN, signed zero) is not modelled: arithmetic is
  exact on `real`. Without NaN the comparators' `partial_cmp(...).unwrap()` cannot
  panic, so that panic is not modelled.
- Adapters.FromKraken: `HashMap` iteration order is unspecified. The model picks an
  arbitrary entry, which makes this member ghost. With several entries it does not
  say which one the library would yield.
- Adapters.RawLevel: the third tuple element is a `u64` in the source and a `nat`
  here. Its width is irrelevant because it is never read.
- `Clone` and `Debug` are not modelled: Dafny datatypes are values, so a clone is the
  value itself.
- BookSort.SortInPlace: the library's `sort_by` is a stable merge sort. The model
  uses a stable insertion sort, and `StableSortIsUnique` proves both give the same
  sequence. The model does not cover the library's running time or memory.
- Merger.MergeSide: the growing `Vec` is modelled as a sequence and the books as
  values returned drained. Copying the merged vector into an array (`ToArray`) only
  gives the in-place sort its storage.
- Per-exchange liquidity and worst-price accounting, and an insufficient-liquidity
  flag, are not in this code, so they are not modelled.
