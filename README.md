# Limit order book: a Dafny model

This project models the core of a C++ limit order book with price-time
priority:

- **OrderBook.** The bid side is a `std::map` from price to a vector of
  orders ordered by `std::greater`, so the highest price comes first. The
  ask side is the same map ordered ascending. The class also holds a match
  counter and a list of latency samples.
  - `add_order` inserts an order and runs the matching loop.
  - `cancel_order` finds an order by id and erases it.
  - The getters report best prices, side volumes and the spread.
  - `export_to_csv` and `get_book_state` render the book.
- **Order.** An order has an id, a price, a quantity, a side and a
  timestamp; only the quantity can change.
- **CSVParser rules.** The model covers splitting a line with
  `std::getline`, `validate_line`, the decoding in `parse_order_line`,
  the line loop of `read_orders`, and the side field of `format_order`.

Modules, one per file:

- `Options` (`options.dfy`): an `Option` datatype.
- `Orders` (`order.dfy`): the Order record as a datatype. `SetQuantity` is
  its one update. The C++ engine keeps orders by value, so this is the same
  thing.
- `Ladders` (`book_side.dfy`): one side of the book.
  - A side is the map's entries in iteration order, so `begin()` is the
    first level and `rbegin()` the last.
  - The model covers `operator[]` followed by `push_back`, the volume sums,
    and the filter of `remove_empty_price_levels`.
- `Matching` (`matching.dfy`): the matching algorithm on book values.
  - A pairing step, the drain of two head queues, and the outer loop as
    written.
  - A corrected outer loop that terminates (see Findings).
- `Cancelling` (`cancel.dfy`): `cancel_order` on book values, and the
  search loops on one side.
- `Engine` (`order_book.dfy`): the `OrderBook` class.
  - Its methods change `bids`, `asks`, `totalMatches` and `latencies` in
    place.
  - Each method is proved against the value functions of the modules above.
- `Export` (`export.dfy`): the rows of `export_to_csv` and the lines of
  `get_book_state`, as written and as intended.
- `Csv` (`csv_parser.dfy`): the line rules of `CSVParser`.
  - `std::stoi`, `std::stod` and `std::stoll` are passed in as fallible
    functions (`NumberParsers`).
  - The number renderers of `format_order` are passed in as functions
    (`Renderers`).
  - `add_order`'s clock reading becomes a parameter, `elapsed`.

The model follows the code where the code and its own comments and tests
expect something else:

- The MatchOrders test (tests/main_test.cpp:29-41) expects matching to
  finish with one fill. The code's loop never finishes once the book is
  crossed.
- The comment at src/order_book.cpp:179 says the export lists bids highest
  price first. The code lists them lowest price first. `get_book_state`
  walks the bids the same way and prints the whole side's volume on every
  level line.

Each of these has an as-written member and a corrected member (see
Findings). The `OrderBook` class uses the corrected matching loop, so that
`AddOrder` can end.

## Model

| member | source | states |
|---|---|---|
| Orders.Order.SetQuantity | include/order.hpp:19 | set_quantity replaces the quantity with any value, unguarded, and leaves id, price, side and timestamp unchanged |
| Orders.Order.IsValid | src/order.cpp:23-25 | is_valid: id, price and quantity all positive; what follows from it is stated by the three lemmas below |
| Orders.ValidityIgnoresSideAndTimestamp | src/order.cpp:23-25 | is_valid does not depend on the side or the timestamp |
| Orders.SetQuantityCanInvalidate | include/order.hpp:19 | a valid order stays valid after set_quantity(q) exactly when q > 0 |
| Orders.ConstructionDoesNotValidate | src/order.cpp:5-11 | the constructor keeps its arguments as given: the orders with price -100 or quantity 0 from the InvalidOrder test exist and are invalid, and a positive order is valid |
| Ladders.OrderedKeys | include/order_book.hpp:35-36 | a side ordered by its comparator has distinct keys, and its first key sorts before all the others (best price first) |
| Ladders.AbsentBeforeHead | include/order_book.hpp:35-36 | a price that sorts before every key of an ordered side has no entry in it |
| Ladders.PushBack | src/order_book.cpp:14-18 | `side[price].push_back(o)` creates at most one level |
| Ladders.PushBackAt | src/order_book.cpp:14-18 | `side[price].push_back(o)` appends o to the tail of the queue at o's price, or creates that level; every other price keeps its queue |
| Ladders.PushBackOrdered | src/order_book.cpp:14-18 | the push keeps the keys distinct and in comparator order |
| Ladders.PushBackLadderOk | src/order_book.cpp:14-18 | the push of a valid order of the side's own kind keeps every queue at its own price and side, and creates no empty level |
| Ladders.PushBackVolume | src/order_book.cpp:14-18 | the push adds exactly the order's quantity to the side's volume |
| Ladders.Volume | src/order_book.cpp:122-140 | the volume getters' sum over levels; levels that sum to non-negative amounts give a non-negative volume |
| Ladders.VolumeIsSumOfOrders | src/order_book.cpp:122-140 | the level-by-level volume equals the sum of quantities over all resting orders of the side |
| Ladders.SumQtyPositive | src/order_book.cpp:122-140 | a queue of valid orders sums to a non-negative volume, which is zero only when the queue is empty |
| Ladders.VolumeSign | src/order_book.cpp:122-140 | a well-formed side without empty levels has a non-negative volume, which is zero only when the side is empty |
| Ladders.NonEmptyLevels | src/order_book.cpp:96-112 | the filter of remove_empty_price_levels leaves no empty level and never grows the side |
| Ladders.NonEmptyLevelsKeepsExactly | src/order_book.cpp:96-112 | a level survives exactly when it was there and non-empty, and a side without empty levels is left as it is |
| Ladders.NonEmptyLevelsKeepsShape | src/order_book.cpp:96-112 | erasing empty levels keeps a side ordered and its queues well formed |
| Ladders.NonEmptyLevelsVolume | src/order_book.cpp:96-112 | erasing empty levels does not change the side's volume |
| Ladders.NonEmptyLevelsHead | src/order_book.cpp:96-112 | after the filter, the first key is the old first key or sorts after it |
| Ladders.NonEmptyLevelsSkip | src/order_book.cpp:97-103 | erasing one empty level during the walk does not change which levels the filter keeps |
| Ladders.Reversed | src/order_book.cpp:161 | the rbegin-to-rend walk visits level i of the reversed side at position length-1-i of the side |
| Matching.Min | src/order_book.cpp:81 | std::min: the result is one of the two quantities and is at most both |
| Matching.Pair | src/order_book.cpp:80-94 | try_match_orders on two non-empty queues: every step pops at least one order, so the inner loop ends |
| Matching.PairStep | src/order_book.cpp:80-94 | one pairing step: the fill is positive, and neither head goes negative; exactly the heads that reach zero are popped from the front; a surviving head keeps its place with the fill taken off |
| Matching.PairConserves | src/order_book.cpp:81-84 | a pairing step takes the same quantity, the fill, off both queues |
| Matching.Drain | src/order_book.cpp:68-78 | the inner loop of match_orders_at_price stops with one of the two head queues empty; when both started non-empty it counted at least one step and at most one step per order removed |
| Matching.DrainConserves | src/order_book.cpp:68-78 | draining two head queues removes equal quantities from them |
| Matching.DrainFifo | src/order_book.cpp:68-94 | time priority inside a level: each queue that is left is a suffix of the old one, whose first order may be partly filled, and all its quantities stay positive |
| Matching.MatchAtPrice | src/order_book.cpp:68-78 | match_orders_at_price drains the two head queues in place and keeps both head levels, even when they are now empty; the other levels are untouched and the counter does not go down |
| Matching.RemoveEmpty | src/order_book.cpp:96-112 | remove_empty_price_levels on both sides leaves no empty level and keeps the counter |
| Matching.MatchOrdersAsWritten | src/order_book.cpp:54-66 | match_orders as written, with a bound on its iterations; when it returns, both sides have no empty level and the counter has not gone down |
| Matching.AsWrittenStuckAfterOnePass | src/order_book.cpp:55-64 | after one inner pass, a crossed book is still crossed, and a further pass changes nothing: the outer loop sits at a fixpoint with its guard true |
| Matching.AsWrittenHangsWhenCrossed | src/order_book.cpp:54-66 | as written, match_orders never returns on a crossed book, however large the bound on its iterations |
| Matching.AsWrittenReturnsIff | src/order_book.cpp:54-66 | as written, match_orders returns exactly when the book is not crossed on entry, and then it only erases empty levels |
| Matching.MatchOrdersTestHangs | src/order_book.cpp:9-20 | the MatchOrders test (buy 1@100x10, then sell 2@100x5) calls match_orders on a crossed book, which never returns |
| Matching.IntendedPass | src/order_book.cpp:59-60 | corrected pass: match_orders_at_price, then erase the emptied head levels; every pass erases at least one level |
| Matching.MatchIntended | src/order_book.cpp:55-64 | the corrected outer loop ends on a book that is not crossed, and the counter never goes down |
| Matching.IntendedPassOk | src/order_book.cpp:59-60 | a corrected pass keeps both sides ordered and every queue at its own price and side |
| Matching.IntendedPassConserves | src/order_book.cpp:68-94 | a corrected pass takes as much volume off the bids as off the asks |
| Matching.Settle | src/order_book.cpp:54-66 | corrected match_orders: the loop, then the level cleanup; no empty level is left and the counter never goes down |
| Matching.SettleSettles | src/order_book.cpp:54-66 | corrected match_orders leaves the book at rest: both sides well formed, no empty level, and either a side empty or best bid < best ask |
| Matching.SettleConserves | src/order_book.cpp:54-112 | matching removes equal volume from both sides |
| Matching.SettleCounts | src/order_book.cpp:72-77 | on a book without empty levels, the counter grows exactly when the book was crossed |
| Matching.SettleIdle | src/order_book.cpp:54-66 | matching a book that is at rest changes nothing |
| Matching.IntendedAgreesWhereSourceReturns | src/order_book.cpp:54-66 | wherever the code's match_orders returns, the corrected loop gives the same book |
| Cancelling.IndexOfId | src/order_book.cpp:32-33 | find_if by id: an index in the queue, or its length when not found |
| Cancelling.IndexOfIdFirst | src/order_book.cpp:32-33 | find_if stops at the first order with the id: no order before it has the id |
| Cancelling.FirstLevelWithFirst | src/order_book.cpp:31-39 | the walk stops at the first level, in iteration order, whose queue holds the id |
| Cancelling.RemoveFirst | src/order_book.cpp:31-39 | one side of cancel_order: erases at most one level |
| Cancelling.RemoveFirstRemovesFirstMatch | src/order_book.cpp:29-52 | on one side: an order is found exactly when some resting order has the id; the first such order in iteration order (best price first, front of the queue first) is taken out; every other order keeps its place |
| Cancelling.RemoveFirstKeepsShape | src/order_book.cpp:34-37 | erasing the order, and its level when that empties, keeps the side ordered, well formed and without empty levels; the first key stays or moves back |
| Cancelling.RemoveFirstVolume | src/order_book.cpp:35 | the side's volume drops by exactly the removed order's quantity |
| Cancelling.SumQtyWithout | src/order_book.cpp:35 | removing one order from a queue removes its quantity from the queue's sum |
| Cancelling.Cancel | src/order_book.cpp:29-52 | cancel_order on book values: a success changes only one side and keeps the counter |
| Cancelling.CancelFindsAnyResting | src/order_book.cpp:29-52 | cancel_order fails exactly when no resting bid and no resting ask has the id; a bid with the id is removed before any ask is looked at; when no bid has the id and an ask does, the first such ask is removed and the bids stay; the counter is not touched |
| Cancelling.CancelKeepsSettled | src/order_book.cpp:29-52 | cancelling from a book at rest leaves it at rest, with no new crossing |
| Cancelling.FindOrder | src/order_book.cpp:32-33 | the find_if loop returns the index of the first order with the id, or the queue's length |
| Cancelling.RemoveFromSide | src/order_book.cpp:31-39 | one side's loop of cancel_order reports whether it found the id and returns the side with the first match erased |
| Engine.Insert | src/order_book.cpp:14-18 | the push goes to the order's own side; the other side and the counter are untouched |
| Engine.Add | src/order_book.cpp:9-27 | add_order on book values, matching as intended: an invalid order leaves the book as it is; a valid one leaves no empty level and never lowers the counter |
| Engine.AddKeepsSettled | src/order_book.cpp:9-27 | adding a valid order to a book at rest and matching leaves it at rest; the new order's volume either rests or is matched against an equal volume of the other side |
| Engine.MatchOrdersTestIntended | src/order_book.cpp:9-27 | with corrected matching, the MatchOrders test ends with bid volume 5, ask volume 0 and one match |
| Engine.SideVolume | src/order_book.cpp:122-130 | the accumulator loops of a volume getter return the side's volume |
| Engine.EraseEmptyLevels | src/order_book.cpp:97-103 | the erase-while-iterating loop gives exactly the filter of the non-empty levels |
| Engine.OrderBook.constructor | src/order_book.cpp:7 | a new book is empty, at rest, with the counter at 0 and no latency samples |
| Engine.OrderBook.AddOrder | src/order_book.cpp:9-27 | an invalid order is refused and nothing changes; a valid order is pushed and matched, the book stays at rest, and exactly one latency sample is appended |
| Engine.OrderBook.CancelOrder | src/order_book.cpp:29-52 | the state becomes Cancel's result when an order with the id rests, otherwise false with no change; the book stays at rest |
| Engine.OrderBook.MatchOrders | src/order_book.cpp:54-66 | corrected match_orders: the new state is Settle of the old one, and it is at rest |
| Engine.OrderBook.MatchOrdersAtPrice | src/order_book.cpp:68-78 | the inner loop leaves exactly MatchAtPrice of the old state |
| Engine.OrderBook.TryMatchOrders | src/order_book.cpp:80-94 | try_match_orders always returns true and replaces the two head queues by one pairing step's result; the counter is left to the caller |
| Engine.OrderBook.RemoveEmptyPriceLevels | src/order_book.cpp:96-112 | the new state is RemoveEmpty of the old one |
| Engine.OrderBook.BestBid | src/order_book.cpp:114-116 | 0 with no bids; otherwise a positive price of a resting bid that no bid level exceeds |
| Engine.OrderBook.BestAsk | src/order_book.cpp:118-120 | 0 with no asks; otherwise a positive price of a resting ask that no ask level undercuts |
| Engine.OrderBook.Spread | src/order_book.cpp:142-145 | 0 when a side is empty; otherwise best ask minus best bid, which is positive on a book at rest |
| Engine.OrderBook.BidVolume | src/order_book.cpp:122-130 | the sum of all resting bid quantities; on a book at rest it is never negative, and 0 exactly when there are no bids |
| Engine.OrderBook.AskVolume | src/order_book.cpp:132-140 | the sum of all resting ask quantities; on a book at rest it is never negative, and 0 exactly when there are no asks |
| Export.FlattenSorted | src/order_book.cpp:188-193 | walking an ordered side level by level lists its orders in comparator order |
| Export.ReversedOrdered | src/order_book.cpp:180 | walking the greater-ordered bid side from rbegin follows ascending order |
| Export.ReversedVolume | src/order_book.cpp:180 | reversing the levels keeps the volume |
| Export.SumOrderRows | src/order_book.cpp:181-183 | one row per order, with the order's own quantity: the rows sum to the orders' total quantity |
| Export.OrderRowsFollow | src/order_book.cpp:180-193 | rows carry their side's label and follow their orders' price order |
| Export.ExportRows | src/order_book.cpp:173-194 | export_to_csv's rows as written: one row per resting order |
| Export.ReversedSameOrders | src/order_book.cpp:180-185 | walking the bid levels from rbegin meets the same orders as walking them from begin, so it gives the same rows in another order |
| Export.ExportRowsAsWritten | src/order_book.cpp:173-194 | as written: one BID row per resting bid, carrying that order's own price and quantity (the same rows as one per bid, in another order), then one ASK row per resting ask in the asks' own order; each side's rows sum to its volume; the ask rows ascend, and the bid rows ascend too |
| Export.ExportBidsLowestFirst | src/order_book.cpp:179-185 | bids at 100 and 99 are exported with 99 first, against the comment on that loop |
| Export.ExportRowsIntendedOrder | src/order_book.cpp:179-193 | corrected export: the same rows as the export as written, with the ASK rows in place and only the BID rows reordered; the per-side totals are the same; bid rows come by descending price and ask rows by ascending price |
| Export.BookStateLines | src/order_book.cpp:157-171 | get_book_state's lines as written: one line per price level |
| Export.BookStateLinesOverstate | src/order_book.cpp:161-164 | as written: two bid levels of 10 each give lines (99, 20) then (100, 20), summing to twice the bid volume |
| Export.LevelLinesAddUp | src/order_book.cpp:161-169 | lines that carry each level's own volume sum to the side's volume |
| Export.BookStateLinesIntendedOk | src/order_book.cpp:157-171 | corrected book state: one line per level, bids strictly descending then asks strictly ascending, and each side's lines sum to its volume |
| Csv.Split | src/csv_parser.cpp:75-77 | the getline split gives no field exactly for the empty text |
| Csv.SplitFieldsFreeOfDelimiter | src/csv_parser.cpp:75-77 | no field contains the delimiter |
| Csv.SplitJoin | src/csv_parser.cpp:75-77 | splitting undoes joining, for fields without the delimiter whose last field is non-empty |
| Csv.JoinSplit | src/csv_parser.cpp:75-77 | joining undoes splitting, for text that does not end in the delimiter |
| Csv.SplitTrailingDelimiter | src/csv_parser.cpp:75-77 | one delimiter at the end of non-empty text adds no field |
| Csv.GetLine | src/csv_parser.cpp:75 | one getline call returns the first field and moves past its delimiter, consuming input |
| Csv.SplitFields | src/csv_parser.cpp:71-77 | the getline loop of parse_order_line collects exactly the split fields |
| Csv.ValidateLine | src/csv_parser.cpp:106-119 | validate_line accepts exactly a non-empty line of five fields, none of them empty |
| Csv.TrailingCommaAccepted | src/csv_parser.cpp:112-118 | a single trailing comma neither adds a field nor changes the verdict |
| Csv.DoubledCommaGivesEmptyField | src/csv_parser.cpp:113-115 | two commas in a row anywhere in a line give an empty field under the getline split |
| Csv.EmptyFieldRejected | src/csv_parser.cpp:113 | a line with two commas in a row anywhere, or with a leading comma, is rejected |
| Csv.EncodeSide | src/csv_parser.cpp:101 | format_order's side field ("1"/"0") decodes back to the same side under parse_order_line's rule |
| Csv.Decode | src/csv_parser.cpp:79-89 | the conversions of parse_order_line: an order comes out only from exactly five fields, and it is a buy exactly when field 3 decodes as buy |
| Csv.ParseOrderLine | src/csv_parser.cpp:71-94 | fewer or more than five fields, or a failed conversion, give false and leave the out-parameter alone; otherwise the out-parameter becomes the decoded order, and the result is its validity |
| Csv.Accept | src/csv_parser.cpp:16-21 | the order read_orders keeps from one line: only from a line that validates, and only a valid order that the line decodes to |
| Csv.AcceptedLine | src/csv_parser.cpp:15-22 | a kept line has five non-empty fields, and these convert to a valid order; the side is buy exactly when field 3 is "1" or "true" |
| Csv.AcceptAllValid | src/csv_parser.cpp:15-22 | at most one order is kept per line, and every kept order is valid |
| Csv.KeepLine | src/csv_parser.cpp:16-21 | the loop body appends the line's order exactly when the line validates and parses |
| Csv.ReadOrders | src/csv_parser.cpp:6-26 | the header line is dropped; the orders of the later lines that validate and parse are appended to the existing vector, in file order |
| Csv.ReadNextLine | src/csv_parser.cpp:15-22 | one pass of the loop reads one line and appends its order, if any |
| Csv.FormatOrder | src/csv_parser.cpp:96-104 | format_order: when the rendered fields hold no comma and the last is not empty, the line splits back into exactly those five fields |
| Csv.FormatThenParse | src/csv_parser.cpp:96-104 | a formatted order is a line of five non-empty fields without a newline, which decodes to the same order (with the price as read back) and is kept exactly when that order is valid |

## Left out

- File handling: opening, reading and writing files, and what happens when a file does not open. `read_orders` is modelled on the file's text. The export and the book state are modelled as sequences of rows.
- `write_orders` and `write_book_state` are not modelled: they are file handling around `format_order` and the same row walk as `export_to_csv`.
- The text of numbers: `std::fixed`/`std::setprecision(2)`, `Order::to_string`, and the label text of `get_book_state`. Renderers are parameters. Rows carry the value itself.
- The internals of `std::stoi`, `std::stod` and `std::stoll` (whitespace and trailing-text rules, range errors). Each is a parameter that may fail.
- Floating point: prices are exact reals. The spread is an exact difference.
- The clock and `get_average_execution_latency`: `AddOrder` takes the elapsed time as a parameter and appends it. The average, a floating-point division, is not modelled.
- The `price` argument of `match_orders_at_price`: the source never reads it, so the model has no such parameter.
- Integer overflow: quantities, volumes and the counter are unbounded integers. The `int` sums in the volume getters and `total_matches_` could wrap in the source.
- The `break` in `match_orders_at_price` is not a statement of the model, because `try_match_orders` always returns true.
- `ReadOrders` returns no flag: once the file is open, `read_orders` always returns true.
- Carriage returns at line ends are kept as part of the last field, as `std::getline` keeps them.
- The data generator and the command-line program (`src/data_generator.cpp`, `src/main.cpp`) are not part of this model.
- Engine.OrderBook.MatchOrders: implements the corrected loop, not the source's. The source's loop is `Matching.MatchOrdersAsWritten`. It cannot be a method, because it does not terminate. It is a function with an iteration bound, and None means the bound ran out.
- Engine.OrderBook.AddOrder: matches with the corrected loop, so on a crossed book it states the intended result, where the source never returns.
- Engine.OrderBook.AddOrder, Engine.OrderBook.CancelOrder: require the book to be at rest. Every public operation of the corrected engine leaves it so.
- Engine.OrderBook.MatchOrders: requires well-formed sides, which every public operation keeps. The source's `match_orders` is public and has no such guard.
- Engine.OrderBook.BestBid, Engine.OrderBook.BestAsk, Engine.OrderBook.Spread: require the book to be at rest, so that the best price is the first key and the spread is positive.

## Findings

| source | as written | input that shows it | evidently intended | confidence | as-written member | corrected member |
|---|---|---|---|---|---|---|
| src/order_book.cpp:54-66 | the outer loop of match_orders erases emptied levels only after the loop, so a crossed book keeps its two head keys and the loop repeats forever | add_order(buy 1@100x10), then add_order(sell 2@100x5), as in the MatchOrders test | erase emptied head levels inside the loop, which then ends on a book that is not crossed | high (not executed) | Matching.AsWrittenHangsWhenCrossed | Matching.SettleSettles |
| src/order_book.cpp:179-185 | export_to_csv walks the greater-ordered bid map from rbegin, which lists bids lowest price first | bids at 100 and 99: the first BID row is 99 | bids highest price first, as the comment says | high (not executed) | Export.ExportBidsLowestFirst | Export.ExportRowsIntendedOrder |
| src/order_book.cpp:161-168 | get_book_state prints the whole side's volume on every level line, and lists bids lowest price first | bid levels 100x10 and 99x10: lines (99, 20), (100, 20) | each level's own volume, bids highest first | medium (not executed) | Export.BookStateLinesOverstate | Export.BookStateLinesIntendedOk |
