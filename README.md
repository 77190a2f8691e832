# Arbitrage detection across simulated order books: a Dafny model

This project models the matching engine of `Book.py`. The engine takes several
order books for one asset and finds every pair of ladders where a bid is
strictly above an ask. It matches quantity between them and appends one
`Results` record per match: source venue, destination venue, bid, ask and
matched quantity. It then reports the total quantity and the total P&L.

The model has five modules:

- `OrderBook` (orderbook.dfy): price levels, books and ladder
  normalisation. Raw `(price, qty)` rows are grouped by price with their
  quantities summed, then sorted: bids descending, asks ascending. It also
  holds the venue label of a book: the last space-separated word of its name.
- `Matching` (matching.dfy): the matching engine itself:
  - the strict crossing test `ExistsArb`;
  - the liquidity check `CheckInResults`, a query over the results so far;
  - the quantity update `Step`;
  - the specification functions `Detect` (the records one `detect_arb` pass
    appends), `Shared` (what the pass leaves in the caller's bid array),
    `Others` and `RunFrom`/`RunAll` (the `run` orchestration);
  - the P&L and quantity sums.

  The class `Arbitrages` holds the `books` and the `results` list. Its
  methods `DetectArb` (the `while` loop, writing into the bid array in
  place) and `MatchOthers` (the loop over the other books) are proved to
  leave `results` and the bid array they are given equal to those
  functions (`Shared`, `OthersBids`); `Run` (the loop over books) is proved
  to leave `results` equal to `RunFrom`.
- `MatchingProperties` (properties.dfy): the lemmas about that
  specification.
- `AsWritten` (findings.dfy): the two places where the code does something
  other than it evidently means to, modelled literally, with the
  counterexamples described under "Findings".
- `Scenarios` (scenarios.dfy): whole runs on small concrete books.

Prices are integers in hundredths, so 101.00 is `10100`. The source rounds its
float prices to two decimals before grouping them. Quantities are integers.
`Positive` and `Sorted` state what a ladder built from the generator's positive
quantities satisfies. The matching functions do not require them; only the
lemmas that need them do.

`run` takes one `to_numpy()` copy of each book's bids (`Book.py:192`). The
book's frames have a float price column and an integer quantity column, so
every `to_numpy()` builds a new array. That one bid array `bid_i` is shared
by all of book i's passes: the intra-book pass gets it through the alias
`bid_i_tmp` (`Book.py:200`), and every inter-book pass gets the same object
(`Book.py:210`). Inside `detect_arb`, the decrement of the top bid
(`Book.py:177`) writes into whatever array `bids` names at that moment. That
is the caller's `bid_i` until the pass first rebinds `bids` with `np.delete`.
The model keeps this: `DetectArb` takes the bid array itself and writes into
it in place, and `Shared` is what the array holds after a pass. The ask arrays
are values in the model, since each one a pass receives is a fresh copy that
nothing reads afterwards (`Book.py:192`, `Book.py:209`).

Notable behaviours of the code that the model keeps:

- Ladder construction neither drops zero-quantity levels nor rejects negative
  prices or quantities. Grouping and sorting are all it does.
- The liquidity check asks whether the quantity already claimed at a
  (destination venue, ask price) key is below the quantity the ask shows now.
  The match then takes `min(bid qty, ask qty)`, not the unclaimed remainder.
  Each pass gets a fresh copy of the ask ladder, so later passes can claim
  more than rests at a price (`Scenarios.ClaimsCanExceedRestingQuantity`).
- With the intended quantity update (see "Findings"), the remainder of a
  partly filled ask can be dropped within one pass while a later bid still
  crosses it (`Scenarios.PartlyFilledAskDropped`). In the code as written,
  line 182 replaces the ask ladder after a partial fill, so that remainder
  never reaches the check.
- A partial fill of book i's top bid carries over to book i's later passes.
  Take a book a bidding 4 at 100.00, and books b and c each asking 3 at
  98.00. The pass against b takes 3 and leaves 1 in a's bid array, so the
  pass against c records 1 (`Scenarios.PartialFillCarriesOver`).
- A top bid level that a pass uses up is removed by rebinding `bids`, not by
  writing into `bid_i`. `bid_i` keeps that level at the quantity it had
  before its last match, so a later pass can match it again
  (`Scenarios.SamePriceTwoVenues`).

## Model

| member | source | states |
|---|---|---|
| `OrderBook.Insert` | Book.py:32-33 | adding one raw row to a sorted ladder keeps it strictly sorted; the price set gains exactly that price; the quantity at that price grows by the row's quantity and is unchanged elsewhere; the total grows by the row's quantity; positivity is kept |
| `OrderBook.Normalise` | Book.py:32-33 | the grouped and sorted ladder is strictly ordered best-first for its side; it has the same set of prices as the raw rows; it holds the raw quantity at every price and the same total; positive raw rows give a positive ladder |
| `OrderBook.NormaliseLevels` | Book.py:32-33 | it has exactly one level per distinct raw price, ordered best-first; each level's quantity is the sum of the raw quantities at its price; total quantity is preserved |
| `OrderBook.LevelQty` | Book.py:32-33 | in a strictly sorted ladder, a level's quantity is all the ladder holds at that price |
| `OrderBook.FromRaw` | Book.py:32-36 | a book built from raw rows keeps its name; its bid ladder is strictly descending and its ask ladder strictly ascending; each has the raw prices and totals; positive raw rows give a valid book |
| `OrderBook.Label` | Book.py:195-196 | the venue label is no longer than the name, and a name without a space is its own label |
| `OrderBook.LabelIsLastToken` | Book.py:195-196 | the label is the longest space-free suffix of the name: a suffix with no space, either the whole name or preceded by a space (`name.split(" ")[-1]`) |
| `Matching.ExistsArb` | Book.py:122-124 | the strict test of the top bid against the top ask; it carries no contract of its own, and `ExistsArbIffCrosses` states what it means |
| `MatchingProperties.ExistsArbIffCrosses` | Book.py:122-124 | on sorted ladders the strict top-of-book test holds exactly when some bid is strictly above some ask; equal prices never cross |
| `Matching.Claimed` | Book.py:150-154 | the quantity summed over earlier matches at a (destination venue, ask price) key is 0 when no earlier match has that key |
| `Matching.CheckInResults` | Book.py:127-154 | an ask may be bought exactly when no earlier match has this destination venue and ask price, or when the quantity claimed at that key is strictly below the ask quantity; this covers the empty list, the unknown venue and the unknown price |
| `MatchingProperties.CheckWhenPositive` | Book.py:139-154 | for a positive ask quantity, the check holds exactly when the claimed quantity at the (destination, ask price) key is strictly below it |
| `MatchingProperties.CheckIgnoresSource` | Book.py:145-153 | results that agree on destination, ask price and quantity give the same verdict whatever their source venues and bids: `exchange1` is not part of the key |
| `MatchingProperties.ClaimedGrows` | Book.py:173 | appending results never lowers the quantity claimed at any key |
| `Matching.Step` | Book.py:175-186 | the intended update: each ladder either loses its top level or keeps it with the same price and less quantity, and the rest is untouched; both totals fall by exactly `min(bid qty, ask qty)`; no price is added; sortedness and positivity are kept; the combined length strictly falls, so the loop ends |
| `Matching.Detect` | Book.py:157-186 | a pass only appends: earlier results are kept unchanged and it adds at most one record per level of the two ladders |
| `Matching.Shared` | Book.py:176-186 | after a pass the caller's bid array has the same length, the same top price and the same levels below the top: only the top level's quantity can change |
| `Matching.Delete` | Book.py:185-186 | `np.delete(bids, 0, 0)` gives a new array holding the ladder without its top level |
| `Matching.ToArray` | Book.py:192 | `to_numpy()` gives a new array holding the ladder's levels |
| `Matching.Advance` | Book.py:176-186 | one update after a match gives the ladders of `Step`; a larger top bid is decremented in the bid array itself, which stays the pass's bid array; otherwise the pass moves to a new array and the old one is left unchanged |
| `MatchingProperties.DetectFirst` | Book.py:159-173 | when the tops cross and the ask is still available, the first appended record is (exchange1, exchange2, top bid, top ask, min of their quantities) |
| `MatchingProperties.DetectRecords` | Book.py:159-173 | every appended record carries the pass's two labels; its bid is strictly above its ask; its prices come from the two ladders; on positive ladders its quantity is positive |
| `MatchingProperties.DetectNeedsCrossing` | Book.py:159 | a pass appends something only when some bid is strictly above some ask; with an empty ladder, or nothing crossing, it appends nothing |
| `MatchingProperties.DetectOrdered` | Book.py:159-186 | on sorted ladders the records of one pass have non-increasing bids and non-decreasing asks |
| `MatchingProperties.DetectQuantity` | Book.py:171-186 | on positive ladders, the quantity one pass matches is at most the total of the bid ladder and at most the total of the ask ladder |
| `MatchingProperties.SharedPrices` | Book.py:177 | a pass leaves the caller's bid array with the same prices, so a normalised ladder stays normalised |
| `MatchingProperties.SharedPositive` | Book.py:176-178 | on positive ladders the caller's bid array stays positive and its top level only loses quantity |
| `MatchingProperties.SharedConsumed` | Book.py:171-186 | on positive ladders the caller's bid array loses no more quantity than the pass matched |
| `Matching.OthersBids` | Book.py:204-210 | after book i's passes against the other books, its bid array has the same length, the same top price and the same levels below the top: only the top level's quantity can have changed |
| `Matching.Others` | Book.py:204-210 | book i's passes against the other books, in ascending index order and skipping i, each starting from the bid array the previous pass left, only append to the results |
| `Matching.RunFrom` | Book.py:191-210 | processing the books in index order, each with one fresh copy of its bids shared by its intra-book pass and its other passes, only appends to the results |
| `Matching.RunAll` | Book.py:191-210 | an empty book list yields no results |
| `Matching.Arbitrages.constructor` | Book.py:109-119 | the object keeps the books; its results are those of a full run starting from an empty list |
| `Matching.Arbitrages.DetectArb` | Book.py:157-186 | after the loop, `results` equals `Detect` of the old results and ladders, and the caller's bid array equals `Shared` of them |
| `Matching.Arbitrages.MatchOthers` | Book.py:204-210 | after the loop over the other books, `results` equals `Others` of the old results and of the bid array as the intra-book pass left it, and that array equals `OthersBids` of them; each pass is labelled (label i, label j) |
| `Matching.Arbitrages.Run` | Book.py:188-210 | after the loop over books, `results` equals `RunFrom` of the old results; book i's intra pass is labelled (label i, label i) and runs on a fresh copy of its bids, and its other passes get that same array |
| `MatchingProperties.RunRecords` | Book.py:191-210 | every record of a run names its bidding book i and asking book j by their labels; its bid is strictly above its ask; its prices come from those books' ladders; on valid books its quantity is positive |
| `MatchingProperties.RunNeedsCrossing` | Book.py:191-210 | a run records something only when some book's bid is strictly above some book's ask |
| `MatchingProperties.RunStartsWithIntraBook` | Book.py:199-201 | when book 0 crosses itself, the run's first record is book 0's top bid against its own top ask |
| `Matching.PnL` | Book.py:216 | a match with bid above ask and positive quantity earns at least one hundredth per unit |
| `Matching.TotalQty` | Book.py:221 | when every record has a positive quantity, the total is at least the number of records |
| `Matching.TotalPnL` | Book.py:222 | when no record loses money, the total P&L is not negative |
| `MatchingProperties.PnLCoversQuantity` | Book.py:216-222 | for results with bid > ask and positive quantity, the total P&L in hundredths is at least the total quantity, which is at least the number of records; the P&L is positive exactly when there is a record |
| `MatchingProperties.RunPnL` | Book.py:214-222 | on valid books, a run's P&L is at least its total quantity, and positive exactly when the run found an arbitrage, so a run that finds nothing has a P&L of 0 |
| `AsWritten.StepAsWritten` | Book.py:176-186 | the update as written agrees with the intended `Step` exactly when the two top quantities are equal |
| `AsWritten.StepAsWrittenMixesLadders` | Book.py:176-186 | on two partial fills, the update as written puts ask levels on the bid side, or bid levels on the ask side, which then still cross; the intended `Step` only consumes quantity |
| `AsWritten.PassAsWritten` | Book.py:157-186 | a pass with the update as written, when it stops within its iteration bound, only appends to the results |
| `AsWritten.PassAsWrittenRecordsBidAsAsk` | Book.py:176-186 | on bids 101.00×2, 100.00×1 against asks 99.00×5 the pass as written records (101.00, 99.00, 2) and then (101.00, 100.00, 1), whose ask price is not on the ask ladder |
| `AsWritten.IntendedPassOnSameBook` | Book.py:157-186 | on the same ladders the intended pass records (101.00, 99.00, 2) and (100.00, 99.00, 1) |
| `AsWritten.ReportAsWritten` | Book.py:212-222 | on records of positive quantity, the printed report fails exactly where the intended report would show a total quantity of 0; whenever it fails, the intended totals it could have shown are both 0 |
| `AsWritten.ReportFailsWithoutArbitrage` | Book.py:119 | building `Arbitrages` over books none of whose bids is above any ask, the empty book list included, fails in the report instead of reporting no arbitrage |
| `Scenarios.SingleBookCrossing` | Book.py:188-201 | one book with bid 101.00×5 and ask 99.00×3 yields one intra-book match of 3 |
| `Scenarios.TwoBooks` | Book.py:204-210 | bid 100.00×4 on a against ask 98.00×4 on b yields one match of 4, claimed against (b, 98.00) |
| `Scenarios.SamePriceTwoVenues` | Book.py:145-151 | the same ask price on two venues gives two separate matches, and a bid level used up by the first is matched again |
| `Scenarios.NoCrossingNoMatch` | Book.py:123-124 | bid 95.00 against ask 96.00 yields nothing |
| `Scenarios.ClaimsCanExceedRestingQuantity` | Book.py:150-171 | two passes against a fresh copy of the same ask ladder claim 7 units against 4 resting |
| `Scenarios.PartlyFilledPass` | Book.py:159-186 | with the intended update, bids 101.00×3, 100.00×5 against ask 99.00×5 record only the first match of 3 |
| `Scenarios.PartlyFilledAskDropped` | Book.py:161-163 | when what remains of a partly filled ask is below what is already claimed, it is dropped although a bid still crosses it |
| `Scenarios.CarryOverFirstPass` | Book.py:176-177 | a bid of 4 against an ask of 3 records 3 and leaves 1 in the caller's bid array |
| `Scenarios.CarryOverSecondPass` | Book.py:207-210 | the next pass, starting from that 1, takes 1 of another venue's 3 |
| `Scenarios.PartialFillCarriesOver` | Book.py:192-210 | a bids 4 at 100.00, b and c each ask 3 at 98.00: the run records 3 against b and then 1 against c |

## Findings

| source | as written | input that shows it | evidently intended | confidence | as-written member | corrected member |
|---|---|---|---|---|---|---|
| Book.py:176-186 | after a partial fill, line 178 sets `bids = np.delete(asks, 0, 0)` and line 182 sets `asks = np.delete(bids, 0, 0)`, rebinding the opposite ladder | the bid/ask ladders `[101.00×2, 100.00×1]` and `[99.00×5]`: the ask side becomes `[100.00×1]`, a bid level, and the pass then records (101.00, 100.00, 1) | each side advances only its own ladder: the larger top level keeps the difference and the smaller is removed, as the comment on line 175 and the equal branch on lines 185-186 show | not executed | `AsWritten.PassAsWrittenRecordsBidAsAsk` | `Matching.Step` |
| Book.py:212-216 | `run` ends with `print(self)`; `__str__` builds `pd.DataFrame([])` from an empty results list and reads `df["bid"]`, which raises KeyError | any books that never cross, e.g. a single book with bid 95.00 against ask 96.00, or no books at all: `Arbitrages(books)` raises | finding no arbitrage is a normal outcome, reported with zero totals | not executed | `AsWritten.ReportFailsWithoutArbitrage` | `MatchingProperties.RunPnL` |

## Left out

- Random book generation: the sampling in `generate_orderbook` (Book.py:26-30) and `generate_multiple` (Book.py:39-58). Normalised ladders, or raw rows given to `FromRaw`, are inputs.
- Floating-point prices and `round(2)`: prices are integer hundredths. The rounding step and float equality in the key comparison are not modelled.
- pandas mechanics: the DataFrame built in `check_in_results` becomes a query over the results list.
- Matching.Arbitrages.DetectArb: the ask ladder is a value. The decrement of the top ask (Book.py:181) writes into an ask array that nothing reads after the pass, so the model does not keep that array.
- Matching.Step: models the intended update, not lines 178 and 182 as written. The literal version is `AsWritten.StepAsWritten`, used only for the counterexamples above.
- AsWritten.PassAsWritten: the literal update need not shrink the ladders, so the literal pass has an iteration bound and says nothing about passes that do not stop within it.
- Matching.Arbitrages.constructor: returns normally with the results of the run. The source raises KeyError in `print(self)` (Book.py:212, 216) when the run finds nothing; see "Findings".
- MatchingProperties.PnLCoversQuantity: on an empty list it gives a P&L of 0, where the source's report raises KeyError (Book.py:216).
- MatchingProperties.RunPnL: counts a run that finds nothing as reporting a P&L of 0, where the source's report raises KeyError (Book.py:216).
- Printing and formatting: `OrderBook.__str__`, the table layout of `Arbitrages.__str__`, the currency suffix `split("/")[0]` and the `print` output itself.
- The dynamic `book_i` attributes (Book.py:111-112), `num_books` (which is the length of `books` here), `to_dict` and the `__main__` entry point.
