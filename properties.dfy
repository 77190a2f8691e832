/** Properties of the matching engine: the crossing test against all price
    pairs, the liquidity check, what one matching pass emits and consumes,
    what a whole run emits, and the reported P&L. */
module MatchingProperties {
  import opened OrderBook
  import opened Matching

  // ---------------------------------------------------------------
  // Ladder helpers
  // ---------------------------------------------------------------

  /** A price occurs in Prices(l) exactly when some level of l carries it. */
  lemma {:induction false} PricesIndex(l: seq<Level>, p: int)
    ensures p in Prices(l) <==> exists i :: 0 <= i < |l| && l[i].price == p
    decreases |l|
  {
    if |l| > 0 {
      PricesIndex(l[1..], p);
      if p in Prices(l[1..]) {
        var i :| 0 <= i < |l[1..]| && l[1..][i].price == p;
        assert l[i + 1].price == p;
      }
      if exists i :: 0 <= i < |l| && l[i].price == p {
        var i :| 0 <= i < |l| && l[i].price == p;
        if i > 0 { assert l[1..][i - 1].price == p; }
      }
    }
  }

  /** The top of a sorted ladder ranks at or before every price on it. */
  lemma TopIsBest(side: Side, l: seq<Level>, p: int)
    requires Sorted(side, l) && |l| > 0 && p in Prices(l)
    ensures p == l[0].price || Better(side, l[0].price, p)
  {
    PricesIndex(l, p);
  }

  lemma {:induction false} TotalNonNegative(l: seq<Level>)
    requires Positive(l)
    ensures Total(l) >= 0
    decreases |l|
  {
    if |l| > 0 {
      PositiveTail(l);
      TotalNonNegative(l[1..]);
    }
  }

  // ---------------------------------------------------------------
  // The crossing test
  // ---------------------------------------------------------------

  /** On normalised ladders the strict top-of-book test finds an arbitrage
      exactly when some bid is strictly above some ask; equal prices never
      count. */
  lemma ExistsArbIffCrosses(bids: seq<Level>, asks: seq<Level>)
    requires Sorted(Bid, bids) && Sorted(Ask, asks) && |bids| > 0 && |asks| > 0
    ensures ExistsArb(bids, asks) <==> Crosses(bids, asks)
  {
    if Crosses(bids, asks) {
      var i, j :| 0 <= i < |bids| && 0 <= j < |asks| && bids[i].price > asks[j].price;
      assert bids[0].price >= bids[i].price by { if i > 0 { assert Better(Bid, bids[0].price, bids[i].price); } }
      assert asks[0].price <= asks[j].price by { if j > 0 { assert Better(Ask, asks[0].price, asks[j].price); } }
    }
    if ExistsArb(bids, asks) {
      assert bids[0].price > asks[0].price;
    }
  }

  // ---------------------------------------------------------------
  // The liquidity check
  // ---------------------------------------------------------------

  /** For a positive ask quantity the three early `True` branches collapse:
      the ask may be bought exactly when the claimed quantity at the
      (destination, ask price) key is strictly below it. */
  lemma CheckWhenPositive(results: seq<MatchResult>, askPrice: int, askQty: int, exchange: string)
    requires askQty > 0
    ensures CheckInResults(results, askPrice, askQty, exchange) <==> Claimed(results, exchange, askPrice) < askQty
  {
  }

  /** Results that agree on destination, ask price and quantity record by
      record give the same claimed quantity, whatever their source venues and
      bid prices. */
  lemma {:induction false} ClaimedIgnoresSource(results: seq<MatchResult>, other: seq<MatchResult>, exchange: string, askPrice: int)
    requires |results| == |other|
    requires forall k :: 0 <= k < |results| ==>
               results[k].exchange2 == other[k].exchange2 && results[k].ask == other[k].ask && results[k].optQty == other[k].optQty
    ensures Claimed(results, exchange, askPrice) == Claimed(other, exchange, askPrice)
    decreases |results|
  {
    if |results| > 0 {
      var n := |results| - 1;
      assert forall k :: 0 <= k < n ==> results[..n][k] == results[k] && other[..n][k] == other[k];
      ClaimedIgnoresSource(results[..n], other[..n], exchange, askPrice);
    }
  }

  /** The check is keyed by destination venue and ask price only: the source
      venue (and the bid) of earlier matches plays no part. */
  lemma CheckIgnoresSource(results: seq<MatchResult>, other: seq<MatchResult>, askPrice: int, askQty: int, exchange: string)
    requires |results| == |other|
    requires forall k :: 0 <= k < |results| ==>
               results[k].exchange2 == other[k].exchange2 && results[k].ask == other[k].ask && results[k].optQty == other[k].optQty
    ensures CheckInResults(results, askPrice, askQty, exchange) == CheckInResults(other, askPrice, askQty, exchange)
  {
    ClaimedIgnoresSource(results, other, exchange, askPrice);
    if HasKey(results, exchange, askPrice) {
      var k :| 0 <= k < |results| && results[k].exchange2 == exchange && results[k].ask == askPrice;
      assert other[k].exchange2 == exchange && other[k].ask == askPrice;
    }
    if HasKey(other, exchange, askPrice) {
      var k :| 0 <= k < |other| && other[k].exchange2 == exchange && other[k].ask == askPrice;
      assert results[k].exchange2 == exchange && results[k].ask == askPrice;
    }
  }

  /** The ledger is never decremented: the claimed quantity at a key does not
      fall as results with non-negative quantities are appended. */
  lemma {:induction false} ClaimedGrows(s: seq<MatchResult>, t: seq<MatchResult>, exchange: string, askPrice: int)
    requires |s| <= |t| && t[..|s|] == s
    requires forall k :: |s| <= k < |t| ==> t[k].optQty >= 0
    ensures Claimed(t, exchange, askPrice) >= Claimed(s, exchange, askPrice)
    decreases |t|
  {
    if |t| > |s| {
      var init := t[..|t| - 1];
      assert init[..|s|] == s;
      ClaimedGrows(s, init, exchange, askPrice);
    } else {
      assert t == s;
    }
  }

  // ---------------------------------------------------------------
  // One matching pass
  // ---------------------------------------------------------------

  /** What every record of a pass over `bids` and `asks` under `d` satisfies:
      it carries the pass's labels, a bid strictly above its ask, a price of
      the bid ladder and a price of the ask ladder. */
  predicate Emitted(r: MatchResult, bids: seq<Level>, asks: seq<Level>, d: Description)
  {
    r.exchange1 == d.exchange1 && r.exchange2 == d.exchange2 && r.bid > r.ask &&
    r.bid in Prices(bids) && r.ask in Prices(asks)
  }

  /** When the tops cross and the ask is still available, the pass's first
      record is the top bid against the top ask for the smaller of their
      quantities. */
  lemma DetectFirst(results: seq<MatchResult>, bids: seq<Level>, asks: seq<Level>, d: Description)
    requires |bids| > 0 && |asks| > 0 && ExistsArb(bids, asks)
    requires CheckInResults(results, asks[0].price, asks[0].qty, d.exchange2)
    ensures |Detect(results, bids, asks, d)| > |results|
    ensures Detect(results, bids, asks, d)[|results|]
            == MatchResult(d.exchange1, d.exchange2, bids[0].price, asks[0].price, Min(bids[0].qty, asks[0].qty))
  {
    var m := MatchResult(d.exchange1, d.exchange2, bids[0].price, asks[0].price, Min(bids[0].qty, asks[0].qty));
    var next := Step(bids, asks);
    var r := Detect(results + [m], next.bids, next.asks, d);
    assert r[..|results| + 1] == results + [m];
    assert r[|results|] == r[..|results| + 1][|results|];
  }

  /** Every record a pass appends has the pass's labels, bid > ask, and prices
      taken from the two ladders; on positive ladders its quantity is
      positive. */
  lemma {:induction false} DetectRecords(results: seq<MatchResult>, bids: seq<Level>, asks: seq<Level>, d: Description)
    ensures forall k :: |results| <= k < |Detect(results, bids, asks, d)| ==>
              Emitted(Detect(results, bids, asks, d)[k], bids, asks, d)
    ensures Positive(bids) && Positive(asks) ==>
              forall k :: |results| <= k < |Detect(results, bids, asks, d)| ==> Detect(results, bids, asks, d)[k].optQty > 0
    decreases |bids| + |asks|
  {
    var r := Detect(results, bids, asks, d);
    if |bids| == 0 || |asks| == 0 || !ExistsArb(bids, asks) {
    } else if !CheckInResults(results, asks[0].price, asks[0].qty, d.exchange2) {
      DetectRecords(results, bids, asks[1..], d);
      if Positive(asks) { PositiveTail(asks); }
    } else {
      var m := MatchResult(d.exchange1, d.exchange2, bids[0].price, asks[0].price, Min(bids[0].qty, asks[0].qty));
      var next := Step(bids, asks);
      assert r == Detect(results + [m], next.bids, next.asks, d);
      DetectRecords(results + [m], next.bids, next.asks, d);
      assert r[..|results| + 1] == results + [m];
      assert r[|results|] == r[..|results| + 1][|results|];
    }
  }

  /** A record of a pass over two ladders witnesses a bid of the first
      strictly above an ask of the second. */
  lemma EmittedCrosses(r: MatchResult, bids: seq<Level>, asks: seq<Level>, d: Description)
    requires Emitted(r, bids, asks, d)
    ensures Crosses(bids, asks)
  {
    PricesIndex(bids, r.bid);
    PricesIndex(asks, r.ask);
    var i :| 0 <= i < |bids| && bids[i].price == r.bid;
    var j :| 0 <= j < |asks| && asks[j].price == r.ask;
    assert bids[i].price > asks[j].price;
  }

  /** A pass appends something only when some bid is strictly above some ask;
      in particular nothing is appended when either ladder is empty. */
  lemma DetectNeedsCrossing(results: seq<MatchResult>, bids: seq<Level>, asks: seq<Level>, d: Description)
    ensures Detect(results, bids, asks, d) != results ==> Crosses(bids, asks)
  {
    var r := Detect(results, bids, asks, d);
    if |r| > |results| {
      DetectRecords(results, bids, asks, d);
      EmittedCrosses(r[|results|], bids, asks, d);
    } else {
      assert r == r[..|results|];
    }
  }

  /** On normalised ladders a pass sweeps best-first: the bid prices of its
      records never rise and the ask prices never fall. */
  lemma {:induction false} DetectOrdered(results: seq<MatchResult>, bids: seq<Level>, asks: seq<Level>, d: Description)
    requires Sorted(Bid, bids) && Sorted(Ask, asks)
    ensures forall k1, k2 :: |results| <= k1 < k2 < |Detect(results, bids, asks, d)| ==>
              Detect(results, bids, asks, d)[k1].bid >= Detect(results, bids, asks, d)[k2].bid &&
              Detect(results, bids, asks, d)[k1].ask <= Detect(results, bids, asks, d)[k2].ask
    decreases |bids| + |asks|
  {
    var r := Detect(results, bids, asks, d);
    if |bids| == 0 || |asks| == 0 || !ExistsArb(bids, asks) {
    } else if !CheckInResults(results, asks[0].price, asks[0].qty, d.exchange2) {
      SortedTail(Ask, asks);
      DetectOrdered(results, bids, asks[1..], d);
    } else {
      var m := MatchResult(d.exchange1, d.exchange2, bids[0].price, asks[0].price, Min(bids[0].qty, asks[0].qty));
      var next := Step(bids, asks);
      assert r == Detect(results + [m], next.bids, next.asks, d);
      DetectOrdered(results + [m], next.bids, next.asks, d);
      DetectRecords(results + [m], next.bids, next.asks, d);
      assert r[..|results| + 1] == results + [m];
      assert r[|results|] == m by { assert r[|results|] == r[..|results| + 1][|results|]; }
      forall k2 | |results| < k2 < |r|
        ensures m.bid >= r[k2].bid && m.ask <= r[k2].ask
      {
        assert Emitted(r[k2], next.bids, next.asks, d);
        TopIsBest(Bid, bids, r[k2].bid);
        TopIsBest(Ask, asks, r[k2].ask);
      }
    }
  }

  lemma TotalQtyCons(m: MatchResult, t: seq<MatchResult>)
    ensures TotalQty([m] + t) == m.optQty + TotalQty(t)
  {
    assert ([m] + t)[1..] == t;
  }

  /** When the tops cross and the ask is available, the quantity a pass
      appends is the first match's plus what the rest of the pass appends. */
  lemma {:induction false} MatchedQty(results: seq<MatchResult>, bids: seq<Level>, asks: seq<Level>, d: Description, m: MatchResult)
    requires |bids| > 0 && |asks| > 0 && ExistsArb(bids, asks)
    requires CheckInResults(results, asks[0].price, asks[0].qty, d.exchange2)
    requires m == MatchResult(d.exchange1, d.exchange2, bids[0].price, asks[0].price, Min(bids[0].qty, asks[0].qty))
    ensures TotalQty(Detect(results, bids, asks, d)[|results|..])
            == m.optQty + TotalQty(Detect(results + [m], Step(bids, asks).bids, Step(bids, asks).asks, d)[|results + [m]|..])
  {
    var r := Detect(results, bids, asks, d);
    var next := Step(bids, asks);
    assert r == Detect(results + [m], next.bids, next.asks, d);
    assert r[..|results| + 1] == results + [m];
    assert r[|results|..] == [m] + r[|results| + 1..] by {
      assert r[|results|] == r[..|results| + 1][|results|];
    }
    TotalQtyCons(m, r[|results| + 1..]);
  }

  /** Within one pass the quantity matched never exceeds what either ladder
      holds: each match takes the same quantity off both ladders. */
  lemma {:induction false} DetectQuantity(results: seq<MatchResult>, bids: seq<Level>, asks: seq<Level>, d: Description)
    requires Positive(bids) && Positive(asks)
    ensures TotalQty(Detect(results, bids, asks, d)[|results|..]) <= Total(bids)
    ensures TotalQty(Detect(results, bids, asks, d)[|results|..]) <= Total(asks)
    decreases |bids| + |asks|
  {
    var r := Detect(results, bids, asks, d);
    TotalNonNegative(bids);
    TotalNonNegative(asks);
    if |bids| == 0 || |asks| == 0 || !ExistsArb(bids, asks) {
      assert r[|results|..] == [];
    } else if !CheckInResults(results, asks[0].price, asks[0].qty, d.exchange2) {
      PositiveTail(asks);
      DetectQuantity(results, bids, asks[1..], d);
    } else {
      var m := MatchResult(d.exchange1, d.exchange2, bids[0].price, asks[0].price, Min(bids[0].qty, asks[0].qty));
      var next := Step(bids, asks);
      DetectQuantity(results + [m], next.bids, next.asks, d);
      MatchedQty(results, bids, asks, d, m);
    }
  }

  // ---------------------------------------------------------------
  // The caller's bid array after a pass
  // ---------------------------------------------------------------

  /** A pass changes at most the quantity of the top level of the caller's
      bid array: the prices, and so a normalised ladder's order, stay. */
  lemma SharedPrices(results: seq<MatchResult>, bids: seq<Level>, asks: seq<Level>, d: Description)
    ensures Prices(Shared(results, bids, asks, d)) == Prices(bids)
    ensures forall side :: Sorted(side, bids) ==> Sorted(side, Shared(results, bids, asks, d))
  {
    var s := Shared(results, bids, asks, d);
    forall side | Sorted(side, bids) ensures Sorted(side, s) {
      forall a, b | 0 <= a < b < |s| ensures Better(side, s[a].price, s[b].price) {
        if a > 0 { assert s[a] == s[1..][a - 1] && bids[a] == bids[1..][a - 1]; }
        assert s[b] == s[1..][b - 1] && bids[b] == bids[1..][b - 1];
      }
    }
  }

  /** On positive ladders the caller's bid array stays positive and its top
      level only loses quantity. */
  lemma {:induction false} SharedPositive(results: seq<MatchResult>, bids: seq<Level>, asks: seq<Level>, d: Description)
    requires Positive(bids) && Positive(asks)
    ensures Positive(Shared(results, bids, asks, d))
    ensures |bids| > 0 ==> Shared(results, bids, asks, d)[0].qty <= bids[0].qty
    decreases |bids| + |asks|
  {
    if |bids| == 0 || |asks| == 0 || !ExistsArb(bids, asks) {
    } else if !CheckInResults(results, asks[0].price, asks[0].qty, d.exchange2) {
      PositiveTail(asks);
      SharedPositive(results, bids, asks[1..], d);
    } else if bids[0].qty > asks[0].qty {
      var m := MatchResult(d.exchange1, d.exchange2, bids[0].price, asks[0].price, Min(bids[0].qty, asks[0].qty));
      var next := Step(bids, asks);
      SharedPositive(results + [m], next.bids, next.asks, d);
    }
  }

  /** On positive ladders the records a pass appends add up to a
      non-negative quantity. */
  lemma AppendedQtyNonNegative(results: seq<MatchResult>, bids: seq<Level>, asks: seq<Level>, d: Description)
    requires Positive(bids) && Positive(asks)
    ensures TotalQty(Detect(results, bids, asks, d)[|results|..]) >= 0
  {
    var r := Detect(results, bids, asks, d);
    var added := r[|results|..];
    DetectRecords(results, bids, asks, d);
    forall k | 0 <= k < |added| ensures added[k].optQty > 0 {
      assert added[k] == r[|results| + k];
    }
  }

  /** The caller's bid array loses no more quantity than the pass matched. */
  lemma {:induction false} SharedConsumed(results: seq<MatchResult>, bids: seq<Level>, asks: seq<Level>, d: Description)
    requires Positive(bids) && Positive(asks)
    ensures Total(bids) - Total(Shared(results, bids, asks, d)) <= TotalQty(Detect(results, bids, asks, d)[|results|..])
    decreases |bids| + |asks|
  {
    var r := Detect(results, bids, asks, d);
    if |bids| == 0 || |asks| == 0 || !ExistsArb(bids, asks) {
      assert r[|results|..] == [];
    } else if !CheckInResults(results, asks[0].price, asks[0].qty, d.exchange2) {
      PositiveTail(asks);
      SharedConsumed(results, bids, asks[1..], d);
    } else {
      var m := MatchResult(d.exchange1, d.exchange2, bids[0].price, asks[0].price, Min(bids[0].qty, asks[0].qty));
      var next := Step(bids, asks);
      MatchedQty(results, bids, asks, d, m);
      AppendedQtyNonNegative(results + [m], next.bids, next.asks, d);
      if bids[0].qty > asks[0].qty {
        SharedConsumed(results + [m], next.bids, next.asks, d);
      }
    }
  }

  // ---------------------------------------------------------------
  // A whole run
  // ---------------------------------------------------------------

  /** A record that some pass of a run over `books` can emit: labelled by a
      bidding book i and an asking book j, with i's bid strictly above j's ask. */
  ghost predicate FromBooks(r: MatchResult, books: seq<Book>)
  {
    exists i, j :: 0 <= i < |books| && 0 <= j < |books| &&
      r.exchange1 == Label(books[i].name) && r.exchange2 == Label(books[j].name) &&
      r.bid > r.ask && r.bid in Prices(books[i].bids) && r.ask in Prices(books[j].asks)
  }

  predicate AllValid(books: seq<Book>)
  {
    forall i :: 0 <= i < |books| ==> ValidBook(books[i])
  }

  lemma FromPass(r: MatchResult, bids: seq<Level>, books: seq<Book>, i: nat, j: nat)
    requires i < |books| && j < |books| && Prices(bids) == Prices(books[i].bids)
    requires Emitted(r, bids, books[j].asks, Pass(books, i, j))
    ensures FromBooks(r, books)
  {
  }

  /** Every record of s from index `from` on comes from the books. */
  ghost predicate AllFromBooks(s: seq<MatchResult>, from: nat, books: seq<Book>)
  {
    forall k :: from <= k < |s| ==> FromBooks(s[k], books)
  }

  /** Records from `from` on that come from the books still do after more
      records are appended. */
  lemma AllFromBooksExtend(s: seq<MatchResult>, t: seq<MatchResult>, from: nat, books: seq<Book>)
    requires |s| <= |t| && t[..|s|] == s
    requires AllFromBooks(s, from, books) && AllFromBooks(t, |s|, books)
    ensures AllFromBooks(t, from, books)
  {
    forall k | from <= k < |t| ensures FromBooks(t[k], books) {
      if k < |s| { assert t[k] == t[..|s|][k]; }
    }
  }

  /** Every record appended by the pass of book i's bids, as earlier passes
      left them, against book j's asks comes from the books. */
  lemma PassRecords(results: seq<MatchResult>, bids: seq<Level>, books: seq<Book>, i: nat, j: nat)
    requires i < |books| && j < |books| && Prices(bids) == Prices(books[i].bids)
    ensures AllFromBooks(Detect(results, bids, books[j].asks, Pass(books, i, j)), |results|, books)
  {
    var mid := Detect(results, bids, books[j].asks, Pass(books, i, j));
    DetectRecords(results, bids, books[j].asks, Pass(books, i, j));
    forall k | |results| <= k < |mid| ensures FromBooks(mid[k], books) {
      FromPass(mid[k], bids, books, i, j);
    }
  }

  lemma {:induction false} OthersRecords(results: seq<MatchResult>, bids: seq<Level>, books: seq<Book>, i: nat, j: nat)
    requires i < |books| && j <= |books| && Prices(bids) == Prices(books[i].bids)
    ensures AllFromBooks(Others(results, bids, books, i, j), |results|, books)
    decreases |books| - j
  {
    if j == |books| {
    } else if j == i {
      OthersRecords(results, bids, books, i, j + 1);
    } else {
      var d := Pass(books, i, j);
      var mid := Detect(results, bids, books[j].asks, d);
      var next := Shared(results, bids, books[j].asks, d);
      var r := Others(results, bids, books, i, j);
      assert r == Others(mid, next, books, i, j + 1);
      PassRecords(results, bids, books, i, j);
      SharedPrices(results, bids, books[j].asks, d);
      OthersRecords(mid, next, books, i, j + 1);
      AllFromBooksExtend(mid, r, |results|, books);
    }
  }

  lemma {:induction false} OthersPositive(results: seq<MatchResult>, bids: seq<Level>, books: seq<Book>, i: nat, j: nat)
    requires i < |books| && j <= |books| && AllValid(books) && Positive(bids)
    ensures forall k :: |results| <= k < |Others(results, bids, books, i, j)| ==> Others(results, bids, books, i, j)[k].optQty > 0
    decreases |books| - j
  {
    if j == |books| {
    } else if j == i {
      OthersPositive(results, bids, books, i, j + 1);
    } else {
      var d := Pass(books, i, j);
      var mid := Detect(results, bids, books[j].asks, d);
      var next := Shared(results, bids, books[j].asks, d);
      var r := Others(results, bids, books, i, j);
      assert r == Others(mid, next, books, i, j + 1);
      assert ValidBook(books[j]);
      DetectRecords(results, bids, books[j].asks, d);
      SharedPositive(results, bids, books[j].asks, d);
      OthersPositive(mid, next, books, i, j + 1);
      forall k | |results| <= k < |mid| ensures r[k].optQty > 0 {
        assert r[k] == r[..|mid|][k];
      }
    }
  }

  lemma {:induction false} RunFromRecords(results: seq<MatchResult>, books: seq<Book>, i: nat)
    requires i <= |books|
    ensures AllFromBooks(RunFrom(results, books, i), |results|, books)
    decreases |books| - i
  {
    if i < |books| {
      var d := Pass(books, i, i);
      var intra := Detect(results, books[i].bids, books[i].asks, d);
      var next := Shared(results, books[i].bids, books[i].asks, d);
      var mid := Others(intra, next, books, i, 0);
      var r := RunFrom(results, books, i);
      assert r == RunFrom(mid, books, i + 1);
      PassRecords(results, books[i].bids, books, i, i);
      SharedPrices(results, books[i].bids, books[i].asks, d);
      OthersRecords(intra, next, books, i, 0);
      RunFromRecords(mid, books, i + 1);
      AllFromBooksExtend(intra, mid, |results|, books);
      AllFromBooksExtend(mid, r, |results|, books);
    }
  }

  lemma {:induction false} RunFromPositive(results: seq<MatchResult>, books: seq<Book>, i: nat)
    requires i <= |books| && AllValid(books)
    ensures forall k :: |results| <= k < |RunFrom(results, books, i)| ==> RunFrom(results, books, i)[k].optQty > 0
    decreases |books| - i
  {
    if i < |books| {
      var d := Pass(books, i, i);
      var intra := Detect(results, books[i].bids, books[i].asks, d);
      var next := Shared(results, books[i].bids, books[i].asks, d);
      var mid := Others(intra, next, books, i, 0);
      var r := RunFrom(results, books, i);
      assert r == RunFrom(mid, books, i + 1);
      assert ValidBook(books[i]);
      DetectRecords(results, books[i].bids, books[i].asks, d);
      SharedPositive(results, books[i].bids, books[i].asks, d);
      OthersPositive(intra, next, books, i, 0);
      RunFromPositive(mid, books, i + 1);
      forall k | |results| <= k < |mid| ensures r[k].optQty > 0 {
        assert r[k] == r[..|mid|][k];
        if k < |intra| {
          assert mid[k] == mid[..|intra|][k];
        }
      }
    }
  }

  /** Every record of a run names a bidding book and an asking book of the
      run, by their labels, with the bid strictly above the ask and both
      prices taken from those books' ladders; on valid books every quantity
      is positive. */
  lemma RunRecords(books: seq<Book>)
    ensures AllFromBooks(RunAll(books), 0, books)
    ensures AllValid(books) ==> forall k :: 0 <= k < |RunAll(books)| ==> RunAll(books)[k].optQty > 0
  {
    RunFromRecords([], books, 0);
    if AllValid(books) { RunFromPositive([], books, 0); }
  }

  /** A run records something only when some book's bid is strictly above
      some (possibly the same) book's ask; so an empty book list, or books
      that never cross, record nothing. */
  lemma RunNeedsCrossing(books: seq<Book>)
    ensures RunAll(books) != [] ==>
              exists i, j :: 0 <= i < |books| && 0 <= j < |books| && Crosses(books[i].bids, books[j].asks)
  {
    if |RunAll(books)| > 0 {
      RunRecords(books);
      var m := RunAll(books)[0];
      var i, j :| 0 <= i < |books| && 0 <= j < |books| &&
        m.bid > m.ask && m.bid in Prices(books[i].bids) && m.ask in Prices(books[j].asks);
      EmittedCrosses(m, books[i].bids, books[j].asks, Description(m.exchange1, m.exchange2));
    }
  }

  /** The run starts with book 0's intra-book pass: when book 0 crosses
      itself, the first record is its top bid against its own top ask. */
  lemma RunStartsWithIntraBook(books: seq<Book>)
    requires |books| > 0 && |books[0].bids| > 0 && |books[0].asks| > 0
    requires ExistsArb(books[0].bids, books[0].asks)
    ensures |RunAll(books)| > 0
    ensures RunAll(books)[0] == MatchResult(Label(books[0].name), Label(books[0].name),
              books[0].bids[0].price, books[0].asks[0].price, Min(books[0].bids[0].qty, books[0].asks[0].qty))
  {
    var b := books[0];
    var intra := Detect([], b.bids, b.asks, Pass(books, 0, 0));
    DetectFirst([], b.bids, b.asks, Pass(books, 0, 0));
    var mid := Others(intra, Shared([], b.bids, b.asks, Pass(books, 0, 0)), books, 0, 0);
    var r := RunAll(books);
    assert r == RunFrom(mid, books, 1);
    assert r[0] == r[..|mid|][0] == mid[0] == mid[..|intra|][0] == intra[0];
  }

  // ---------------------------------------------------------------
  // Reported totals
  // ---------------------------------------------------------------

  /** Results whose bids are above their asks by at least one hundredth and
      whose quantities are positive report a P&L (in hundredths) of at least
      their total quantity, which is at least their count; the total P&L is
      positive exactly when there is a result. */
  lemma {:induction false} PnLCoversQuantity(results: seq<MatchResult>)
    requires forall k :: 0 <= k < |results| ==> results[k].bid > results[k].ask && results[k].optQty > 0
    ensures TotalPnL(results) >= TotalQty(results) >= |results|
    ensures results != [] <==> TotalPnL(results) > 0
    decreases |results|
  {
    if |results| > 0 {
      var r := results[0];
      assert (r.bid - r.ask - 1) * r.optQty >= 0;
      assert PnL(r) >= r.optQty;
      PnLCoversQuantity(results[1..]);
    }
  }

  /** On valid books a run's reported P&L is at least its reported total
      quantity, and positive exactly when the run found an arbitrage. */
  lemma RunPnL(books: seq<Book>)
    requires AllValid(books)
    ensures TotalPnL(RunAll(books)) >= TotalQty(RunAll(books)) >= |RunAll(books)|
    ensures RunAll(books) != [] <==> TotalPnL(RunAll(books)) > 0
  {
    RunRecords(books);
    var r := RunAll(books);
    forall k | 0 <= k < |r| ensures r[k].bid > r[k].ask && r[k].optQty > 0 {
      assert FromBooks(r[k], books);
    }
    PnLCoversQuantity(r);
  }
}
