/** The arbitrage matching engine: the crossing test, the liquidity check over
    earlier matches, the matching loop over two ladders and the orchestration
    over all books. The pure functions here are the specification that the
    methods of class Arbitrages are proved against. */
module Matching {
  import opened OrderBook

  /** One realised arbitrage: bought on exchange2 at `ask`, sold on exchange1
      at `bid`, for optQty units. */
  datatype MatchResult = MatchResult(exchange1: string, exchange2: string, bid: int, ask: int, optQty: int)

  /** The labels a matching pass writes into its results: the bidding venue
      and the venue whose asks are taken. */
  datatype Description = Description(exchange1: string, exchange2: string)

  /** A bid ladder and an ask ladder, as the matching loop holds them. */
  datatype Ladders = Ladders(bids: seq<Level>, asks: seq<Level>)

  function Min(x: int, y: int): (m: int)
    ensures m <= x && m <= y && (m == x || m == y)
  {
    if x <= y then x else y
  }

  /** The crossing test of the top of book; strict, so equal prices do not
      cross. */
  predicate ExistsArb(bids: seq<Level>, asks: seq<Level>)
    requires |bids| > 0 && |asks| > 0
  {
    bids[0].price > asks[0].price
  }

  /** Some bid of the first ladder is strictly above some ask of the second. */
  predicate Crosses(bids: seq<Level>, asks: seq<Level>)
  {
    exists i, j :: 0 <= i < |bids| && 0 <= j < |asks| && bids[i].price > asks[j].price
  }

  // ---------------------------------------------------------------
  // The liquidity check over the results recorded so far
  // ---------------------------------------------------------------

  /** Some earlier match bought on `exchange`. */
  predicate HasDestination(results: seq<MatchResult>, exchange: string)
  {
    exists k :: 0 <= k < |results| && results[k].exchange2 == exchange
  }

  /** Some earlier match bought on `exchange` at `askPrice`. */
  predicate HasKey(results: seq<MatchResult>, exchange: string, askPrice: int)
  {
    exists k :: 0 <= k < |results| && results[k].exchange2 == exchange && results[k].ask == askPrice
  }

  /** The quantity earlier matches bought on `exchange` at `askPrice`. */
  function Claimed(results: seq<MatchResult>, exchange: string, askPrice: int): (c: int)
    ensures !HasKey(results, exchange, askPrice) ==> c == 0
  {
    if |results| == 0 then 0
    else
      var init := results[..|results| - 1];
      assert !HasKey(results, exchange, askPrice) ==> !HasKey(init, exchange, askPrice) by {
        if HasKey(init, exchange, askPrice) {
          var k :| 0 <= k < |init| && init[k].exchange2 == exchange && init[k].ask == askPrice;
          assert results[k] == init[k];
        }
      }
      Claimed(init, exchange, askPrice)
      + (var r := results[|results| - 1];
         if r.exchange2 == exchange && r.ask == askPrice then r.optQty else 0)
  }

  /** `check_in_results`: may the ask at `askPrice` on `exchange`, currently
      showing `askQty`, still be bought? Only the destination venue and the ask
      price form the key; the source venue plays no part. */
  function CheckInResults(results: seq<MatchResult>, askPrice: int, askQty: int, exchange: string): (ok: bool)
    ensures ok <==> !HasKey(results, exchange, askPrice) || Claimed(results, exchange, askPrice) < askQty
  {
    if |results| == 0 then true
    else if !HasDestination(results, exchange) then true
    else if !HasKey(results, exchange, askPrice) then true
    else Claimed(results, exchange, askPrice) < askQty
  }

  // ---------------------------------------------------------------
  // One matching step and the matching loop
  // ---------------------------------------------------------------

  /** The quantity update after a match, as intended: the side with more
      quantity keeps its top level reduced by the other side's quantity, the
      other side's top level is removed, and both go when they are equal.
      (Book.py lines 178 and 182 as written rebind the opposite ladder; see
      module AsWritten.) */
  function Step(bids: seq<Level>, asks: seq<Level>): (r: Ladders)
    requires |bids| > 0 && |asks| > 0
    ensures |r.bids| + |r.asks| < |bids| + |asks|
    ensures r.bids == bids[1..] || (|r.bids| == |bids| && r.bids[0].price == bids[0].price && r.bids[1..] == bids[1..])
    ensures r.asks == asks[1..] || (|r.asks| == |asks| && r.asks[0].price == asks[0].price && r.asks[1..] == asks[1..])
    ensures Total(r.bids) == Total(bids) - Min(bids[0].qty, asks[0].qty)
    ensures Total(r.asks) == Total(asks) - Min(bids[0].qty, asks[0].qty)
    ensures Prices(r.bids) <= Prices(bids) && Prices(r.asks) <= Prices(asks)
    ensures Sorted(Bid, bids) ==> Sorted(Bid, r.bids)
    ensures Sorted(Ask, asks) ==> Sorted(Ask, r.asks)
    ensures Positive(bids) && Positive(asks) ==> Positive(r.bids) && Positive(r.asks)
  {
    var bq, aq := bids[0].qty, asks[0].qty;
    if bq > aq then
      var nb := bids[0 := bids[0].(qty := bq - aq)];
      assert nb[1..] == bids[1..];
      Ladders(nb, asks[1..])
    else if bq < aq then
      var na := asks[0 := asks[0].(qty := aq - bq)];
      assert na[1..] == asks[1..];
      Ladders(bids[1..], na)
    else
      assert Sorted(Ask, asks) ==> Sorted(Ask, asks[1..]) by {
        if Sorted(Ask, asks) { SortedTail(Ask, asks); }
      }
      Ladders(bids[1..], asks[1..])
  }

  /** The results list after `detect_arb(bids, asks, d)` has run on value
      copies of the two ladders, starting from `results`. While both ladders
      are non-empty and cross at the top: an ask already bought out is dropped;
      otherwise one match of min(top bid qty, top ask qty) is appended and the
      ladders advance by Step. Append-only: earlier results are kept as they
      are and at most one record is added per level of the two ladders. */
  function Detect(results: seq<MatchResult>, bids: seq<Level>, asks: seq<Level>, d: Description): (r: seq<MatchResult>)
    ensures |results| <= |r| <= |results| + |bids| + |asks|
    ensures r[..|results|] == results
    decreases |bids| + |asks|
  {
    if |bids| == 0 || |asks| == 0 || !ExistsArb(bids, asks) then results
    else if !CheckInResults(results, asks[0].price, asks[0].qty, d.exchange2) then
      Detect(results, bids, asks[1..], d)
    else
      var m := MatchResult(d.exchange1, d.exchange2, bids[0].price, asks[0].price, Min(bids[0].qty, asks[0].qty));
      var next := Step(bids, asks);
      var r := Detect(results + [m], next.bids, next.asks, d);
      assert r[..|results|] == r[..|results| + 1][..|results|];
      r
  }

  /** What the caller's bid array holds after `detect_arb(bids, asks, d)`.
      The pass starts on the caller's array itself, not on a copy: the
      decrement of the top bid (Book.py:177) writes into it for as long as
      the pass has not rebound `bids` to a new array, which happens as soon
      as the top bid level is used up (np.delete). From then on the caller's
      array keeps the state it had at that moment. */
  function Shared(results: seq<MatchResult>, bids: seq<Level>, asks: seq<Level>, d: Description): (s: seq<Level>)
    ensures |s| == |bids|
    ensures |bids| > 0 ==> s[0].price == bids[0].price && s[1..] == bids[1..]
    decreases |bids| + |asks|
  {
    if |bids| == 0 || |asks| == 0 || !ExistsArb(bids, asks) then bids
    else if !CheckInResults(results, asks[0].price, asks[0].qty, d.exchange2) then
      Shared(results, bids, asks[1..], d)
    else if bids[0].qty > asks[0].qty then
      var m := MatchResult(d.exchange1, d.exchange2, bids[0].price, asks[0].price, Min(bids[0].qty, asks[0].qty));
      var next := Step(bids, asks);
      Shared(results + [m], next.bids, next.asks, d)
    else bids
  }

  // ---------------------------------------------------------------
  // The orchestration over all books
  // ---------------------------------------------------------------

  /** The description of the pass matching book i's bids against book j's asks. */
  function Pass(books: seq<Book>, i: nat, j: nat): Description
    requires i < |books| && j < |books|
  {
    Description(Label(books[i].name), Label(books[j].name))
  }

  /** Book i's bids matched, in ascending order, against the asks of every
      book from index j on except book i itself. `bids` is book i's bid
      array as the earlier passes have left it: every pass gets the same
      array, and each pass starts from what the previous one left there. */
  function Others(results: seq<MatchResult>, bids: seq<Level>, books: seq<Book>, i: nat, j: nat): (r: seq<MatchResult>)
    requires i < |books| && j <= |books|
    ensures |results| <= |r| && r[..|results|] == results
    decreases |books| - j
  {
    if j == |books| then results
    else if j == i then Others(results, bids, books, i, j + 1)
    else
      var d := Pass(books, i, j);
      var mid := Detect(results, bids, books[j].asks, d);
      var r := Others(mid, Shared(results, bids, books[j].asks, d), books, i, j + 1);
      assert r[..|results|] == r[..|mid|][..|results|];
      r
  }

  /** Book i's bid array after its passes against books j.., as `Others`
      threads it: only its top level's quantity can have changed. */
  function OthersBids(results: seq<MatchResult>, bids: seq<Level>, books: seq<Book>, i: nat, j: nat): (s: seq<Level>)
    requires i < |books| && j <= |books|
    ensures |s| == |bids|
    ensures |bids| > 0 ==> s[0].price == bids[0].price && s[1..] == bids[1..]
    decreases |books| - j
  {
    if j == |books| then bids
    else if j == i then OthersBids(results, bids, books, i, j + 1)
    else
      var d := Pass(books, i, j);
      OthersBids(Detect(results, bids, books[j].asks, d), Shared(results, bids, books[j].asks, d), books, i, j + 1)
  }

  /** Books i.. processed in order: a fresh copy of book i's bids, its
      intra-book pass on that copy, then its passes against the others on
      the same copy, before book i + 1. */
  function RunFrom(results: seq<MatchResult>, books: seq<Book>, i: nat): (r: seq<MatchResult>)
    requires i <= |books|
    ensures |results| <= |r| && r[..|results|] == results
    decreases |books| - i
  {
    if i == |books| then results
    else
      var d := Pass(books, i, i);
      var intra := Detect(results, books[i].bids, books[i].asks, d);
      var mid := Others(intra, Shared(results, books[i].bids, books[i].asks, d), books, i, 0);
      var r := RunFrom(mid, books, i + 1);
      assert r[..|results|] == r[..|mid|][..|intra|][..|results|];
      r
  }

  /** The results of a whole run over `books`, starting from none. */
  function RunAll(books: seq<Book>): (r: seq<MatchResult>)
    ensures |books| == 0 ==> r == []
  {
    RunFrom([], books, 0)
  }

  // ---------------------------------------------------------------
  // Reporting sums
  // ---------------------------------------------------------------

  /** Profit of one match, in hundredths: (bid - ask) * quantity. */
  function PnL(r: MatchResult): (p: int)
    ensures r.bid > r.ask && r.optQty > 0 ==> p >= r.optQty
  {
    assert r.bid > r.ask && r.optQty > 0 ==> (r.bid - r.ask - 1) * r.optQty >= 0;
    (r.bid - r.ask) * r.optQty
  }

  /** Total matched quantity reported for a results list: at least one unit
      per record when every record has a positive quantity. */
  function TotalQty(results: seq<MatchResult>): (q: int)
    ensures (forall k :: 0 <= k < |results| ==> results[k].optQty > 0) ==> q >= |results|
  {
    if |results| == 0 then 0
    else
      assert forall k :: 0 <= k < |results| - 1 ==> results[1..][k] == results[k + 1];
      results[0].optQty + TotalQty(results[1..])
  }

  /** Total P&L reported for a results list: not negative when no record
      loses money. */
  function TotalPnL(results: seq<MatchResult>): (p: int)
    ensures (forall k :: 0 <= k < |results| ==> PnL(results[k]) >= 0) ==> p >= 0
  {
    if |results| == 0 then 0
    else
      assert forall k :: 0 <= k < |results| - 1 ==> results[1..][k] == results[k + 1];
      PnL(results[0]) + TotalPnL(results[1..])
  }

  // ---------------------------------------------------------------
  // The engine object
  // ---------------------------------------------------------------

  /** `np.delete(a, 0, 0)`: a new array holding a without its first level. */
  method Delete(a: array<Level>) returns (b: array<Level>)
    requires a.Length > 0
    ensures fresh(b) && b[..] == a[1..]
  {
    b := new Level[a.Length - 1](k reads a => if 0 <= k < a.Length - 1 then a[k + 1] else a[0]);
    assert b[..] == a[1..] by {
      forall k | 0 <= k < b.Length ensures b[k] == a[1..][k] { }
    }
  }

  /** `to_numpy()`: a new array holding the levels of a ladder. */
  method ToArray(l: seq<Level>) returns (a: array<Level>)
    ensures fresh(a) && a[..] == l
  {
    a := new Level[|l|](k => if 0 <= k < |l| then l[k] else Level(0, 0));
    assert a[..] == l by {
      forall k | 0 <= k < a.Length ensures a[k] == l[k] { }
    }
  }

  /** The quantity update after a match (Book.py:176-186, with each side
      advancing its own ladder): a larger top bid is decremented in place in
      the bid array itself; otherwise the bid ladder is rebound to a new
      array without its top level and the old array is left as it is. */
  method Advance(bids: array<Level>, asks: seq<Level>) returns (nb: array<Level>, na: seq<Level>)
    requires bids.Length > 0 && |asks| > 0
    modifies bids
    ensures Ladders(nb[..], na) == Step(old(bids[..]), asks)
    ensures old(bids[0].qty) > asks[0].qty ==> nb == bids
    ensures old(bids[0].qty) <= asks[0].qty ==> fresh(nb) && bids[..] == old(bids[..])
  {
    if bids[0].qty > asks[0].qty {
      bids[0] := bids[0].(qty := bids[0].qty - asks[0].qty);
      nb, na := bids, asks[1..];
    } else if bids[0].qty < asks[0].qty {
      na := asks[0 := asks[0].(qty := asks[0].qty - bids[0].qty)];
      nb := Delete(bids);
    } else {
      nb := Delete(bids);
      na := asks[1..];
    }
  }

  /** The `Arbitrages` object: the books it was built on and the results list
      that its matching passes append to. */
  class Arbitrages {
    const books: seq<Book>
    var results: seq<MatchResult>

    /** Builds the object and runs the detection, as the source's
        constructor does. */
    constructor (books: seq<Book>)
      ensures this.books == books
      ensures results == RunAll(books)
    {
      this.books := books;
      results := [];
      new;
      Run();
    }

    /** `detect_arb`: the matching loop. `bids` starts as the caller's array
        and is written in place until it is rebound to a new array; the ask
        ladder is a value, since every ask array a pass receives is a fresh
        copy that nothing reads afterwards. */
    method DetectArb(bids0: array<Level>, asks0: seq<Level>, d: Description)
      modifies this, bids0
      ensures results == Detect(old(results), old(bids0[..]), asks0, d)
      ensures bids0[..] == Shared(old(results), old(bids0[..]), asks0, d)
    {
      var bids, asks := bids0, asks0;
      while bids.Length > 0 && |asks| > 0 && ExistsArb(bids[..], asks)
        invariant bids == bids0 || fresh(bids)
        invariant Detect(results, bids[..], asks, d) == Detect(old(results), old(bids0[..]), asks0, d)
        invariant bids == bids0 ==> Shared(results, bids[..], asks, d) == Shared(old(results), old(bids0[..]), asks0, d)
        invariant bids != bids0 ==> bids0[..] == Shared(old(results), old(bids0[..]), asks0, d)
        decreases bids.Length + |asks|
      {
        if !CheckInResults(results, asks[0].price, asks[0].qty, d.exchange2) {
          asks := asks[1..];
          continue;
        }
        var m := MatchResult(d.exchange1, d.exchange2, bids[0].price, asks[0].price, Min(bids[0].qty, asks[0].qty));
        results := results + [m];
        bids, asks := Advance(bids, asks);
      }
    }

    /** Part 2 of `run` for book i: its bid array, as the intra-book pass
        left it, matched against every other book's asks in ascending index
        order, with the destination label of the shared description
        rewritten before each pass. */
    method MatchOthers(bidI: array<Level>, i: nat, description0: Description)
      requires i < |books| && description0.exchange1 == Label(books[i].name)
      modifies this, bidI
      ensures results == Others(old(results), old(bidI[..]), books, i, 0)
      ensures bidI[..] == OthersBids(old(results), old(bidI[..]), books, i, 0)
    {
      var description := description0;
      var j := 0;
      while j < |books|
        invariant j <= |books|
        invariant description.exchange1 == Label(books[i].name)
        invariant Others(results, bidI[..], books, i, j) == Others(old(results), old(bidI[..]), books, i, 0)
        invariant OthersBids(results, bidI[..], books, i, j) == OthersBids(old(results), old(bidI[..]), books, i, 0)
      {
        if j != i {
          description := description.(exchange2 := Label(books[j].name));
          DetectArb(bidI, books[j].asks, description);
        }
        j := j + 1;
      }
    }

    /** `run`: for each book in index order, one fresh copy of its bids,
        shared by its intra-book pass and then by its passes against every
        other book. */
    method Run()
      modifies this
      ensures results == RunFrom(old(results), books, 0)
    {
      var i := 0;
      while i < |books|
        invariant i <= |books|
        invariant RunFrom(results, books, i) == RunFrom(old(results), books, 0)
      {
        var bidI := ToArray(books[i].bids);
        var askI := books[i].asks;
        var description := Description(Label(books[i].name), Label(books[i].name));
        DetectArb(bidI, askI, description);
        MatchOthers(bidI, i, description);
        i := i + 1;
      }
    }
  }
}
