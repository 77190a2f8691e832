/** Two places where the code as written departs from what it evidently
    means to do, each modelled literally next to the counterexample that
    shows the difference. The rest of the model uses the intended behaviour.

    1. The quantity update of `detect_arb` (Book.py lines 176-186). Lines 178
       and 182 rebind the opposite ladder: after a partial fill the bid ladder
       becomes the ask ladder without its top level, or the ask ladder becomes
       the bid ladder without its top level. The comment on line 175 and the
       equal-quantity branch on lines 185-186 show that each side was meant to
       advance its own ladder, which is what Matching.Step does.

    2. The report printed at the end of `run` (Book.py lines 212-222). It
       reads the "bid" column of a frame built from the results, and a frame
       built from an empty list has no such column, so building an
       `Arbitrages` object fails whenever nothing was found. The totals
       Matching.TotalQty and Matching.TotalPnL are defined for every list. */
module AsWritten {
  import opened OrderBook
  import opened Matching
  import opened MatchingProperties

  datatype Option<T> = None | Some(value: T)

  /** The update as written, on value copies (the in-place decrements on
      lines 177 and 181 are lost with the array that is rebound). */
  function StepAsWritten(bids: seq<Level>, asks: seq<Level>): (r: Ladders)
    requires |bids| > 0 && |asks| > 0
    ensures r == Step(bids, asks) <==> bids[0].qty == asks[0].qty
  {
    if bids[0].qty > asks[0].qty then Ladders(asks[1..], asks)
    else if bids[0].qty < asks[0].qty then Ladders(bids, bids[1..])
    else Ladders(bids[1..], asks[1..])
  }

  /** Two partial fills on which the literal update leaves ask levels on the
      bid side, or bid levels on the ask side, while the intended update only
      consumes quantity. In the second one the ask side then shows a bid
      price that still crosses the remaining bids, so the next iteration
      would match the book's bids against its own bid level. */
  lemma StepAsWrittenMixesLadders()
    ensures var bids, asks := [Level(10100, 5)], [Level(9900, 3), Level(10000, 2)];
            StepAsWritten(bids, asks) == Ladders([Level(10000, 2)], asks) &&
            StepAsWritten(bids, asks).bids[0].price !in Prices(bids) &&
            Step(bids, asks) == Ladders([Level(10100, 2)], [Level(10000, 2)])
    ensures var bids, asks := [Level(10100, 2), Level(10000, 1)], [Level(9900, 5)];
            StepAsWritten(bids, asks) == Ladders(bids, [Level(10000, 1)]) &&
            StepAsWritten(bids, asks).asks[0].price !in Prices(asks) &&
            ExistsArb(StepAsWritten(bids, asks).bids, StepAsWritten(bids, asks).asks) &&
            Step(bids, asks) == Ladders([Level(10000, 1)], [Level(9900, 3)])
  {
    var bids, asks := [Level(10100, 5)], [Level(9900, 3), Level(10000, 2)];
    assert asks[1..] == [Level(10000, 2)];
    var bids2, asks2 := [Level(10100, 2), Level(10000, 1)], [Level(9900, 5)];
    assert bids2[1..] == [Level(10000, 1)];
    assert asks2[1..] == [];
  }

  /** One `detect_arb` pass with the update as written, on value copies. The
      literal update need not shrink the ladders, so the pass is given at
      most `fuel` iterations and is None when it has not stopped by then. */
  function PassAsWritten(results: seq<MatchResult>, bids: seq<Level>, asks: seq<Level>, d: Description, fuel: nat)
    : (r: Option<seq<MatchResult>>)
    ensures r.Some? ==> |results| <= |r.value| && r.value[..|results|] == results
    decreases fuel
  {
    if |bids| == 0 || |asks| == 0 || !ExistsArb(bids, asks) then Some(results)
    else if fuel == 0 then None
    else if !CheckInResults(results, asks[0].price, asks[0].qty, d.exchange2) then
      PassAsWritten(results, bids, asks[1..], d, fuel - 1)
    else
      var m := MatchResult(d.exchange1, d.exchange2, bids[0].price, asks[0].price, Min(bids[0].qty, asks[0].qty));
      var next := StepAsWritten(bids, asks);
      var r := PassAsWritten(results + [m], next.bids, next.asks, d, fuel - 1);
      assert r.Some? ==> r.value[..|results|] == r.value[..|results| + 1][..|results|];
      r
  }

  /** The literal pass records a match whose "ask" is one of the book's own
      bid levels: bids 101.00×2, 100.00×1 against asks 99.00×5 record
      (101.00, 99.00, 2) and then (101.00, 100.00, 1), though 100.00 is no
      ask price. The intended pass records (101.00, 99.00, 2) and
      (100.00, 99.00, 1); see IntendedPassOnSameBook. */
  lemma PassAsWrittenRecordsBidAsAsk()
    ensures var bids, asks, d := [Level(10100, 2), Level(10000, 1)], [Level(9900, 5)], Description("a", "a");
            PassAsWritten([], bids, asks, d, 3)
            == Some([MatchResult("a", "a", 10100, 9900, 2), MatchResult("a", "a", 10100, 10000, 1)]) &&
            10000 !in Prices(asks)
  {
    var bids, asks := [Level(10100, 2), Level(10000, 1)], [Level(9900, 5)];
    var m1 := MatchResult("a", "a", 10100, 9900, 2);
    var m2 := MatchResult("a", "a", 10100, 10000, 1);
    assert bids[1..] == [Level(10000, 1)];
    assert [m1][0] == m1;
    assert StepAsWritten(bids, asks) == Ladders(bids, [Level(10000, 1)]);
    assert !HasKey([m1], "a", 10000);
    assert StepAsWritten(bids, [Level(10000, 1)]) == Ladders([], [Level(10000, 1)]);
    assert [] + [m1] + [m2] == [m1, m2];
  }

  /** The intended pass on the same ladders: the ask side keeps 99.00×3, and
      with 2 claimed the bid at 100.00 takes 1 of them. */
  lemma IntendedPassOnSameBook()
    ensures var bids, asks, d := [Level(10100, 2), Level(10000, 1)], [Level(9900, 5)], Description("a", "a");
            Detect([], bids, asks, d)
            == [MatchResult("a", "a", 10100, 9900, 2), MatchResult("a", "a", 10000, 9900, 1)]
  {
    var bids, asks := [Level(10100, 2), Level(10000, 1)], [Level(9900, 5)];
    var m1 := MatchResult("a", "a", 10100, 9900, 2);
    var n2 := MatchResult("a", "a", 10000, 9900, 1);
    assert bids[1..] == [Level(10000, 1)];
    assert [m1][0] == m1 && [m1][..0] == [];
    assert Step(bids, asks) == Ladders([Level(10000, 1)], [Level(9900, 3)]);
    assert HasKey([m1], "a", 9900) && Claimed([m1], "a", 9900) == 2;
    assert Step([Level(10000, 1)], [Level(9900, 3)]) == Ladders([], [Level(9900, 2)]);
    assert [] + [m1] + [n2] == [m1, n2];
  }

  /** The two totals `__str__` prints. */
  datatype Report = Report(quantity: int, pnl: int)

  /** The report as written: None stands for the KeyError raised on line 216
      when the results list is empty. On records of positive quantity, it
      fails exactly where the intended report would show a total quantity of
      0, and it never fails on a total it could have shown. */
  function ReportAsWritten(results: seq<MatchResult>): (r: Option<Report>)
    ensures (forall k :: 0 <= k < |results| ==> results[k].optQty > 0) ==> (r == None <==> TotalQty(results) == 0)
    ensures r == None ==> TotalQty(results) == 0 && TotalPnL(results) == 0
  {
    if |results| == 0 then None else Some(Report(TotalQty(results), TotalPnL(results)))
  }

  /** Building `Arbitrages` over books none of whose bids is above any ask,
      an empty book list included, ends in the error instead of reporting
      that nothing was found. */
  lemma ReportFailsWithoutArbitrage(books: seq<Book>)
    requires forall i, j :: 0 <= i < |books| && 0 <= j < |books| ==> !Crosses(books[i].bids, books[j].asks)
    ensures ReportAsWritten(RunAll(books)) == None
  {
    RunNeedsCrossing(books);
  }
}
