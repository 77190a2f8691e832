/** Whole runs on small concrete books. Prices are in hundredths, so 10100
    stands for 101.00. Book names follow the source's "<symbol> <venue>"
    shape (as in "SOL/USDT exchange0"); the venue label is the last word. */
module Scenarios {
  import opened OrderBook
  import opened Matching

  lemma VenueLabels()
    ensures Label("SOL a") == "a" && Label("SOL b") == "b" && Label("SOL c") == "c"
  {
    assert "SOL a"[..4] == "SOL " && "SOL b"[..4] == "SOL " && "SOL c"[..4] == "SOL ";
    assert Label("SOL ") == "";
  }

  /** One self-crossed book: one intra-book match of 3 at 101.00 / 99.00; the
      2 remaining bid units find no further ask. */
  lemma SingleBookCrossing()
    ensures RunAll([Book("SOL a", [Level(10100, 5)], [Level(9900, 3)])])
            == [MatchResult("a", "a", 10100, 9900, 3)]
  {
    VenueLabels();
    var books := [Book("SOL a", [Level(10100, 5)], [Level(9900, 3)])];
    var m := MatchResult("a", "a", 10100, 9900, 3);
    assert Step(books[0].bids, books[0].asks) == Ladders([Level(10100, 2)], []);
    assert Detect([], books[0].bids, books[0].asks, Pass(books, 0, 0)) == [m];
    assert Shared([], books[0].bids, books[0].asks, Pass(books, 0, 0)) == [Level(10100, 2)];
    assert Others([m], [Level(10100, 2)], books, 0, 0) == [m];
    assert RunFrom([], books, 0) == RunFrom([m], books, 1);
  }

  /** Book a's bid of 4 at 100.00 against book b's ask of 4 at 98.00: one
      inter-book match of 4, which the ledger then counts against (b, 98.00). */
  lemma TwoBooks()
    ensures var books := [Book("SOL a", [Level(10000, 4)], []), Book("SOL b", [], [Level(9800, 4)])];
            RunAll(books) == [MatchResult("a", "b", 10000, 9800, 4)] &&
            Claimed(RunAll(books), "b", 9800) == 4
  {
    VenueLabels();
    var books := [Book("SOL a", [Level(10000, 4)], []), Book("SOL b", [], [Level(9800, 4)])];
    var m := MatchResult("a", "b", 10000, 9800, 4);
    assert Step(books[0].bids, books[1].asks) == Ladders([], []);
    assert Detect([], books[0].bids, books[1].asks, Pass(books, 0, 1)) == [m];
    assert Others([], books[0].bids, books, 0, 0) == [m];
    assert Others([m], [], books, 1, 0) == [m];
    assert RunFrom([], books, 0) == RunFrom([m], books, 1) == RunFrom([m], books, 2);
    assert [m][..0] == [];
  }

  /** The same ask price on two venues is two separate keys: book a's bid of 4
      is matched in full against b's ask and again against c's ask. */
  lemma SamePriceTwoVenues()
    ensures RunAll([Book("SOL a", [Level(10000, 4)], []), Book("SOL b", [], [Level(9800, 4)]),
                    Book("SOL c", [], [Level(9800, 4)])])
            == [MatchResult("a", "b", 10000, 9800, 4), MatchResult("a", "c", 10000, 9800, 4)]
  {
    VenueLabels();
    var books := [Book("SOL a", [Level(10000, 4)], []), Book("SOL b", [], [Level(9800, 4)]),
                  Book("SOL c", [], [Level(9800, 4)])];
    var m1 := MatchResult("a", "b", 10000, 9800, 4);
    var m2 := MatchResult("a", "c", 10000, 9800, 4);
    assert Step(books[0].bids, books[1].asks) == Ladders([], []);
    assert Detect([], books[0].bids, books[1].asks, Pass(books, 0, 1)) == [m1];
    assert !HasDestination([m1], "c");
    assert Detect([m1], books[0].bids, books[2].asks, Pass(books, 0, 2)) == [m1, m2];
    assert Shared([], books[0].bids, books[1].asks, Pass(books, 0, 1)) == books[0].bids;
    assert Others([], books[0].bids, books, 0, 0) == [m1, m2];
    assert Others([m1, m2], [], books, 1, 0) == [m1, m2];
    assert Others([m1, m2], [], books, 2, 0) == [m1, m2];
    assert RunFrom([], books, 0) == RunFrom([m1, m2], books, 1) == RunFrom([m1, m2], books, 2)
           == RunFrom([m1, m2], books, 3);
  }

  /** A book whose best bid (95.00) is below its best ask (96.00) records
      nothing. */
  lemma NoCrossingNoMatch()
    ensures RunAll([Book("SOL a", [Level(9500, 1)], [Level(9600, 1)])]) == []
  {
    var books := [Book("SOL a", [Level(9500, 1)], [Level(9600, 1)])];
    assert Detect([], books[0].bids, books[0].asks, Pass(books, 0, 0)) == [];
    assert RunFrom([], books, 0) == RunFrom([], books, 1);
  }

  /** b's bid of 3 at 100.00 takes 3 of a's 4 units at 98.00. */
  lemma OverClaimFirstPass()
    ensures Detect([], [Level(10000, 3)], [Level(9800, 4)], Description("b", "a"))
            == [MatchResult("b", "a", 10000, 9800, 3)]
  {
    var m1 := MatchResult("b", "a", 10000, 9800, 3);
    assert Step([Level(10000, 3)], [Level(9800, 4)]) == Ladders([], [Level(9800, 1)]);
    assert [] + [m1] == [m1];
    assert Detect([m1], [], [Level(9800, 1)], Description("b", "a")) == [m1];
  }

  /** With 3 claimed at (a, 98.00) and a fresh copy showing 4, c's bid of 4
      takes all 4 again. */
  lemma OverClaimSecondPass()
    ensures var m1 := MatchResult("b", "a", 10000, 9800, 3);
            Detect([m1], [Level(10000, 4)], [Level(9800, 4)], Description("c", "a"))
            == [m1, MatchResult("c", "a", 10000, 9800, 4)]
  {
    var m1 := MatchResult("b", "a", 10000, 9800, 3);
    var m2 := MatchResult("c", "a", 10000, 9800, 4);
    assert [m1][0] == m1 && [m1][..0] == [];
    assert HasKey([m1], "a", 9800) && HasDestination([m1], "a");
    assert Claimed([m1], "a", 9800) == 3;
    assert CheckInResults([m1], 9800, 4, "a");
    assert Step([Level(10000, 4)], [Level(9800, 4)]) == Ladders([], []);
    assert [m1] + [m2] == [m1, m2];
    assert Detect([m1, m2], [], [], Description("c", "a")) == [m1, m2];
  }

  /** The check compares what was claimed at a key with the whole quantity the
      ask currently shows, and a new pass starts from a fresh copy of the ask
      ladder: b takes 3 of a's 4 units at 98.00, then c, seeing 3 < 4, takes
      all 4 again, so 7 units are claimed against 4 resting. */
  lemma ClaimsCanExceedRestingQuantity()
    ensures var books := [Book("SOL a", [], [Level(9800, 4)]), Book("SOL b", [Level(10000, 3)], []),
                          Book("SOL c", [Level(10000, 4)], [])];
            RunAll(books) == [MatchResult("b", "a", 10000, 9800, 3), MatchResult("c", "a", 10000, 9800, 4)] &&
            Claimed(RunAll(books), "a", 9800) == 7 > Total(books[0].asks)
  {
    VenueLabels();
    var books := [Book("SOL a", [], [Level(9800, 4)]), Book("SOL b", [Level(10000, 3)], []),
                  Book("SOL c", [Level(10000, 4)], [])];
    var m1 := MatchResult("b", "a", 10000, 9800, 3);
    var m2 := MatchResult("c", "a", 10000, 9800, 4);
    assert Others([], [], books, 0, 0) == [];
    assert RunFrom([], books, 0) == RunFrom([], books, 1);
    assert Pass(books, 1, 0) == Description("b", "a");
    OverClaimFirstPass();
    assert Others([], books[1].bids, books, 1, 0) == [m1];
    assert RunFrom([], books, 1) == RunFrom([m1], books, 2);
    assert Pass(books, 2, 0) == Description("c", "a");
    OverClaimSecondPass();
    assert Others([m1], books[2].bids, books, 2, 0) == [m1, m2];
    assert RunFrom([m1], books, 2) == RunFrom([m1, m2], books, 3);
    assert [m1, m2][..1] == [m1] && [m1][..0] == [];
  }

  /** The pass of PartlyFilledAskDropped: the bid at 101.00 takes 3 of the 5
      units at 99.00; the 2 left show less than the 3 claimed. */
  lemma PartlyFilledPass()
    ensures Detect([], [Level(10100, 3), Level(10000, 5)], [Level(9900, 5)], Description("a", "a"))
            == [MatchResult("a", "a", 10100, 9900, 3)]
  {
    var d := Description("a", "a");
    var m := MatchResult("a", "a", 10100, 9900, 3);
    assert [Level(10100, 3), Level(10000, 5)][1..] == [Level(10000, 5)];
    assert Step([Level(10100, 3), Level(10000, 5)], [Level(9900, 5)]) == Ladders([Level(10000, 5)], [Level(9900, 2)]);
    assert [] + [m] == [m];
    assert Detect([m], [Level(10000, 5)], [Level(9900, 2)], d) == [m] by {
      assert [m][..0] == [] && [m][0] == m;
      assert HasKey([m], "a", 9900) && Claimed([m], "a", 9900) == 3;
      assert Detect([m], [Level(10000, 5)], [], d) == [m];
    }
  }

  /** Within one pass, with the intended quantity update, the check compares
      the claimed quantity with what is left of a partly filled ask: after 3
      of 5 units at 99.00 go to the bid at 101.00, the remaining 2 show less
      than the 3 claimed and are dropped, though the bid at 100.00 still
      crosses them. */
  lemma PartlyFilledAskDropped()
    ensures RunAll([Book("SOL a", [Level(10100, 3), Level(10000, 5)], [Level(9900, 5)])])
            == [MatchResult("a", "a", 10100, 9900, 3)]
  {
    VenueLabels();
    var books := [Book("SOL a", [Level(10100, 3), Level(10000, 5)], [Level(9900, 5)])];
    var m := MatchResult("a", "a", 10100, 9900, 3);
    var d := Pass(books, 0, 0);
    assert d == Description("a", "a");
    PartlyFilledPass();
    assert Others([m], Shared([], books[0].bids, books[0].asks, d), books, 0, 0) == [m];
    assert RunFrom([], books, 0) == RunFrom([m], books, 1);
  }

  /** a's pass against b: 3 of a's 4 units at 100.00 go to b's 3 at 98.00,
      and the 1 left is written into a's bid array. */
  lemma CarryOverFirstPass()
    ensures Detect([], [Level(10000, 4)], [Level(9800, 3)], Description("a", "b"))
            == [MatchResult("a", "b", 10000, 9800, 3)]
    ensures Shared([], [Level(10000, 4)], [Level(9800, 3)], Description("a", "b")) == [Level(10000, 1)]
  {
    var m1 := MatchResult("a", "b", 10000, 9800, 3);
    assert Step([Level(10000, 4)], [Level(9800, 3)]) == Ladders([Level(10000, 1)], []);
    assert [] + [m1] == [m1];
  }

  /** a's pass against c, starting from the 1 unit the pass against b left:
      it takes 1 of c's 3 units. */
  lemma CarryOverSecondPass()
    ensures var m1 := MatchResult("a", "b", 10000, 9800, 3);
            Detect([m1], [Level(10000, 1)], [Level(9800, 3)], Description("a", "c"))
            == [m1, MatchResult("a", "c", 10000, 9800, 1)]
  {
    var m1 := MatchResult("a", "b", 10000, 9800, 3);
    var m2 := MatchResult("a", "c", 10000, 9800, 1);
    assert [m1][0] == m1;
    assert !HasDestination([m1], "c");
    assert Step([Level(10000, 1)], [Level(9800, 3)]) == Ladders([], [Level(9800, 2)]);
    assert [m1] + [m2] == [m1, m2];
  }

  /** Book a's bid array is shared by all of a's passes: the pass against b
      takes 3 of its 4 units and writes the remaining 1 into the array, so
      the pass against c, though c shows 3 units at the same price, can take
      only 1. */
  lemma PartialFillCarriesOver()
    ensures RunAll([Book("SOL a", [Level(10000, 4)], []), Book("SOL b", [], [Level(9800, 3)]),
                    Book("SOL c", [], [Level(9800, 3)])])
            == [MatchResult("a", "b", 10000, 9800, 3), MatchResult("a", "c", 10000, 9800, 1)]
  {
    VenueLabels();
    var books := [Book("SOL a", [Level(10000, 4)], []), Book("SOL b", [], [Level(9800, 3)]),
                  Book("SOL c", [], [Level(9800, 3)])];
    var m1 := MatchResult("a", "b", 10000, 9800, 3);
    var m2 := MatchResult("a", "c", 10000, 9800, 1);
    assert Pass(books, 0, 1) == Description("a", "b") && Pass(books, 0, 2) == Description("a", "c");
    CarryOverFirstPass();
    CarryOverSecondPass();
    assert Others([], books[0].bids, books, 0, 0) == [m1, m2];
    assert Others([m1, m2], [], books, 1, 0) == [m1, m2];
    assert Others([m1, m2], [], books, 2, 0) == [m1, m2];
    assert RunFrom([], books, 0) == RunFrom([m1, m2], books, 1) == RunFrom([m1, m2], books, 2)
           == RunFrom([m1, m2], books, 3);
  }
}
