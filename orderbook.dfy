/** Order-book ladders: price levels, the two sides of a book, and the
    normalisation that turns raw (price, quantity) pairs into a sorted ladder
    with one level per distinct price.

    Prices are integers counted in hundredths (the source rounds its float
    prices to two decimals before grouping), so no floating point is involved. */
module OrderBook {

  /** One (price, quantity) row of a ladder. */
  datatype Level = Level(price: int, qty: int)

  /** Which side a ladder belongs to: bids are best-first by highest price,
      asks best-first by lowest price. */
  datatype Side = Bid | Ask

  /** A book: its display name and its two normalised ladders. */
  datatype Book = Book(name: string, bids: seq<Level>, asks: seq<Level>)

  /** Price p ranks strictly before price q on the given side. */
  predicate Better(side: Side, p: int, q: int)
  {
    if side == Bid then p > q else p < q
  }

  /** Strictly ordered best-first: bids strictly descending, asks strictly
      ascending, hence also no price appears twice. */
  predicate Sorted(side: Side, l: seq<Level>)
  {
    forall i, j :: 0 <= i < j < |l| ==> Better(side, l[i].price, l[j].price)
  }

  /** Price p ranks strictly before every price of l. */
  predicate Leads(side: Side, p: int, l: seq<Level>)
  {
    forall i :: 0 <= i < |l| ==> Better(side, p, l[i].price)
  }

  /** Every level holds a positive quantity. */
  predicate Positive(l: seq<Level>)
  {
    forall i :: 0 <= i < |l| ==> l[i].qty > 0
  }

  /** A ladder as the matching engine expects it. */
  predicate ValidLadder(side: Side, l: seq<Level>)
  {
    Sorted(side, l) && Positive(l)
  }

  predicate ValidBook(b: Book)
  {
    ValidLadder(Bid, b.bids) && ValidLadder(Ask, b.asks)
  }

  /** The set of prices that occur in l. */
  function Prices(l: seq<Level>): set<int>
  {
    if |l| == 0 then {} else {l[0].price} + Prices(l[1..])
  }

  /** The summed quantity of the levels of l at price p. */
  function QtyAt(l: seq<Level>, p: int): int
  {
    if |l| == 0 then 0
    else (if l[0].price == p then l[0].qty else 0) + QtyAt(l[1..], p)
  }

  /** The summed quantity of all levels of l. */
  function Total(l: seq<Level>): int
  {
    if |l| == 0 then 0 else l[0].qty + Total(l[1..])
  }

  /** Adds one raw level to a sorted ladder: merged into the level of the same
      price if there is one, inserted at its rank otherwise. */
  function Insert(side: Side, l: seq<Level>, x: Level): (r: seq<Level>)
    requires Sorted(side, l)
    ensures Sorted(side, r)
    ensures Prices(r) == Prices(l) + {x.price}
    ensures forall p :: QtyAt(r, p) == QtyAt(l, p) + (if p == x.price then x.qty else 0)
    ensures Total(r) == Total(l) + x.qty
    ensures Positive(l) && x.qty > 0 ==> Positive(r)
    ensures forall p :: Leads(side, p, l) && Better(side, p, x.price) ==> Leads(side, p, r)
    decreases |l|
  {
    if |l| == 0 then [x]
    else if l[0].price == x.price then
      var r := [Level(x.price, l[0].qty + x.qty)] + l[1..];
      assert r[1..] == l[1..];
      r
    else if Better(side, x.price, l[0].price) then
      var r := [x] + l;
      assert r[1..] == l;
      r
    else
      var rest := Insert(side, l[1..], x);
      var r := [l[0]] + rest;
      assert r[1..] == rest;
      assert Leads(side, l[0].price, l[1..]);
      r
  }

  /** The normalisation of Book.py lines 32-33: group the raw levels by price,
      summing quantities, and sort best-first for the side. */
  function Normalise(side: Side, raw: seq<Level>): (r: seq<Level>)
    ensures Sorted(side, r)
    ensures Prices(r) == Prices(raw)
    ensures forall p :: QtyAt(r, p) == QtyAt(raw, p)
    ensures Total(r) == Total(raw)
    ensures Positive(raw) ==> Positive(r)
    decreases |raw|
  {
    if |raw| == 0 then [] else Insert(side, Normalise(side, raw[1..]), raw[0])
  }

  /** The two ladders a generated book receives from its raw levels. */
  function FromRaw(name: string, rawBids: seq<Level>, rawAsks: seq<Level>): (b: Book)
    ensures b.name == name
    ensures Sorted(Bid, b.bids) && Sorted(Ask, b.asks)
    ensures Prices(b.bids) == Prices(rawBids) && Prices(b.asks) == Prices(rawAsks)
    ensures Total(b.bids) == Total(rawBids) && Total(b.asks) == Total(rawAsks)
    ensures Positive(rawBids) && Positive(rawAsks) ==> ValidBook(b)
  {
    Book(name, Normalise(Bid, rawBids), Normalise(Ask, rawAsks))
  }

  /** The venue label of a book: the text after the last space of its name,
      as `name.split(" ")[-1]` gives it (the whole name when there is no
      space, empty when the name ends in a space). */
  function Label(name: string): (r: string)
    ensures |r| <= |name|
    ensures ' ' !in name ==> r == name
    decreases |name|
  {
    if |name| == 0 then ""
    else if name[|name| - 1] == ' ' then ""
    else Label(name[..|name| - 1]) + [name[|name| - 1]]
  }

  /** A suffix of name shorter than name is the same suffix of name without
      its last character, followed by that character. */
  lemma SuffixSnoc(name: string, n: nat)
    requires n < |name|
    ensures name[|name| - n - 1..] == name[..|name| - 1][|name| - 1 - n..] + [name[|name| - 1]]
  {
    var init := name[..|name| - 1];
    var lhs, rhs := name[|name| - n - 1..], init[|init| - n..] + [name[|name| - 1]];
    forall k | 0 <= k < |lhs| ensures lhs[k] == rhs[k] {
      if k < n { assert init[|init| - n..][k] == init[|init| - n + k]; }
    }
  }

  /** Label(name) is the longest space-free suffix of name: a suffix, without
      a space, and either the whole name or preceded by a space. */
  lemma {:induction false} LabelIsLastToken(name: string)
    ensures |Label(name)| <= |name| && Label(name) == name[|name| - |Label(name)|..]
    ensures ' ' !in Label(name)
    ensures |Label(name)| < |name| ==> name[|name| - |Label(name)| - 1] == ' '
    decreases |name|
  {
    if |name| > 0 && name[|name| - 1] != ' ' {
      var init := name[..|name| - 1];
      var last := name[|name| - 1];
      LabelIsLastToken(init);
      var t := Label(init);
      assert Label(name) == t + [last];
      SuffixSnoc(name, |t|);
      assert ' ' !in t + [last];
      if |t| + 1 < |name| {
        assert name[|name| - |t| - 2] == init[|init| - |t| - 1];
      }
    }
  }

  // ---------------------------------------------------------------
  // Lemmas about normalised ladders
  // ---------------------------------------------------------------

  /** Dropping the top level keeps a ladder sorted. */
  lemma SortedTail(side: Side, l: seq<Level>)
    requires Sorted(side, l) && |l| > 0
    ensures Sorted(side, l[1..])
  {
    forall a, b | 0 <= a < b < |l[1..]| ensures Better(side, l[1..][a].price, l[1..][b].price) {
      assert l[1..][a] == l[a + 1] && l[1..][b] == l[b + 1];
    }
  }

  /** Dropping the top level keeps a ladder positive. */
  lemma PositiveTail(l: seq<Level>)
    requires Positive(l) && |l| > 0
    ensures Positive(l[1..])
  {
    forall k | 0 <= k < |l[1..]| ensures l[1..][k].qty > 0 {
      assert l[1..][k] == l[k + 1];
    }
  }

  /** No level of l has a price that ranks after p when p leads l. */
  lemma {:induction false} LeadsAbsent(side: Side, p: int, l: seq<Level>)
    requires Leads(side, p, l)
    ensures p !in Prices(l) && QtyAt(l, p) == 0
    decreases |l|
  {
    if |l| > 0 {
      assert Leads(side, p, l[1..]) by {
        forall i | 0 <= i < |l[1..]| ensures Better(side, p, l[1..][i].price) {
          assert l[1..][i] == l[i + 1];
        }
      }
      LeadsAbsent(side, p, l[1..]);
    }
  }

  /** In a sorted ladder the quantity of each level is everything the ladder
      holds at that price. */
  lemma {:induction false} LevelQty(side: Side, l: seq<Level>, i: nat)
    requires Sorted(side, l) && i < |l|
    ensures QtyAt(l, l[i].price) == l[i].qty
    decreases |l|
  {
    assert Sorted(side, l[1..]) by {
      forall a, b | 0 <= a < b < |l[1..]|
        ensures Better(side, l[1..][a].price, l[1..][b].price)
      {
        assert l[1..][a] == l[a + 1] && l[1..][b] == l[b + 1];
      }
    }
    if i == 0 {
      assert Leads(side, l[0].price, l[1..]) by {
        forall k | 0 <= k < |l[1..]| ensures Better(side, l[0].price, l[1..][k].price) {
          assert l[1..][k] == l[k + 1];
        }
      }
      LeadsAbsent(side, l[0].price, l[1..]);
    } else {
      assert l[1..][i - 1] == l[i];
      LevelQty(side, l[1..], i - 1);
    }
  }

  /** Normalisation yields exactly one level per distinct raw price, ordered
      best-first, and each level carries the sum of the raw quantities at its
      price; total quantity is preserved. */
  lemma NormaliseLevels(side: Side, raw: seq<Level>)
    ensures Sorted(side, Normalise(side, raw))
    ensures Prices(Normalise(side, raw)) == Prices(raw)
    ensures Total(Normalise(side, raw)) == Total(raw)
    ensures forall i :: 0 <= i < |Normalise(side, raw)| ==>
              Normalise(side, raw)[i].qty == QtyAt(raw, Normalise(side, raw)[i].price)
  {
    var r := Normalise(side, raw);
    forall i | 0 <= i < |r| ensures r[i].qty == QtyAt(raw, r[i].price) {
      LevelQty(side, r, i);
    }
  }
}
