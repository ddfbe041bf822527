/**
  What `update_level` and `apply_snapshot` in src/orderbook.rs guarantee
  about one side: each branch keeps the side sorted and within `Depth`, a
  deletion removes exactly the levels at its price, an overwrite leaves
  prices and order alone, and an insertion places the new level by rank and
  keeps it only if it is among the best `Depth`.
*/
module SideProperties {
  import opened Wrappers
  import opened Dto
  import opened Levels
  import Decimal

  // ------------------------------------------------------------- deletion

  lemma {:induction false} RetainKeepsSorted(side: Side, s: seq<Level>, price: real)
    requires Sorted(side, s)
    ensures Sorted(side, Retain(s, price))
  {
    if s != [] {
      RetainKeepsSorted(side, s[1..], price);
      var t := Retain(s[1..], price);
      if s[0].price != price {
        var r := [s[0]] + t;
        forall i, j | 0 <= i < j < |r| ensures !Before(side, r[j], r[i]) {
          if i > 0 {
            assert r[i] == t[i - 1] && r[j] == t[j - 1];
          } else {
            assert r[j] in s[1..];
            var k :| 0 <= k < |s[1..]| && s[1..][k] == r[j];
            assert s[k + 1] == r[j];
          }
        }
      }
    }
  }

  lemma {:induction false} RetainKeepsUnique(s: seq<Level>, price: real)
    requires UniquePrices(s)
    ensures UniquePrices(Retain(s, price))
  {
    if s != [] {
      RetainKeepsUnique(s[1..], price);
      var t := Retain(s[1..], price);
      if s[0].price != price {
        var r := [s[0]] + t;
        forall i, j | 0 <= i < j < |r| ensures r[i].price != r[j].price {
          if i > 0 {
            assert r[i] == t[i - 1] && r[j] == t[j - 1];
          } else {
            assert r[j] in s[1..];
            var k :| 0 <= k < |s[1..]| && s[1..][k] == r[j];
            assert s[k + 1] == r[j];
          }
        }
      }
    }
  }

  /**
    With unique prices, deleting a price that is present removes exactly that
    one level and keeps every other level in its place and order.
  */
  lemma {:induction false} RetainRemovesExactlyOne(s: seq<Level>, k: nat, price: real)
    requires UniquePrices(s)
    requires k < |s| && s[k].price == price
    ensures Retain(s, price) == s[..k] + s[k + 1..]
  {
    if k == 0 {
      assert Retain(s, price) == Retain(s[1..], price);
      assert forall i :: 0 <= i < |s[1..]| ==> s[1..][i].price != price by {
        forall i | 0 <= i < |s[1..]| ensures s[1..][i].price != price {
          assert s[1..][i] == s[i + 1];
        }
      }
    } else {
      assert s[1..][..k - 1] + s[1..][k..] == s[1..k] + s[k + 1..];
      assert [s[0]] + s[1..k] == s[..k];
      UniqueTail(s);
      RetainRemovesExactlyOne(s[1..], k - 1, price);
    }
  }

  // ------------------------------------------------------------ overwrite

  lemma SetQuantityKeepsOrder(side: Side, s: seq<Level>, k: nat, quantity: real)
    requires k < |s|
    ensures Sorted(side, s) ==> Sorted(side, SetQuantity(s, k, quantity))
    ensures UniquePrices(s) ==> UniquePrices(SetQuantity(s, k, quantity))
  {
    var r := SetQuantity(s, k, quantity);
    assert forall i, j :: 0 <= i < |s| && 0 <= j < |s| ==>
      (Before(side, r[i], r[j]) <==> Before(side, s[i], s[j]));
  }

  // -------------------------------------------------------- sort, insertion

  lemma {:induction false} InsertAtEnd(side: Side, x: Level, s: seq<Level>)
    requires forall i :: 0 <= i < |s| ==> !Before(side, x, s[i])
    ensures Insert(side, x, s) == s + [x]
  {
    if s != [] {
      InsertAtEnd(side, x, s[1..]);
      assert [s[0]] + (s[1..] + [x]) == s + [x];
    }
  }

  /** Without its last level a sorted side is still sorted, and that level ranks no better than the rest. */
  lemma SortedDropLast(side: Side, init: seq<Level>, x: Level)
    requires Sorted(side, init + [x])
    ensures Sorted(side, init)
    ensures forall i :: 0 <= i < |init| ==> !Before(side, x, init[i])
  {
    var s := init + [x];
    forall i, j | 0 <= i < j < |init| ensures !Before(side, init[j], init[i]) {
      assert init[i] == s[i] && init[j] == s[j];
    }
    forall i | 0 <= i < |init| ensures !Before(side, x, init[i]) {
      assert init[i] == s[i] && x == s[|init|];
    }
  }

  /** Sorting an already sorted side changes nothing (the sort is stable). */
  lemma {:induction false} SortOfSorted(side: Side, s: seq<Level>)
    requires Sorted(side, s)
    ensures SortSide(side, s) == s
  {
    if s != [] {
      var init, x := s[..|s| - 1], s[|s| - 1];
      assert init + [x] == s;
      SortedDropLast(side, init, x);
      SortOfSorted(side, init);
      SortPushWorst(side, init, x);
    }
  }

  /** Sorting a side with a level pushed that ranks no better than any other keeps it last. */
  lemma SortPushWorst(side: Side, s: seq<Level>, x: Level)
    requires SortSide(side, s) == s
    requires forall i :: 0 <= i < |s| ==> !Before(side, x, s[i])
    ensures SortSide(side, s + [x]) == s + [x]
  {
    var u := s + [x];
    assert u[..|u| - 1] == s;
    InsertAtEnd(side, x, s);
  }

  lemma {:induction false} InsertKeepsUnique(side: Side, x: Level, s: seq<Level>)
    requires UniquePrices(s)
    requires forall i :: 0 <= i < |s| ==> s[i].price != x.price
    ensures UniquePrices(Insert(side, x, s))
  {
    if s != [] && !Before(side, x, s[0]) {
      var t := Insert(side, x, s[1..]);
      InsertKeepsUnique(side, x, s[1..]);
      var r := [s[0]] + t;
      forall i, j | 0 <= i < j < |r| ensures r[i].price != r[j].price {
        if i > 0 {
          assert r[i] == t[i - 1] && r[j] == t[j - 1];
        } else if r[j] != x {
          assert r[j] in s[1..];
          var k :| 0 <= k < |s[1..]| && s[1..][k] == r[j];
          assert s[k + 1] == r[j];
        }
      }
    }
  }

  lemma {:induction false} SortKeepsUnique(side: Side, s: seq<Level>)
    requires UniquePrices(s)
    ensures UniquePrices(SortSide(side, s))
  {
    if s != [] {
      var init, x := s[..|s| - 1], s[|s| - 1];
      SortKeepsUnique(side, init);
      var t := SortSide(side, init);
      forall i | 0 <= i < |t| ensures t[i].price != x.price {
        assert t[i] in multiset(t);
        assert t[i] in multiset(init);
      }
      InsertKeepsUnique(side, x, t);
    }
  }

  lemma SortedTail(side: Side, s: seq<Level>)
    requires s != [] && Sorted(side, s)
    ensures Sorted(side, s[1..])
  {
    forall p, q | 0 <= p < q < |s[1..]| ensures !Before(side, s[1..][q], s[1..][p]) {
      assert s[1..][p] == s[p + 1] && s[1..][q] == s[q + 1];
    }
  }

  lemma UniqueTail(s: seq<Level>)
    requires s != [] && UniquePrices(s)
    ensures UniquePrices(s[1..])
  {
    forall p, q | 0 <= p < q < |s[1..]| ensures s[1..][p].price != s[1..][q].price {
      assert s[1..][p] == s[p + 1] && s[1..][q] == s[q + 1];
    }
  }

  /** Two sorted permutations, the first with unique prices, start with the same level. */
  lemma SameHead(side: Side, a: seq<Level>, b: seq<Level>)
    requires a != [] && b != []
    requires Sorted(side, a) && Sorted(side, b)
    requires UniquePrices(a)
    requires multiset(a) == multiset(b)
    ensures a[0] == b[0]
  {
    assert a[0] in multiset(b) && b[0] in multiset(a);
    var i :| 0 <= i < |a| && a[i] == b[0];
    var j :| 0 <= j < |b| && b[j] == a[0];
    assert !Before(side, a[i], a[0]) by { if i > 0 { } }
    assert !Before(side, b[j], b[0]) by { if j > 0 { } }
    assert a[i].price == a[0].price;
  }

  /**
    The sort is pinned down by its contract when prices are unique: every
    sorted permutation of a side with unique prices is that same sequence.
  */
  lemma {:induction false} SortedPermutationIsUnique(side: Side, a: seq<Level>, b: seq<Level>)
    requires Sorted(side, a) && Sorted(side, b)
    requires UniquePrices(a)
    requires multiset(a) == multiset(b)
    ensures a == b
  {
    assert |a| == |multiset(a)| == |b|;
    if a != [] {
      SameHead(side, a, b);
      assert a == [a[0]] + a[1..] && b == [b[0]] + b[1..];
      assert multiset(a[1..]) == multiset(a) - multiset{a[0]};
      assert multiset(b[1..]) == multiset(b) - multiset{b[0]};
      SortedTail(side, a);
      SortedTail(side, b);
      UniqueTail(a);
      SortedPermutationIsUnique(side, a[1..], b[1..]);
    }
  }

  /** How many levels of `s` rank strictly better than `x` on this side. */
  function CountBetter(side: Side, x: Level, s: seq<Level>): (n: nat)
    ensures n <= |s|
  {
    if s == [] then 0
    else (if Before(side, s[0], x) then 1 else 0) + CountBetter(side, x, s[1..])
  }

  lemma {:induction false} CountBetterNone(side: Side, x: Level, s: seq<Level>)
    requires forall i :: 0 <= i < |s| ==> !Before(side, s[i], x)
    ensures CountBetter(side, x, s) == 0
  {
    if s != [] {
      CountBetterNone(side, x, s[1..]);
    }
  }

  /**
    Inserting a level whose price is absent from a sorted side puts it right
    behind the levels that rank better than it.
  */
  lemma {:induction false} InsertAtRank(side: Side, x: Level, s: seq<Level>)
    requires Sorted(side, s)
    requires forall i :: 0 <= i < |s| ==> s[i].price != x.price
    ensures var c := CountBetter(side, x, s);
      Insert(side, x, s) == s[..c] + [x] + s[c..]
  {
    if s != [] {
      if Before(side, x, s[0]) {
        forall i | 0 <= i < |s| ensures !Before(side, s[i], x) {
          if i > 0 { assert !Before(side, s[i], s[0]); }
        }
        CountBetterNone(side, x, s);
      } else {
        var c := CountBetter(side, x, s[1..]);
        assert s[1..][..c] == s[1..c + 1];
        assert s[1..][c..] == s[c + 1..];
        assert [s[0]] + s[1..c + 1] == s[..c + 1];
        assert Before(side, s[0], x);
        assert CountBetter(side, x, s) == c + 1;
        assert Insert(side, x, s) == [s[0]] + Insert(side, x, s[1..]);
        SortedTail(side, s);
        InsertAtRank(side, x, s[1..]);
      }
    }
  }

  /** The new level survives truncation exactly when fewer than `Depth` levels beat it. */
  lemma SurvivesIffRanked(s: seq<Level>, x: Level, c: nat)
    requires c <= |s|
    requires forall i :: 0 <= i < |s| ==> s[i] != x
    ensures x in Truncate(s[..c] + [x] + s[c..]) <==> c < Depth
  {
    var ins := s[..c] + [x] + s[c..];
    var r := Truncate(ins);
    assert ins[c] == x;
    if c < Depth {
      assert r[c] == x;
    } else {
      forall i | 0 <= i < |r| ensures r[i] != x {
        assert r[i] == ins[i] == s[i];
      }
    }
  }

  /**
    The insertion branch of `update_level`: pushing a level at a new price,
    re-sorting and truncating yields a shaped side where the new level sits at
    its rank, survives exactly when fewer than `Depth` levels beat it, and
    prices stay unique if they were.
  */
  lemma {:induction false} InsertNewLevel(side: Side, s: seq<Level>, x: Level)
    requires Sorted(side, s)
    requires forall i :: 0 <= i < |s| ==> s[i].price != x.price
    ensures var r := Truncate(SortSide(side, s + [x]));
      var c := CountBetter(side, x, s);
      && Shaped(side, r)
      && r == Truncate(s[..c] + [x] + s[c..])
      && (x in r <==> c < Depth)
      && (UniquePrices(s) ==> UniquePrices(r))
  {
    var c := CountBetter(side, x, s);
    var ins := s[..c] + [x] + s[c..];
    SortPushedNewLevel(side, s, x);
    TruncateKeepsOrder(side, ins);
    SurvivesIffRanked(s, x, c);
    if UniquePrices(s) {
      InsertKeepsUnique(side, x, s);
      InsertAtRank(side, x, s);
    }
  }

  /** Re-sorting a sorted side after pushing a level at a new price inserts it at its rank. */
  lemma SortPushedNewLevel(side: Side, s: seq<Level>, x: Level)
    requires Sorted(side, s)
    requires forall i :: 0 <= i < |s| ==> s[i].price != x.price
    ensures var c := CountBetter(side, x, s);
      SortSide(side, s + [x]) == s[..c] + [x] + s[c..]
  {
    var u := s + [x];
    assert u[..|u| - 1] == s;
    SortOfSorted(side, s);
    InsertAtRank(side, x, s);
  }

  lemma TruncateKeepsOrder(side: Side, s: seq<Level>)
    ensures Sorted(side, s) ==> Sorted(side, Truncate(s))
    ensures UniquePrices(s) ==> UniquePrices(Truncate(s))
  {
  }

  // ------------------------------------------------------------ one level

  /** Every branch of `update_level` keeps a side sorted and within `Depth`. */
  lemma ApplyLevelKeepsShape(side: Side, s: seq<Level>, price: real, quantity: real)
    requires Shaped(side, s)
    ensures Shaped(side, ApplyLevel(side, s, price, quantity))
    ensures UniquePrices(s) ==> UniquePrices(ApplyLevel(side, s, price, quantity))
  {
    if quantity == 0.0 {
      RetainKeepsSorted(side, s, price);
      if UniquePrices(s) {
        RetainKeepsUnique(s, price);
      }
    } else {
      match FindPrice(s, price)
      case Some(k) =>
        SetQuantityKeepsOrder(side, s, k, quantity);
      case None =>
        InsertNewLevel(side, s, Level(price, quantity));
    }
  }

  /**
    What `update_level` does to a side whose prices are unique: quantity 0
    removes the level at that price (if any) and nothing else; a nonzero
    quantity at a known price changes that level's quantity and nothing
    else; a nonzero quantity at a new price inserts the level at its rank
    and cuts the side to `Depth`.
  */
  lemma ApplyLevelCases(side: Side, s: seq<Level>, price: real, quantity: real)
    requires Shaped(side, s) && UniquePrices(s)
    ensures var r := ApplyLevel(side, s, price, quantity);
      && (quantity == 0.0 ==> forall l :: l in r <==> l in s && l.price != price)
      && (quantity == 0.0 ==> forall k :: 0 <= k < |s| && s[k].price == price ==> r == s[..k] + s[k + 1..])
      && (quantity != 0.0 ==> forall k :: 0 <= k < |s| && s[k].price == price ==>
            |r| == |s| && forall i :: 0 <= i < |s| ==>
              r[i] == if i == k then Level(price, quantity) else s[i])
      && (quantity != 0.0 && (forall i :: 0 <= i < |s| ==> s[i].price != price) ==>
            var c := CountBetter(side, Level(price, quantity), s);
            r == Truncate(s[..c] + [Level(price, quantity)] + s[c..]))
  {
    var r := ApplyLevel(side, s, price, quantity);
    if quantity == 0.0 {
      forall k | 0 <= k < |s| && s[k].price == price ensures r == s[..k] + s[k + 1..] {
        RetainRemovesExactlyOne(s, k, price);
      }
    } else {
      match FindPrice(s, price)
      case Some(j) =>
        forall k | 0 <= k < |s| && s[k].price == price ensures k == j {
        }
      case None =>
        InsertNewLevel(side, s, Level(price, quantity));
    }
  }

  /** The levels of one side of an update, merged in order, keep the side's shape. */
  lemma {:induction false} MergeSideKeepsShape(side: Side, s: seq<Level>, raw: seq<BidAsk>)
    ensures Shaped(side, s) ==> Shaped(side, MergeSide(side, s, raw))
    ensures Shaped(side, s) && UniquePrices(s) ==> UniquePrices(MergeSide(side, s, raw))
  {
    if raw != [] && Shaped(side, s) {
      var prev := MergeSide(side, s, raw[..|raw| - 1]);
      MergeSideKeepsShape(side, s, raw[..|raw| - 1]);
      var l := ParseBidAsk(raw[|raw| - 1]);
      ApplyLevelKeepsShape(side, prev, l.price, l.quantity);
    }
  }

  /**
    A quantity string that does not parse is read as 0, so the level behaves
    exactly like a deletion of its price.
  */
  lemma UnparseableQuantityDeletes(side: Side, s: seq<Level>, b: BidAsk)
    requires Decimal.ParseDecimal(b.quantity) == None
    ensures ApplyBidAsk(side, s, b) == Retain(s, ParseNumber(b.price))
    ensures forall l :: l in ApplyBidAsk(side, s, b) ==> l.price != ParseNumber(b.price)
  {
  }
}
