/**
  One side of the order book as a sequence of price levels, and the pure
  operations that src/orderbook.rs performs on it: parsing a level, the
  stable sort, truncation to the book depth, and the three cases of
  `update_level` (delete, overwrite, insert).

  Bids are kept best (highest price) first and asks best (lowest price)
  first. Prices and quantities are `f64` in the source and are compared only
  with `==`, `!=`, `<` and `>`; here they are exact `real`s.
*/
module Levels {
  import opened Wrappers
  import opened Dto
  import Decimal

  /** Number of levels kept per side (hard-coded as 5 in the source). */
  const Depth: nat := 5

  datatype Level = Level(price: real, quantity: real)

  datatype Side = Bids | Asks

  /** `a` ranks strictly better than `b` on this side. */
  predicate Before(side: Side, a: Level, b: Level) {
    match side
    case Bids => a.price > b.price
    case Asks => a.price < b.price
  }

  /** Bids non-increasing, asks non-decreasing by price. */
  predicate Sorted(side: Side, s: seq<Level>) {
    forall i, j :: 0 <= i < j < |s| ==> !Before(side, s[j], s[i])
  }

  predicate UniquePrices(s: seq<Level>) {
    forall i, j :: 0 <= i < j < |s| ==> s[i].price != s[j].price
  }

  /** The shape every side has after each book operation. */
  predicate Shaped(side: Side, s: seq<Level>) {
    Sorted(side, s) && |s| <= Depth
  }

  function Min(a: nat, b: nat): nat {
    if a <= b then a else b
  }

  // ---------------------------------------------------------------- parsing

  /** A decimal string's value, with 0 for anything that does not parse. */
  function ParseNumber(s: string): (v: real)
    ensures Decimal.ParseDecimal(s) == None ==> v == 0.0
    ensures Decimal.ParseDecimal(s).Some? ==> v == Decimal.ParseDecimal(s).value
  {
    match Decimal.ParseDecimal(s)
    case Some(v) => v
    case None => 0.0
  }

  function ParseBidAsk(b: BidAsk): Level {
    Level(ParseNumber(b.price), ParseNumber(b.quantity))
  }

  /** The wire levels parsed one by one, in their order. */
  function ParseLevels(raw: seq<BidAsk>): (r: seq<Level>)
    ensures |r| == |raw|
    ensures forall i :: 0 <= i < |raw| ==> r[i] == ParseBidAsk(raw[i])
  {
    if raw == [] then [] else [ParseBidAsk(raw[0])] + ParseLevels(raw[1..])
  }

  /** Parsing one more wire level appends its parse. */
  lemma ParseLevelsPush(raw: seq<BidAsk>, i: nat)
    requires i < |raw|
    ensures ParseLevels(raw[..i + 1]) == ParseLevels(raw[..i]) + [ParseBidAsk(raw[i])]
  {
    var p, q := raw[..i + 1], raw[..i];
    var a, b := ParseLevels(p), ParseLevels(q) + [ParseBidAsk(raw[i])];
    assert |a| == |b|;
    forall j | 0 <= j < |a| ensures a[j] == b[j] {
      assert a[j] == ParseBidAsk(p[j]);
      if j < i {
        assert b[j] == ParseBidAsk(q[j]);
      }
    }
  }

  // ------------------------------------------------- retain / find / write

  /** `Vec::retain(|level| level.price != price)`. */
  function Retain(s: seq<Level>, price: real): (r: seq<Level>)
    ensures |r| <= |s|
    ensures forall l :: l in r <==> l in s && l.price != price
    ensures (forall i :: 0 <= i < |s| ==> s[i].price != price) ==> r == s
  {
    if s == [] then []
    else if s[0].price != price then [s[0]] + Retain(s[1..], price)
    else Retain(s[1..], price)
  }

  /** `iter_mut().find(|level| level.price == price)`: the index of the first level at that price. */
  function FindPrice(s: seq<Level>, price: real): (r: Option<nat>)
    ensures r.Some? ==> r.value < |s| && s[r.value].price == price
    ensures r.Some? ==> forall i :: 0 <= i < r.value ==> s[i].price != price
    ensures r.None? ==> forall i :: 0 <= i < |s| ==> s[i].price != price
  {
    if s == [] then None
    else if s[0].price == price then Some(0)
    else match FindPrice(s[1..], price)
      case None => None
      case Some(k) => Some(k + 1)
  }

  /** The in-place quantity write of the level found at index `k`. */
  function SetQuantity(s: seq<Level>, k: nat, quantity: real): (r: seq<Level>)
    requires k < |s|
    ensures |r| == |s|
    ensures forall i :: 0 <= i < |s| ==> r[i].price == s[i].price
    ensures forall i :: 0 <= i < |s| ==> r[i].quantity == if i == k then quantity else s[i].quantity
  {
    s[k := Level(s[k].price, quantity)]
  }

  // ------------------------------------------------------ sort / truncate

  /**
    Stable insertion of `x` into `s`: `x` goes in front of the first level it
    ranks strictly better than, so it stays behind levels of equal price.
  */
  function Insert(side: Side, x: Level, s: seq<Level>): (r: seq<Level>)
    ensures |r| == |s| + 1
    ensures multiset(r) == multiset(s) + multiset{x}
    ensures forall l :: l in r <==> l == x || l in s
  {
    if s == [] then [x]
    else if Before(side, x, s[0]) then [x] + s
    else
      assert s == [s[0]] + s[1..];
      [s[0]] + Insert(side, x, s[1..])
  }

  lemma {:induction false} InsertSorted(side: Side, x: Level, s: seq<Level>)
    requires Sorted(side, s)
    ensures Sorted(side, Insert(side, x, s))
  {
    if s != [] && !Before(side, x, s[0]) {
      var t := Insert(side, x, s[1..]);
      InsertSorted(side, x, s[1..]);
      assert forall l :: l in t ==> !Before(side, l, s[0]) by {
        forall l | l in t ensures !Before(side, l, s[0]) {
          if l != x {
            var j :| 0 <= j < |s[1..]| && s[1..][j] == l;
            assert s[j + 1] == l;
          }
        }
      }
      var r := [s[0]] + t;
      forall i, j | 0 <= i < j < |r| ensures !Before(side, r[j], r[i]) {
        if i > 0 {
          assert r[i] == t[i - 1] && r[j] == t[j - 1];
        } else {
          assert r[j] in t;
        }
      }
    }
  }

  /**
    `sort_by` with the side's comparator. Rust's `sort_by` is stable, and so
    is this insertion sort: levels of equal price keep their input order.
  */
  function SortSide(side: Side, s: seq<Level>): (r: seq<Level>)
    ensures |r| == |s|
    ensures multiset(r) == multiset(s)
    ensures Sorted(side, r)
  {
    if s == [] then []
    else
      assert s == s[..|s| - 1] + [s[|s| - 1]];
      InsertSorted(side, s[|s| - 1], SortSide(side, s[..|s| - 1]));
      Insert(side, s[|s| - 1], SortSide(side, s[..|s| - 1]))
  }

  /** `Vec::truncate(Depth)`: the first `min(Depth, |s|)` levels. */
  function Truncate(s: seq<Level>): (r: seq<Level>)
    ensures r <= s
    ensures |r| == Min(Depth, |s|)
  {
    s[..Min(Depth, |s|)]
  }

  /** A snapshot side: parse, sort, keep the best `Depth` levels. */
  function SideFromRaw(side: Side, raw: seq<BidAsk>): (r: seq<Level>)
    ensures Shaped(side, r)
    ensures |r| == Min(Depth, |raw|)
    ensures r <= SortSide(side, ParseLevels(raw))
    ensures multiset(r) <= multiset(ParseLevels(raw))
  {
    var sorted := SortSide(side, ParseLevels(raw));
    var r := Truncate(sorted);
    assert sorted == r + sorted[|r|..];
    assert multiset(sorted) == multiset(r) + multiset(sorted[|r|..]);
    r
  }

  // ------------------------------------------------------------ one level

  /**
    `update_level` on one side with an already parsed level: quantity 0
    deletes every level at that price; a known price gets the new quantity;
    an unknown price is pushed, the side re-sorted and cut to `Depth`.
  */
  function ApplyLevel(side: Side, s: seq<Level>, price: real, quantity: real): seq<Level> {
    if quantity == 0.0 then Retain(s, price)
    else match FindPrice(s, price)
      case Some(k) => SetQuantity(s, k, quantity)
      case None => Truncate(SortSide(side, s + [Level(price, quantity)]))
  }

  function ApplyBidAsk(side: Side, s: seq<Level>, b: BidAsk): seq<Level> {
    var l := ParseBidAsk(b);
    ApplyLevel(side, s, l.price, l.quantity)
  }

  /** The wire levels of one side of an update, merged left to right. */
  function MergeSide(side: Side, s: seq<Level>, raw: seq<BidAsk>): seq<Level> {
    if raw == [] then s
    else ApplyBidAsk(side, MergeSide(side, s, raw[..|raw| - 1]), raw[|raw| - 1])
  }

  /** Merging one more wire level applies it to what the earlier ones left. */
  lemma MergeSidePush(side: Side, s: seq<Level>, raw: seq<BidAsk>, i: nat)
    requires i < |raw|
    ensures MergeSide(side, s, raw[..i + 1]) == ApplyBidAsk(side, MergeSide(side, s, raw[..i]), raw[i])
  {
    assert raw[..i + 1][..i] == raw[..i];
  }
}
