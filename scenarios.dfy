/**
  Worked examples: a one-level snapshot, a deletion that empties the bids,
  and an insertion that evicts the worst level. The wire levels are given by
  what they parse to.
*/
module Scenarios {
  import opened Wrappers
  import opened Dto
  import opened Levels
  import opened OrderbookModel
  import opened WsClient
  import SideProperties
  import Decimal

  lemma SingleLevelSide(side: Side, b: BidAsk)
    ensures SideFromRaw(side, [b]) == [ParseBidAsk(b)]
  {
    assert ParseLevels([b]) == [ParseBidAsk(b)];
  }

  /** A snapshot at 100 with one bid at 10 and one ask at 11 becomes the book as is. */
  lemma SnapshotScenario(snapshot: Snapshot, bid: BidAsk, ask: BidAsk)
    requires snapshot == Snapshot(100, SnapshotData([ask], [bid]))
    ensures ParseBidAsk(bid) == Level(10.0, 1.0) && ParseBidAsk(ask) == Level(11.0, 1.0) ==>
      FromSnapshot(snapshot) == BookState([Level(10.0, 1.0)], [Level(11.0, 1.0)], 100)
  {
    SingleLevelSide(Bids, bid);
    SingleLevelSide(Asks, ask);
  }

  /** A delta 100 -> 101 with quantity 0 at bid 10 empties the bids and moves to 101. */
  lemma DeletionScenario(book: BookState, update: UpdateData, bid: BidAsk, fetch: nat -> Option<Snapshot>)
    requires book == BookState([Level(10.0, 1.0)], [Level(11.0, 1.0)], 100)
    requires update == UpdateData(100, [bid], [], 101)
    ensures ParseBidAsk(bid) == Level(10.0, 0.0) ==>
      Reconcile(Running(book, 0), update, fetch) == Running(BookState([], [Level(11.0, 1.0)], 101), 0)
  {
    if ParseBidAsk(bid) == Level(10.0, 0.0) {
      assert MergeSide(Bids, book.bids, update.bids) == [] by {
        assert update.bids[..0] == [];
        assert Retain(book.bids, 10.0) == [];
      }
    }
  }

  /** Any pair of naturals printed in decimal is a wire level that parses to exactly that level. */
  lemma WireLevel(price: nat, quantity: nat)
    ensures ParseBidAsk(BidAsk(Decimal.NatToString(price), Decimal.NatToString(quantity)))
         == Level(price as real, quantity as real)
  {
    Decimal.ParseNatToString(price);
    Decimal.ParseNatToString(quantity);
  }

  /** The snapshot example with the levels written as "10"/"1" and "11"/"1" on the wire. */
  lemma SnapshotScenarioOnWire(snapshot: Snapshot)
    requires snapshot == Snapshot(100, SnapshotData(
      [BidAsk(Decimal.NatToString(11), Decimal.NatToString(1))],
      [BidAsk(Decimal.NatToString(10), Decimal.NatToString(1))]))
    ensures FromSnapshot(snapshot) == BookState([Level(10.0, 1.0)], [Level(11.0, 1.0)], 100)
  {
    WireLevel(10, 1);
    WireLevel(11, 1);
    SnapshotScenario(snapshot, snapshot.data.bids[0], snapshot.data.asks[0]);
  }

  /** The deletion example with the level written as "10"/"0" on the wire. */
  lemma DeletionScenarioOnWire(book: BookState, update: UpdateData, fetch: nat -> Option<Snapshot>)
    requires book == BookState([Level(10.0, 1.0)], [Level(11.0, 1.0)], 100)
    requires update == UpdateData(100, [BidAsk(Decimal.NatToString(10), Decimal.NatToString(0))], [], 101)
    ensures Reconcile(Running(book, 0), update, fetch) == Running(BookState([], [Level(11.0, 1.0)], 101), 0)
  {
    WireLevel(10, 0);
    DeletionScenario(book, update, update.bids[0], fetch);
  }

  /** Five bids 10..6: a new bid at 9.5 takes second place and 6 drops out. */
  lemma InsertionScenario(s: seq<Level>, x: Level)
    requires s == [Level(10.0, 1.0), Level(9.0, 1.0), Level(8.0, 1.0), Level(7.0, 1.0), Level(6.0, 1.0)]
    requires x == Level(9.5, 1.0)
    ensures ApplyLevel(Bids, s, x.price, x.quantity)
         == [Level(10.0, 1.0), x, Level(9.0, 1.0), Level(8.0, 1.0), Level(7.0, 1.0)]
  {
    var ins := [Level(10.0, 1.0), x, Level(9.0, 1.0), Level(8.0, 1.0), Level(7.0, 1.0), Level(6.0, 1.0)];
    assert s[..1] + [x] + s[1..] == ins;
    assert Truncate(ins) == ins[..5];
    InsertionScenarioFacts(s, x);
    SideProperties.InsertNewLevel(Bids, s, x);
  }

  lemma InsertionScenarioFacts(s: seq<Level>, x: Level)
    requires s == [Level(10.0, 1.0), Level(9.0, 1.0), Level(8.0, 1.0), Level(7.0, 1.0), Level(6.0, 1.0)]
    requires x == Level(9.5, 1.0)
    ensures Sorted(Bids, s)
    ensures forall i :: 0 <= i < |s| ==> s[i].price != x.price
    ensures FindPrice(s, x.price) == None
    ensures SideProperties.CountBetter(Bids, x, s) == 1
  {
    SideProperties.CountBetterNone(Bids, x, s[1..]);
  }
}
