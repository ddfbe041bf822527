/**
  The order book of src/orderbook.rs: a bid side, an ask side, and the
  timestamp (sequence) of the last snapshot or update applied to it.

  `BookState` is the book as a value and the functions below say what each
  operation makes of it; the class `Orderbook` updates its fields step by
  step as the source does and is proved to agree with them.
*/
module OrderbookModel {
  import opened Dto
  import opened Levels
  import SideProperties

  datatype BookState = BookState(bids: seq<Level>, asks: seq<Level>, lastTs: nat)

  /** Both sides sorted in their order and at most `Depth` long. */
  predicate WellFormed(b: BookState) {
    Shaped(Bids, b.bids) && Shaped(Asks, b.asks)
  }

  /** No price occurs twice on either side. */
  predicate DistinctPrices(b: BookState) {
    UniquePrices(b.bids) && UniquePrices(b.asks)
  }

  function Empty(): (b: BookState)
    ensures WellFormed(b) && DistinctPrices(b)
  {
    BookState([], [], 0)
  }

  /**
    The book `apply_snapshot` builds. It reads nothing of the previous book:
    each side is the best `Depth` of the snapshot's levels in side order.
  */
  function FromSnapshot(snapshot: Snapshot): (b: BookState)
    ensures WellFormed(b)
    ensures b.lastTs == snapshot.timestamp
    ensures |b.bids| == Min(Depth, |snapshot.data.bids|)
    ensures |b.asks| == Min(Depth, |snapshot.data.asks|)
  {
    BookState(SideFromRaw(Bids, snapshot.data.bids), SideFromRaw(Asks, snapshot.data.asks), snapshot.timestamp)
  }

  /**
    The book `update` builds: the bid levels merged into the bids, the ask
    levels into the asks, and the update's `ts` as the new timestamp.
  */
  function Merge(b: BookState, update: UpdateData): (r: BookState)
    ensures r.lastTs == update.ts
    ensures WellFormed(b) ==> WellFormed(r)
    ensures WellFormed(b) && DistinctPrices(b) ==> DistinctPrices(r)
  {
    SideProperties.MergeSideKeepsShape(Bids, b.bids, update.bids);
    SideProperties.MergeSideKeepsShape(Asks, b.asks, update.asks);
    BookState(MergeSide(Bids, b.bids, update.bids), MergeSide(Asks, b.asks, update.asks), update.ts)
  }

  /**
    The two sides of an update are merged independently: the bid levels
    never touch the asks, and the ask levels never touch the bids.
  */
  lemma MergeSidesIndependent(b: BookState, u: UpdateData, v: UpdateData)
    ensures u.asks == v.asks ==> Merge(b, u).asks == Merge(b, v).asks
    ensures u.bids == v.bids ==> Merge(b, u).bids == Merge(b, v).bids
    ensures Merge(b, u).asks == MergeSide(Asks, b.asks, u.asks)
    ensures Merge(b, u).bids == MergeSide(Bids, b.bids, u.bids)
  {
  }

  class Orderbook {
    var bids: seq<Level>  // best (highest) price first
    var asks: seq<Level>  // best (lowest) price first
    var lastTs: nat

    function State(): BookState
      reads this
    {
      BookState(bids, asks, lastTs)
    }

    /** `Orderbook::new`: both sides empty, timestamp 0. */
    constructor ()
      ensures State() == Empty()
    {
      bids := [];
      asks := [];
      lastTs := 0;
    }

    /** The timestamp of the last snapshot or update applied. */
    function LastTs(): (ts: nat)
      reads this
      ensures ts == State().lastTs
    {
      lastTs
    }

    /**
      Clears both sides, takes the snapshot's timestamp, pushes every parsed
      level, sorts each side and cuts it to `Depth`.
    */
    method ApplySnapshot(snapshot: Snapshot)
      modifies this
      ensures State() == FromSnapshot(snapshot)
    {
      bids := [];
      asks := [];
      lastTs := snapshot.timestamp;

      var raw := snapshot.data.bids;
      var i := 0;
      while i < |raw|
        invariant 0 <= i <= |raw|
        invariant bids == ParseLevels(raw[..i])
        invariant asks == [] && lastTs == snapshot.timestamp
      {
        ParseLevelsPush(raw, i);
        bids := bids + [ParseBidAsk(raw[i])];
        i := i + 1;
      }
      assert raw[..i] == raw;

      raw := snapshot.data.asks;
      i := 0;
      while i < |raw|
        invariant 0 <= i <= |raw|
        invariant asks == ParseLevels(raw[..i])
        invariant bids == ParseLevels(snapshot.data.bids) && lastTs == snapshot.timestamp
      {
        ParseLevelsPush(raw, i);
        asks := asks + [ParseBidAsk(raw[i])];
        i := i + 1;
      }
      assert raw[..i] == raw;

      bids := SortSide(Bids, bids);
      asks := SortSide(Asks, asks);
      bids := Truncate(bids);
      asks := Truncate(asks);
    }

    /**
      Sets the timestamp to the update's `ts`, then merges each bid level and
      then each ask level, in order.
    */
    method Update(update: UpdateData)
      modifies this
      ensures State() == Merge(old(State()), update)
    {
      lastTs := update.ts;

      var i := 0;
      while i < |update.bids|
        invariant 0 <= i <= |update.bids|
        invariant bids == MergeSide(Bids, old(bids), update.bids[..i])
        invariant asks == old(asks) && lastTs == update.ts
      {
        MergeSidePush(Bids, old(bids), update.bids, i);
        UpdateLevel(update.bids[i], true);
        i := i + 1;
      }
      assert update.bids[..i] == update.bids;

      i := 0;
      while i < |update.asks|
        invariant 0 <= i <= |update.asks|
        invariant asks == MergeSide(Asks, old(asks), update.asks[..i])
        invariant bids == MergeSide(Bids, old(bids), update.bids) && lastTs == update.ts
      {
        MergeSidePush(Asks, old(asks), update.asks, i);
        UpdateLevel(update.asks[i], false);
        i := i + 1;
      }
      assert update.asks[..i] == update.asks;
    }

    /**
      Merges one wire level into the bids (`isBid`) or the asks: quantity 0
      deletes its price, a known price gets the new quantity in place, a new
      price is pushed and the side re-sorted and cut to `Depth`. The other
      side and the timestamp are untouched.
    */
    method UpdateLevel(levelData: BidAsk, isBid: bool)
      modifies this
      ensures isBid ==> bids == ApplyBidAsk(Bids, old(bids), levelData) && asks == old(asks)
      ensures !isBid ==> asks == ApplyBidAsk(Asks, old(asks), levelData) && bids == old(bids)
      ensures lastTs == old(lastTs)
    {
      var level := ParseBidAsk(levelData);
      var side := if isBid then Bids else Asks;
      var levels := if isBid then bids else asks;

      if level.quantity == 0.0 {
        levels := Retain(levels, level.price);
      } else {
        match FindPrice(levels, level.price)
        case Some(k) =>
          levels := SetQuantity(levels, k, level.quantity);
        case None =>
          levels := levels + [level];
          levels := SortSide(side, levels);
          levels := Truncate(levels);
      }

      if isBid {
        bids := levels;
      } else {
        asks := levels;
      }
    }
  }
}
