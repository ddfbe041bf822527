/**
  Plain data carriers of src/dto.rs: the shapes in which the exchange delivers
  snapshots and incremental updates. They hold no logic.
*/
module Dto {

  /** One price level as delivered on the wire: both fields are decimal strings. */
  datatype BidAsk = BidAsk(price: string, quantity: string)

  /** Payload of a websocket order book update (`WsOrderbookUpdateData`). */
  datatype UpdateData = UpdateData(prevTs: nat, bids: seq<BidAsk>, asks: seq<BidAsk>, ts: nat)

  /** Websocket envelope (`WsOrderbookUpdate`). */
  datatype WsUpdate = WsUpdate(topic: string, data: UpdateData)

  /** Both sides of a REST snapshot (`OrderbookSnapshotData`). */
  datatype SnapshotData = SnapshotData(asks: seq<BidAsk>, bids: seq<BidAsk>)

  /** REST snapshot response (`OrderbookSnapshot`); `timestamp` is its sequence. */
  datatype Snapshot = Snapshot(timestamp: nat, data: SnapshotData)
}
