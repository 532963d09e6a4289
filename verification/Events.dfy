/** Market events, as far as the readers and the replay engine look into them. */
module Events {
  import opened Positions

  datatype Payload =
    | Trade(price: int, qty: nat, aggressor: Side)
    | OrderAdd(orderId: nat, price: int, qty: nat, side: Side)
    | EndOfData
    | Other(kind: nat)

  datatype Event = Event(timestamp: int, symbol: nat, payload: Payload)

  function Blank(): Event {
    Event(0, 0, EndOfData)
  }
}
