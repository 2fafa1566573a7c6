/** The messages and identifiers shared by the exchange and its client
    (common/types.h, exchange/order_server/client_request.h and client_response.h,
    exchange/market_data/market_update.h). */
module Types {

  const ME_MAX_TICKERS: nat := 8
  const ME_MAX_NUM_CLIENTS: nat := 256
  const ME_MAX_ORDER_IDS: nat := 1024 * 1024
  const ME_MAX_PRICE_LEVELS: nat := 131072

  const ORDER_ID_INVALID: nat := 0xFFFF_FFFF_FFFF_FFFF
  const TICKER_ID_INVALID: nat := 0xFFFF_FFFF
  const PRICE_INVALID: int := 0x7FFF_FFFF_FFFF_FFFF
  const QTY_INVALID: nat := 0xFFFF_FFFF
  const PRIORITY_INVALID: nat := 0xFFFF_FFFF_FFFF_FFFF
  const QTY_RANGE: nat := 0x1_0000_0000

  /** `NoSide` is the source's Side::INVALID. */
  datatype Side = Buy | Sell | NoSide

  function Opposite(side: Side): Side {
    match side
    case Buy => Sell
    case Sell => Buy
    case NoSide => NoSide
  }

  datatype Option<T> = None | Some(value: T)

  ghost predicate Distinct<T>(s: seq<T>) {
    forall i, j :: 0 <= i < j < |s| ==> s[i] != s[j]
  }

  function Min(a: nat, b: nat): nat {
    if a <= b then a else b
  }

  /** One resting order. The client's mirror keeps only public fields: it stores an order under
      client 0 and its market order id (see `Public`). */
  datatype Order = Order(client: nat, coid: nat, moid: nat, side: Side, price: int, qty: nat, priority: nat)

  function Public(o: Order): Order {
    o.(client := 0, coid := o.moid)
  }

  datatype Request =
    | New(client: nat, coid: nat, side: Side, price: int, qty: nat)
    | Cancel(client: nat, coid: nat)

  datatype ResponseKind = Accepted | Canceled | Filled | CancelRejected

  datatype Response = Response(kind: ResponseKind, client: nat, coid: nat, moid: nat, side: Side,
                               price: int, execQty: nat, leavesQty: nat)

  datatype UpdateKind = Invalid | Clear | Add | Modify | CancelOrder | Trade | SnapshotStart | SnapshotEnd

  datatype Update = Update(kind: UpdateKind, orderId: nat, ticker: nat, side: Side,
                           price: int, qty: nat, priority: nat)
}
