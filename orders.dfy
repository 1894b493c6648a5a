/**
 * Orders as the core reads them. The Order class itself (order.py) is not
 * part of this model; these are the fields the core accesses. Datetimes are
 * whole seconds.
 */
module Orders {
  import opened Common

  /** An accepted order held in an inventory node. */
  datatype Order = Order(
    id: string,
    pickup: Pos,
    dropoff: Pos,
    payout: real,
    weight: nat,
    priority: int,
    deadline: int,
    releaseTime: int)

  /** One serialised inventory entry: every order field except the release time. */
  datatype OrderRecord = OrderRecord(
    id: string,
    pickup: Pos,
    dropoff: Pos,
    payout: real,
    deadline: int,
    weight: nat,
    priority: int)

  /** The serialised form of an order: every field but the release time. */
  function ToRecord(o: Order): OrderRecord
  {
    OrderRecord(o.id, o.pickup, o.dropoff, o.payout, o.deadline, o.weight, o.priority)
  }

  /** The order a record describes, given the release time the record does not keep. */
  function FromRecord(r: OrderRecord, releaseTime: int): Order
  {
    Order(r.id, r.pickup, r.dropoff, r.payout, r.weight, r.priority, r.deadline, releaseTime)
  }

  /** A record keeps everything about an order except its release time. */
  lemma RecordRoundTrip(o: Order, r: OrderRecord, releaseTime: int)
    ensures FromRecord(ToRecord(o), o.releaseTime) == o
    ensures ToRecord(FromRecord(r, releaseTime)) == r
  {
  }

  /**
   * An entry of the pool of available orders, a dictionary in the game:
   * "payout" and "weight" may be missing.
   */
  datatype OrderData = OrderData(
    id: string,
    pickup: Pos,
    dropoff: Pos,
    payout: Option<real>,
    weight: Option<int>)

  /** `order_data.get("payout", 10)` */
  function PayoutOr10(d: OrderData): real
  {
    match d.payout
    case Some(p) => p
    case None => 10.0
  }

  /** `order_data.get('weight', 0)` */
  function WeightOr0(d: OrderData): int
  {
    match d.weight
    case Some(w) => w
    case None => 0
  }
}
