/** Value types shared by every part of the model: include/pricetime/types.hpp and the result
    codes, policies and counters of include/pricetime/book.hpp. */
module Types {
  datatype Option<+T> = None | Some(value: T)

  type OrderId = nat
  type Price = int
  type Qty = nat
  type ParticipantId = nat

  datatype Side = Bid | Ask

  function Opposite(s: Side): Side {
    if s == Bid then Ask else Bid
  }

  datatype Result =
    | Ok
    | RejectedBadId
    | RejectedBadQty
    | RejectedBadPrice
    | RejectedDuplicateId
    | RejectedUnknownId
    | RejectedNoLiquidity

  datatype SelfTradePolicy = NoPrevention | CancelResting | CancelAggressor | CancelBoth

  datatype Execution = Execution(restingId: OrderId, aggressorId: OrderId, price: Price, qty: Qty)

  /** The prices a ladder accepts: the tree ladders take any price, the dense ladder a closed band. */
  datatype PriceRange = Unbounded | Within(lo: Price, hi: Price)
  {
    predicate Valid(p: Price) {
      Unbounded? || lo <= p <= hi
    }
  }

  datatype Counters = Counters(added: nat, traded: nat, canceled: nat, executed: nat, prevented: nat)

  const ZERO_COUNTERS := Counters(0, 0, 0, 0, 0)

  /** The value carried by one resting order node, without its links. */
  datatype OpenOrder = OpenOrder(id: OrderId, price: Price, qty: Qty, participant: ParticipantId)

  /** Price `p` has priority over price `q` among orders resting on side `s`. */
  predicate Better(s: Side, p: Price, q: Price) {
    if s == Bid then p > q else p < q
  }

  /** The incoming side of one matching run; `limit` is None for a market order. */
  datatype Aggressor = Aggressor(
    id: OrderId, actor: ParticipantId, side: Side, limit: Option<Price>, stp: SelfTradePolicy)
  {
    predicate Reaches(p: Price) {
      limit.None? || (if side == Bid then limit.value >= p else limit.value <= p)
    }

    predicate Owns(participant: ParticipantId) {
      actor != 0 && stp != NoPrevention && participant == actor
    }
  }

  function Max(a: nat, b: nat): nat {
    if a < b then b else a
  }

  function Min(a: nat, b: nat): nat {
    if a < b then a else b
  }
}
