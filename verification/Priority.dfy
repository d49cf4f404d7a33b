/** The order book as two priority queues of values, best price first and oldest first within a
    price. Every operation of `OrderBook` and of `ReferenceBook` is specified by a function here. */
module Priority {
  import opened Types

  // ----- one side of the book

  ghost predicate Sorted(s: Side, q: seq<OpenOrder>) {
    forall i, j :: 0 <= i < j < |q| ==> !Better(s, q[j].price, q[i].price)
  }

  ghost predicate DistinctIds(q: seq<OpenOrder>) {
    forall i, j :: 0 <= i < j < |q| ==> q[i].id != q[j].id
  }

  predicate HasId(q: seq<OpenOrder>, id: OrderId) {
    exists i :: 0 <= i < |q| && q[i].id == id
  }

  function IndexOf(q: seq<OpenOrder>, id: OrderId): (i: nat)
    ensures i <= |q|
    ensures i < |q| ==> q[i].id == id
    ensures i < |q| <==> HasId(q, id)
    ensures forall j :: 0 <= j < i ==> q[j].id != id
  {
    if q == [] then 0
    else if q[0].id == id then 0
    else
      assert HasId(q[1..], id) ==> HasId(q, id) by {
        if HasId(q[1..], id) {
          var j :| 0 <= j < |q[1..]| && q[1..][j].id == id;
          assert q[j + 1].id == id;
        }
      }
      assert HasId(q, id) ==> HasId(q[1..], id) by {
        if HasId(q, id) {
          var j :| 0 <= j < |q| && q[j].id == id;
          assert q[1..][j - 1].id == id;
        }
      }
      1 + IndexOf(q[1..], id)
  }

  /** Where an order at `price` joins side `s`: behind every order of the same or a better price. */
  function Slot(s: Side, q: seq<OpenOrder>, price: Price): (k: nat)
    ensures k <= |q|
    ensures k < |q| ==> Better(s, price, q[k].price)
    ensures forall i :: 0 <= i < k ==> !Better(s, price, q[i].price)
  {
    if q == [] || Better(s, price, q[0].price) then 0 else 1 + Slot(s, q[1..], price)
  }

  lemma {:induction false} SlotIs(s: Side, q: seq<OpenOrder>, price: Price, k: nat)
    requires k <= |q| && (k < |q| ==> Better(s, price, q[k].price))
    requires forall i :: 0 <= i < k ==> !Better(s, price, q[i].price)
    ensures Slot(s, q, price) == k
  {
    if k > 0 {
      SlotIs(s, q[1..], price, k - 1);
    }
  }

  function Insert(s: Side, q: seq<OpenOrder>, o: OpenOrder): seq<OpenOrder> {
    var k := Slot(s, q, o.price);
    q[..k] + [o] + q[k..]
  }

  function Without(q: seq<OpenOrder>, i: nat): seq<OpenOrder>
    requires i < |q|
  {
    q[..i] + q[i + 1..]
  }

  function TotalQty(q: seq<OpenOrder>): nat {
    if q == [] then 0 else q[0].qty + TotalQty(q[1..])
  }

  // ----- matching

  /** Everything a matching run changes: the opposite side, the quantity still unfilled, the
      counters and the executions reported so far. */
  datatype Run = Run(q: seq<OpenOrder>, qty: Qty, c: Counters, execs: seq<Execution>)
  {
    /** Closer to the end of the run: fewer resting orders, or as many and less left to fill. */
    predicate Below(m: Run) {
      |q| < |m.q| || (|q| == |m.q| && qty < m.qty)
    }
  }

  function Kill(c: Counters, qty: Qty): Counters {
    c.(canceled := c.canceled + qty)
  }

  predicate Stopped(a: Aggressor, m: Run) {
    m.qty == 0 || m.q == [] || !a.Reaches(m.q[0].price)
  }

  function Step(a: Aggressor, m: Run): Run
    requires !Stopped(a, m)
  {
    var r := m.q[0];
    if a.Owns(r.participant) then
      var fired := m.c.(prevented := m.c.prevented + 1);
      if a.stp == CancelAggressor then Run(m.q, 0, Kill(fired, m.qty), m.execs)
      else if a.stp == CancelBoth then Run(m.q[1..], 0, Kill(fired, r.qty + m.qty), m.execs)
      else Run(m.q[1..], m.qty, Kill(fired, r.qty), m.execs)
    else
      var fill := Min(m.qty, r.qty);
      Run(if r.qty == fill then m.q[1..] else [r.(qty := r.qty - fill)] + m.q[1..],
          m.qty - fill,
          m.c.(traded := m.c.traded + fill),
          m.execs + [Execution(r.id, a.id, r.price, fill)])
  }

  function Match(a: Aggressor, m: Run): (r: Run)
    ensures Stopped(a, r)
    decreases |m.q|, m.qty
  {
    if Stopped(a, m) then m else Match(a, Step(a, m))
  }

  // ----- the whole book

  datatype Book = Book(
    range: PriceRange, stp: SelfTradePolicy, bids: seq<OpenOrder>, asks: seq<OpenOrder>, c: Counters)
  {
    function Queue(s: Side): seq<OpenOrder> {
      if s == Bid then bids else asks
    }

    function WithQueue(s: Side, q: seq<OpenOrder>): Book {
      if s == Bid then this.(bids := q) else this.(asks := q)
    }

    predicate Has(id: OrderId) {
      HasId(bids, id) || HasId(asks, id)
    }

    /** The side holding `id`; meaningful when the book has it. */
    function SideOf(id: OrderId): Side {
      if HasId(bids, id) then Bid else Ask
    }

    function Find(id: OrderId): OpenOrder
      requires Has(id)
    {
      Queue(SideOf(id))[IndexOf(Queue(SideOf(id)), id)]
    }

    ghost predicate Valid() {
      && Sorted(Bid, bids) && Sorted(Ask, asks)
      && DistinctIds(bids) && DistinctIds(asks)
      && (forall i, j :: 0 <= i < |bids| && 0 <= j < |asks| ==> bids[i].id != asks[j].id)
      && (forall i :: 0 <= i < |bids| ==> bids[i].qty > 0 && bids[i].id != 0)
      && (forall i :: 0 <= i < |asks| ==> asks[i].qty > 0 && asks[i].id != 0)
    }

    ghost predicate Uncrossed() {
      forall i, j :: 0 <= i < |bids| && 0 <= j < |asks| ==> bids[i].price < asks[j].price
    }

    function Resting(): nat {
      TotalQty(bids) + TotalQty(asks)
    }

    ghost predicate Conserves() {
      c.added == 2 * c.traded + c.canceled + c.executed + Resting()
    }
  }

  function Empty(range: PriceRange): Book {
    Book(range, NoPrevention, [], [], ZERO_COUNTERS)
  }

  /** What one call does: the book it leaves, its result code, the executions it reports. */
  datatype Outcome = Outcome(book: Book, result: Result, execs: seq<Execution>)

  function Validate(b: Book, id: OrderId, price: Price, qty: Qty): Result {
    if id == 0 then RejectedBadId
    else if qty == 0 then RejectedBadQty
    else if !b.range.Valid(price) then RejectedBadPrice
    else if b.Has(id) then RejectedDuplicateId
    else Ok
  }

  function Rest(b: Book, s: Side, o: OpenOrder): Book {
    b.WithQueue(s, Insert(s, b.Queue(s), o))
  }

  function Start(b: Book, a: Aggressor, qty: Qty): Run {
    Run(b.Queue(Opposite(a.side)), qty, b.c.(added := b.c.added + qty), [])
  }

  function After(b: Book, a: Aggressor, m: Run): Book {
    b.WithQueue(Opposite(a.side), m.q).(c := m.c)
  }

  function AddLimit(b: Book, actor: ParticipantId, id: OrderId, s: Side, price: Price, qty: Qty): Outcome {
    var v := Validate(b, id, price, qty);
    if v != Ok then Outcome(b, v, [])
    else
      var a := Aggressor(id, actor, s, Some(price), b.stp);
      var m := Match(a, Start(b, a, qty));
      var after := After(b, a, m);
      Outcome(if m.qty > 0 then Rest(after, s, OpenOrder(id, price, m.qty, actor)) else after, Ok, m.execs)
  }

  /** The immediate forms share their body: match, then kill what is left. */
  function Immediate(b: Book, a: Aggressor, qty: Qty): Outcome {
    var m := Match(a, Start(b, a, qty));
    Outcome(After(b, a, m.(c := Kill(m.c, m.qty))), Ok, m.execs)
  }

  function AddIoc(b: Book, actor: ParticipantId, id: OrderId, s: Side, price: Price, qty: Qty): Outcome {
    var v := Validate(b, id, price, qty);
    if v != Ok then Outcome(b, v, [])
    else Immediate(b, Aggressor(id, actor, s, Some(price), b.stp), qty)
  }

  /** Quantity the aggressor could reach on `q`: its own orders are skipped under CancelResting
      and end the walk under the policies that kill the aggressor. */
  function Reachable(a: Aggressor, q: seq<OpenOrder>): nat {
    if q == [] || !a.Reaches(q[0].price) then 0
    else if a.Owns(q[0].participant) then
      if a.stp == CancelResting then Reachable(a, q[1..]) else 0
    else q[0].qty + Reachable(a, q[1..])
  }

  function AddFok(b: Book, actor: ParticipantId, id: OrderId, s: Side, price: Price, qty: Qty): Outcome {
    var v := Validate(b, id, price, qty);
    if v != Ok then Outcome(b, v, [])
    else
      var a := Aggressor(id, actor, s, Some(price), b.stp);
      if Reachable(a, b.Queue(Opposite(s))) < qty then Outcome(b, RejectedNoLiquidity, [])
      else Immediate(b, a, qty)
  }

  function AddMarket(b: Book, actor: ParticipantId, id: OrderId, s: Side, qty: Qty): Outcome {
    if id == 0 then Outcome(b, RejectedBadId, [])
    else if qty == 0 then Outcome(b, RejectedBadQty, [])
    else if b.Has(id) then Outcome(b, RejectedDuplicateId, [])
    else Immediate(b, Aggressor(id, actor, s, None, b.stp), qty)
  }

  /** Take `id` out of the book, without touching the counters. */
  function Drop(b: Book, id: OrderId): Book
    requires b.Has(id)
  {
    var s := b.SideOf(id);
    b.WithQueue(s, Without(b.Queue(s), IndexOf(b.Queue(s), id)))
  }

  function CancelOpen(b: Book, id: OrderId): Book
    requires b.Has(id)
  {
    Drop(b, id).(c := Kill(b.c, b.Find(id).qty))
  }

  function Cancel(b: Book, id: OrderId): Outcome {
    if !b.Has(id) then Outcome(b, RejectedUnknownId, []) else Outcome(CancelOpen(b, id), Ok, [])
  }

  function Replace(b: Book, oldId: OrderId, newId: OrderId, price: Price, qty: Qty): Outcome {
    if !b.Has(oldId) then Outcome(b, RejectedUnknownId, [])
    else if newId == 0 then Outcome(b, RejectedBadId, [])
    else if qty == 0 then Outcome(b, RejectedBadQty, [])
    else if !b.range.Valid(price) then Outcome(b, RejectedBadPrice, [])
    else if newId != oldId && b.Has(newId) then Outcome(b, RejectedDuplicateId, [])
    else AddLimit(CancelOpen(b, oldId), b.Find(oldId).participant, newId, b.SideOf(oldId), price, qty)
  }

  // ----- feed entry points

  function InsertPassive(b: Book, id: OrderId, s: Side, price: Price, qty: Qty): Outcome {
    var v := Validate(b, id, price, qty);
    if v != Ok then Outcome(b, v, [])
    else Outcome(Rest(b.(c := b.c.(added := b.c.added + qty)), s, OpenOrder(id, price, qty, 0)), Ok, [])
  }

  /** The quantity a feed event removes from `id`: clamped to what is open, 0 when rejected. */
  function Taken(b: Book, id: OrderId, qty: Qty): Qty {
    if b.Has(id) then Min(qty, b.Find(id).qty) else 0
  }

  /** Shrink `id` by `take`, deleting it when nothing is left. */
  function Shrink(b: Book, id: OrderId, take: Qty): Book
    requires b.Has(id) && take <= b.Find(id).qty
  {
    var s := b.SideOf(id);
    var o := b.Find(id);
    if take == o.qty then Drop(b, id)
    else b.WithQueue(s, b.Queue(s)[IndexOf(b.Queue(s), id) := o.(qty := o.qty - take)])
  }

  function Consume(b: Book, id: OrderId, qty: Qty, isExecution: bool): Outcome {
    if !b.Has(id) then Outcome(b, RejectedUnknownId, [])
    else if qty == 0 then Outcome(b, RejectedBadQty, [])
    else
      var take := Taken(b, id, qty);
      var c := if isExecution then b.c.(executed := b.c.executed + take) else Kill(b.c, take);
      Outcome(Shrink(b, id, take).(c := c), Ok, [])
  }

  // ----- sequences of calls

  datatype Op =
    | SetPolicy(policy: SelfTradePolicy)
    | Limit(actor: ParticipantId, id: OrderId, side: Side, price: Price, qty: Qty)
    | Ioc(actor: ParticipantId, id: OrderId, side: Side, price: Price, qty: Qty)
    | Fok(actor: ParticipantId, id: OrderId, side: Side, price: Price, qty: Qty)
    | Market(actor: ParticipantId, id: OrderId, side: Side, qty: Qty)
    | CancelId(id: OrderId)
    | ReplaceId(oldId: OrderId, newId: OrderId, price: Price, qty: Qty)
    | Passive(id: OrderId, side: Side, price: Price, qty: Qty)
    | ExecuteResting(id: OrderId, qty: Qty)
    | ReduceResting(id: OrderId, qty: Qty)

  function Apply(b: Book, op: Op): Outcome {
    match op
    case SetPolicy(p) => Outcome(b.(stp := p), Ok, [])
    case Limit(actor, id, s, price, qty) => AddLimit(b, actor, id, s, price, qty)
    case Ioc(actor, id, s, price, qty) => AddIoc(b, actor, id, s, price, qty)
    case Fok(actor, id, s, price, qty) => AddFok(b, actor, id, s, price, qty)
    case Market(actor, id, s, qty) => AddMarket(b, actor, id, s, qty)
    case CancelId(id) => Cancel(b, id)
    case ReplaceId(oldId, newId, price, qty) => Replace(b, oldId, newId, price, qty)
    case Passive(id, s, price, qty) => InsertPassive(b, id, s, price, qty)
    case ExecuteResting(id, qty) => Consume(b, id, qty, true)
    case ReduceResting(id, qty) => Consume(b, id, qty, false)
  }

  function ApplyAll(b: Book, ops: seq<Op>): Book
    decreases |ops|
  {
    if ops == [] then b else ApplyAll(Apply(b, ops[0]).book, ops[1..])
  }

  /** What a client sees of a run: each call's result code and executions, in order. */
  function Replies(b: Book, ops: seq<Op>): seq<(Result, seq<Execution>)>
    decreases |ops|
  {
    if ops == [] then []
    else
      var r := Apply(b, ops[0]);
      [(r.result, r.execs)] + Replies(r.book, ops[1..])
  }
}
