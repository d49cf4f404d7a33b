/** The place in the queue of one simulated passive order: the tracker of
    include/pricetime/queue_position.hpp, and what tools/mm_sandbox.cpp reads off each feed message
    for it. The tracker is proved to hold the part of the level's own queue that was resting there when
    the order was placed. */
module QueuePosition {
  import opened Types
  import opened Replay
  import P = Priority
  import L = BookLaws
  import I = Integrity

  // ----- the queue of one price

  /** The orders of a side at one price, oldest first. */
  function LevelAt(q: seq<OpenOrder>, p: Price): seq<OpenOrder> {
    if q == [] then [] else (if q[0].price == p then [q[0]] else []) + LevelAt(q[1..], p)
  }

  lemma {:induction false} LevelConcat(q: seq<OpenOrder>, r: seq<OpenOrder>, p: Price)
    ensures LevelAt(q + r, p) == LevelAt(q, p) + LevelAt(r, p)
  {
    if q == [] {
      assert q + r == r;
    } else {
      assert (q + r)[1..] == q[1..] + r;
      LevelConcat(q[1..], r, p);
      Grouped(if q[0].price == p then [q[0]] else [], LevelAt(q[1..], p), LevelAt(r, p));
    }
  }

  lemma Grouped(a: seq<OpenOrder>, b: seq<OpenOrder>, c: seq<OpenOrder>)
    ensures a + (b + c) == a + b + c
  {
  }

  lemma LevelSplit(q: seq<OpenOrder>, o: OpenOrder, r: seq<OpenOrder>, p: Price)
    ensures LevelAt(q + [o] + r, p) == LevelAt(q, p) + (if o.price == p then [o] else []) + LevelAt(r, p)
  {
    LevelConcat(q + [o], r, p);
    LevelConcat(q, [o], p);
    assert [o][1..] == [];
  }

  lemma {:induction false} LevelMembers(q: seq<OpenOrder>, p: Price)
    ensures forall o :: o in LevelAt(q, p) <==> o in q && o.price == p
  {
    if q != [] {
      LevelMembers(q[1..], p);
      assert forall o :: o in q <==> o == q[0] || o in q[1..];
    }
  }

  lemma {:induction false} LevelDistinct(q: seq<OpenOrder>, p: Price)
    requires P.DistinctIds(q)
    ensures P.DistinctIds(LevelAt(q, p))
  {
    if q != [] {
      LevelDistinct(q[1..], p);
      LevelMembers(q[1..], p);
      var rest := LevelAt(q[1..], p);
      forall i | 0 <= i < |rest|
        ensures rest[i].id != q[0].id
      {
        assert rest[i] in q[1..];
      }
    }
  }

  lemma LevelHas(q: seq<OpenOrder>, p: Price, id: OrderId)
    ensures P.HasId(LevelAt(q, p), id) ==> P.HasId(q, id)
  {
    LevelMembers(q, p);
    var lvl := LevelAt(q, p);
    if P.HasId(lvl, id) {
      var i :| 0 <= i < |lvl| && lvl[i].id == id;
      assert lvl[i] in q;
    }
  }

  lemma {:induction false} NoneThere(q: seq<OpenOrder>, p: Price)
    requires forall i :: 0 <= i < |q| ==> q[i].price != p
    ensures LevelAt(q, p) == []
  {
    if q != [] {
      NoneThere(q[1..], p);
    }
  }

  lemma LevelBetween(front: seq<OpenOrder>, o: OpenOrder, back: seq<OpenOrder>, p: Price)
    requires o.price == p ==> LevelAt(back, p) == []
    ensures LevelAt(front + [o] + back, p) == LevelAt(front + back, p) + if o.price == p then [o] else []
  {
    hide LevelAt;
    LevelSplit(front, o, back, p);
    LevelConcat(front, back, p);
  }

  lemma NoneBehind(s: Side, q: seq<OpenOrder>, p: Price)
    requires P.Sorted(s, q)
    ensures LevelAt(q[P.Slot(s, q, p)..], p) == []
  {
    hide LevelAt;
    var k := P.Slot(s, q, p);
    forall i | 0 <= i < |q[k..]|
      ensures q[k..][i].price != p
    {
      assert q[k..][i] == q[k + i] && !Better(s, q[k + i].price, q[k].price);
    }
    NoneThere(q[k..], p);
  }

  /** An order joins the back of the queue of its price, and no other queue. */
  lemma LevelInsert(s: Side, q: seq<OpenOrder>, o: OpenOrder, p: Price)
    requires P.Sorted(s, q)
    ensures LevelAt(P.Insert(s, q, o), p) == LevelAt(q, p) + if o.price == p then [o] else []
  {
    hide LevelAt, P.Slot, P.Sorted;
    var k := P.Slot(s, q, o.price);
    NoneBehind(s, q, o.price);
    assert q == q[..k] + q[k..];
    LevelBetween(q[..k], o, q[k..], p);
  }

  /** Where order `i` of a side stands in the queue of its price. */
  lemma LevelIndex(q: seq<OpenOrder>, i: nat) returns (j: nat)
    requires P.DistinctIds(q) && i < |q|
    ensures var lvl := LevelAt(q, q[i].price); j < |lvl| && lvl[j] == q[i] && P.IndexOf(lvl, q[i].id) == j
    ensures j == |LevelAt(q[..i], q[i].price)|
  {
    var p := q[i].price;
    var lvl := LevelAt(q, p);
    LevelSplit(q[..i], q[i], q[i + 1..], p);
    assert q == q[..i] + [q[i]] + q[i + 1..];
    j := |LevelAt(q[..i], p)|;
    LevelDistinct(q, p);
    hide LevelAt;
    assert lvl[j] == q[i];
    assert P.HasId(lvl, q[i].id);
  }

  lemma LevelWithout(q: seq<OpenOrder>, i: nat, p: Price)
    requires P.DistinctIds(q) && i < |q|
    ensures LevelAt(P.Without(q, i), p) == Left(LevelAt(q, p), q[i].id)
  {
    hide LevelAt;
    assert q == q[..i] + [q[i]] + q[i + 1..];
    LevelSplit(q[..i], q[i], q[i + 1..], p);
    LevelConcat(q[..i], q[i + 1..], p);
    if q[i].price == p {
      var j := LevelIndex(q, i);
    } else {
      OtherLevel(q, i, p);
    }
  }

  lemma OtherLevel(q: seq<OpenOrder>, i: nat, p: Price)
    requires P.DistinctIds(q) && i < |q| && q[i].price != p
    ensures !P.HasId(LevelAt(q, p), q[i].id)
  {
    LevelMembers(q, p);
    var lvl := LevelAt(q, p);
    hide LevelAt;
    forall j | 0 <= j < |lvl|
      ensures lvl[j].id != q[i].id
    {
      assert lvl[j] in q;
    }
  }

  lemma LevelUpdate(q: seq<OpenOrder>, i: nat, qty: Qty, p: Price)
    requires P.DistinctIds(q) && i < |q|
    ensures LevelAt(q[i := q[i].(qty := qty)], p) == Shrunk(LevelAt(q, p), q[i].id, qty)
  {
    hide LevelAt;
    var o := q[i].(qty := qty);
    assert q == q[..i] + [q[i]] + q[i + 1..];
    assert q[i := o] == q[..i] + [o] + q[i + 1..];
    LevelSplit(q[..i], q[i], q[i + 1..], p);
    LevelSplit(q[..i], o, q[i + 1..], p);
    if q[i].price == p {
      var j := LevelIndex(q, i);
    } else {
      OtherLevel(q, i, p);
    }
  }

  /** A queue once `id` has left it, if it was there. */
  function Left(lvl: seq<OpenOrder>, id: OrderId): seq<OpenOrder> {
    var j := P.IndexOf(lvl, id);
    if j < |lvl| then P.Without(lvl, j) else lvl
  }

  /** A queue once `qty` is what is open of `id`, if it is there. */
  function Shrunk(lvl: seq<OpenOrder>, id: OrderId, qty: Qty): seq<OpenOrder> {
    var j := P.IndexOf(lvl, id);
    if j < |lvl| then lvl[j := lvl[j].(qty := qty)] else lvl
  }

  // ----- the tracker

  datatype Quote = Quote(
    price: Price, side: Side, remaining: Qty, active: bool, ahead: map<OrderId, Qty>, sharesAhead: int)
  {
    predicate AtFront() {
      active && ahead == map[]
    }

    function Removed(id: OrderId, qty: Qty): Quote {
      if id !in ahead then this
      else
        var cut := Min(qty, ahead[id]);
        this.(ahead := if ahead[id] == cut then ahead - {id} else ahead[id := ahead[id] - cut],
              sharesAhead := sharesAhead - cut)
    }

    function Filled(qty: Qty): Quote {
      var left := remaining - Min(qty, remaining);
      this.(remaining := left, active := active && left != 0)
    }

    function Canceled(): Quote {
      this.(active := false, ahead := map[], sharesAhead := 0)
    }
  }

  /** The map names exactly the orders of `queue`, each with what is open of it. */
  ghost predicate Lists(ahead: map<OrderId, Qty>, queue: seq<OpenOrder>) {
    && (forall id :: id in ahead <==> P.HasId(queue, id))
    && forall i :: 0 <= i < |queue| ==> queue[i].id in ahead && ahead[queue[i].id] == queue[i].qty
  }

  /** Of the orders summed up, `ids` name those still to come, `left`. */
  ghost predicate Remains(ahead: map<OrderId, Qty>, ids: set<OrderId>, left: seq<OpenOrder>) {
    && P.DistinctIds(left) && ids <= ahead.Keys && (forall id :: id in ids <==> P.HasId(left, id))
    && forall i :: 0 <= i < |left| ==> left[i].id in ahead && ahead[left[i].id] == left[i].qty
  }

  lemma OneRemains(ahead: map<OrderId, Qty>, ids: set<OrderId>, left: seq<OpenOrder>, id: OrderId) returns (k: nat)
    requires Remains(ahead, ids, left) && id in ids
    ensures k < |left| && Remains(ahead, ids - {id}, P.Without(left, k))
    ensures P.TotalQty(left) == P.TotalQty(P.Without(left, k)) + ahead[id]
  {
    k := P.IndexOf(left, id);
    L.TotalOfUpdate(left, k, left[k]);
    var w := P.Without(left, k);
    forall x
      ensures P.HasId(w, x) <==> P.HasId(left, x) && x != id
    {
      WithoutHas(left, k, x);
    }
    hide P.HasId, P.TotalQty;
    assert forall i :: 0 <= i < |w| ==> w[i] == left[if i < k then i else i + 1];
  }

  lemma NoneRemains(ahead: map<OrderId, Qty>, left: seq<OpenOrder>)
    requires Remains(ahead, {}, left)
    ensures P.TotalQty(left) == 0
  {
    if left != [] {
      assert P.HasId(left, left[0].id);
      assert false;
    }
  }

  class Tracker {
    var price: Price
    var side: Side
    var remaining: Qty
    var active: bool
    var ahead: map<OrderId, Qty>
    var sharesAhead: int

    function Value(): Quote
      reads this
    {
      Quote(price, side, remaining, active, ahead, sharesAhead)
    }

    constructor ()
      ensures Value() == Quote(0, Bid, 0, false, map[], 0)
    {
      price, side, remaining, active, ahead, sharesAhead := 0, Bid, 0, false, map[], 0;
    }

    /** Starts a fresh order behind the orders `queue`, which `joining` maps to their open quantities. */
    method Place(price: Price, side: Side, qty: Qty, joining: map<OrderId, Qty>, ghost queue: seq<OpenOrder>)
      requires Lists(joining, queue) && P.DistinctIds(queue)
      modifies this
      ensures Value() == Quote(price, side, qty, true, joining, P.TotalQty(queue))
    {
      this.price, this.side, remaining := price, side, qty;
      ahead := joining;
      sharesAhead := 0;
      var ids := joining.Keys;
      ghost var left := queue;
      hide P.IndexOf, P.TotalQty, P.Without, P.DistinctIds;
      while ids != {}
        invariant Remains(joining, ids, left)
        invariant sharesAhead + P.TotalQty(left) == P.TotalQty(queue)
        invariant ahead == joining && this.price == price && this.side == side && remaining == qty
        decreases |ids|
      {
        var id :| id in ids;
        ghost var k := OneRemains(joining, ids, left, id);
        sharesAhead := sharesAhead + joining[id];
        ids := ids - {id};
        left := P.Without(left, k);
      }
      NoneRemains(joining, left);
      active := true;
    }

    method Cancel()
      modifies this
      ensures Value() == old(Value()).Canceled()
    {
      active := false;
      ahead := map[];
      sharesAhead := 0;
    }

    method OnSharesRemoved(id: OrderId, qty: Qty)
      modifies this
      ensures Value() == old(Value()).Removed(id, qty)
    {
      if id !in ahead {
        return;
      }
      var cut := if qty < ahead[id] then qty else ahead[id];
      ahead := ahead[id := ahead[id] - cut];
      sharesAhead := sharesAhead - cut;
      if ahead[id] == 0 {
        ahead := ahead - {id};
      }
    }

    method TakeFill(printQty: Qty) returns (fill: Qty)
      requires active
      modifies this
      ensures fill == Min(printQty, old(remaining)) && Value() == old(Value()).Filled(printQty)
    {
      fill := if printQty < remaining then printQty else remaining;
      remaining := remaining - fill;
      if remaining == 0 {
        active := false;
      }
    }
  }

  // ----- what one feed message does to a queue

  /** What one message does to one displayed order, read off the book before the message is applied. */
  datatype OrderEvent = OrderEvent(isExecution: bool, id: OrderId, price: Price, side: Side, shares: Qty)

  function Peek(b: P.Book, e: Event): Option<OrderEvent> {
    match e
    case Exec(x) => PeekAt(b, x.ref, true, x.shares)
    case Reduce(c) => PeekAt(b, c.ref, false, c.shares)
    case Remove(d) => PeekAt(b, d.ref, false, if b.Has(d.ref) then b.Find(d.ref).qty else 0)
    case Swap(r) => PeekAt(b, r.ref, false, if b.Has(r.ref) then b.Find(r.ref).qty else 0)
    case _ => None
  }

  function PeekAt(b: P.Book, id: OrderId, isExecution: bool, shares: Qty): Option<OrderEvent> {
    if b.Has(id) then Some(OrderEvent(isExecution, id, b.Find(id).price, b.SideOf(id), shares)) else None
  }

  /** The order the message takes shares from, and what stays open of it: nothing when it leaves. */
  function Changed(b: P.Book, e: Event): Option<(OrderId, Qty)> {
    match Peek(b, e)
    case None => None
    case Some(ev) => Some((ev.id, b.Find(ev.id).qty - Min(ev.shares, b.Find(ev.id).qty)))
  }

  /** The order the message brings in, when the book accepts it, and its side. */
  function Arriving(b: P.Book, e: Event): Option<(Side, OpenOrder)> {
    match e
    case Add(m) =>
      if P.Validate(b, m.ref, m.price, m.shares) == Ok then Some((m.side, OpenOrder(m.ref, m.price, m.shares, 0)))
      else None
    case Swap(r) =>
      if b.Has(r.ref) && P.Validate(P.CancelOpen(b, r.ref), r.newRef, r.price, r.shares) == Ok
      then Some((b.SideOf(r.ref), OpenOrder(r.newRef, r.price, r.shares, 0)))
      else None
    case _ => None
  }

  predicate Joins(b: P.Book, e: Event, s: Side, p: Price) {
    Arriving(b, e).Some? && Arriving(b, e).value.0 == s && Arriving(b, e).value.1.price == p
  }

  /** The queue without the shares the message takes. */
  function Moved(b: P.Book, e: Event, lvl: seq<OpenOrder>): seq<OpenOrder> {
    match Changed(b, e)
    case None => lvl
    case Some((id, open)) => if open == 0 then Left(lvl, id) else Shrunk(lvl, id, open)
  }

  /** An order of one side changes nothing about the queues of the other. */
  lemma NotThere(b: P.Book, id: OrderId, p: Price)
    requires b.Valid() && b.Has(id)
    ensures var lvl := LevelAt(b.Queue(Opposite(b.SideOf(id))), p); P.IndexOf(lvl, id) == |lvl|
  {
    OtherSide(b, id);
    LevelHas(b.Queue(Opposite(b.SideOf(id))), p, id);
  }

  lemma OnItsSide(b: P.Book, id: OrderId)
    requires b.Valid() && b.Has(id)
    ensures var q := b.Queue(b.SideOf(id)); var k := P.IndexOf(q, id);
      k < |q| && q[k].id == id && b.Find(id) == q[k] && P.DistinctIds(q)
  {
  }

  lemma DropQueues(b: P.Book, id: OrderId, s: Side, p: Price)
    requires b.Valid() && b.Has(id)
    ensures LevelAt(P.Drop(b, id).Queue(s), p) == Left(LevelAt(b.Queue(s), p), id)
  {
    hide LevelAt, P.Without, P.Book.Valid, P.HasId, P.Book.SideOf, P.DistinctIds;
    OnItsSide(b, id);
    NotThere(b, id, p);
    if s == b.SideOf(id) {
      LevelWithout(b.Queue(s), P.IndexOf(b.Queue(s), id), p);
    }
  }

  /** The queues once `open` is what is open of an order, more than nothing. */
  lemma UpdateQueues(b: P.Book, id: OrderId, open: Qty, s: Side, p: Price)
    requires b.Valid() && b.Has(id)
    ensures var t := b.SideOf(id); var k := P.IndexOf(b.Queue(t), id);
      && k < |b.Queue(t)|
      && LevelAt(b.WithQueue(t, b.Queue(t)[k := b.Find(id).(qty := open)]).Queue(s), p)
           == Shrunk(LevelAt(b.Queue(s), p), id, open)
  {
    hide LevelAt, P.Book.Valid, P.HasId, P.Book.SideOf, P.DistinctIds;
    OnItsSide(b, id);
    NotThere(b, id, p);
    if s == b.SideOf(id) {
      LevelUpdate(b.Queue(s), P.IndexOf(b.Queue(s), id), open, p);
    }
  }

  lemma PassiveQueues(b: P.Book, id: OrderId, t: Side, price: Price, qty: Qty, s: Side, p: Price)
    requires b.Valid()
    ensures LevelAt(P.InsertPassive(b, id, t, price, qty).book.Queue(s), p) == LevelAt(b.Queue(s), p) +
      if P.Validate(b, id, price, qty) == Ok && s == t && price == p then [OpenOrder(id, price, qty, 0)] else []
  {
    LevelInsert(t, b.Queue(t), OpenOrder(id, price, qty, 0), p);
    hide LevelAt, P.Insert;
  }

  /** What a message does to the queue of any price: some shares leave, and an order may join at the back. */
  lemma QueueShown(b: P.Book, e: Event, s: Side, p: Price)
    requires b.Valid()
    ensures LevelAt(I.Shown(b, e).Queue(s), p)
         == Moved(b, e, LevelAt(b.Queue(s), p)) + if Joins(b, e, s, p) then [Arriving(b, e).value.1] else []
  {
    hide LevelAt, P.Book.Valid, P.Book.Has, P.Book.SideOf, P.Book.Find, P.Drop, P.Insert, Left, Shrunk;
    match e
    case Add(m) => PassiveQueues(b, m.ref, m.side, m.price, m.shares, s, p);
    case Exec(x) => ConsumedQueues(b, x.ref, x.shares, true, s, p);
    case Reduce(c) => ConsumedQueues(b, c.ref, c.shares, false, s, p);
    case Remove(d) =>
      if b.Has(d.ref) {
        DropQueues(b, d.ref, s, p);
        SameQueues(P.CancelOpen(b, d.ref), P.Drop(b, d.ref), s);
      }
    case Swap(r) =>
      if b.Has(r.ref) {
        DropQueues(b, r.ref, s, p);
        SameQueues(P.CancelOpen(b, r.ref), P.Drop(b, r.ref), s);
        L.ApplyKeeps(b, P.CancelId(r.ref));
        PassiveQueues(P.CancelOpen(b, r.ref), r.newRef, b.SideOf(r.ref), r.price, r.shares, s, p);
      }
    case Ignored =>
  }

  lemma SameQueues(b: P.Book, d: P.Book, s: Side)
    requires b == d.(c := b.c)
    ensures b.Queue(s) == d.Queue(s)
  {
  }

  lemma ConsumedQueues(b: P.Book, id: OrderId, shares: Qty, isExecution: bool, s: Side, p: Price)
    requires b.Valid()
    ensures var lvl := LevelAt(b.Queue(s), p);
      LevelAt(P.Consume(b, id, shares, isExecution).book.Queue(s), p) ==
        if !b.Has(id) then lvl
        else
          var open := b.Find(id).qty - Min(shares, b.Find(id).qty);
          if open == 0 then Left(lvl, id) else Shrunk(lvl, id, open)
  {
    hide LevelAt, P.Book.Valid, P.HasId, P.Book.SideOf, P.Drop, Left, Shrunk, P.Book.Find;
    if b.Has(id) {
      var open := b.Find(id).qty - Min(shares, b.Find(id).qty);
      I.OpenQuantity(b, id);
      DropQueues(b, id, s, p);
      UpdateQueues(b, id, open, s, p);
      Untouched(b, id);
      var after := P.Consume(b, id, shares, isExecution).book;
      if shares > 0 {
        SameQueues(after, P.Shrink(b, id, P.Taken(b, id, shares)), s);
      }
    }
  }

  /** Writing an order back as it is changes nothing. */
  lemma Untouched(b: P.Book, id: OrderId)
    requires b.Valid() && b.Has(id)
    ensures var t := b.SideOf(id); var k := P.IndexOf(b.Queue(t), id);
      k < |b.Queue(t)| && b.WithQueue(t, b.Queue(t)[k := b.Find(id).(qty := b.Find(id).qty)]) == b
  {
    OnItsSide(b, id);
  }

  // ----- who is ahead

  /** For each order of a queue, oldest first, whether it joined after the simulated order did. The
      message may take one out and bring one in. */
  function SinceAfter(b: P.Book, e: Event, s: Side, p: Price, since: seq<bool>): seq<bool> {
    Stay(b, e, LevelAt(b.Queue(s), p), since) + if Joins(b, e, s, p) then [true] else []
  }

  function Stay(b: P.Book, e: Event, lvl: seq<OpenOrder>, since: seq<bool>): seq<bool> {
    match Changed(b, e)
    case None => since
    case Some((id, open)) =>
      var j := P.IndexOf(lvl, id);
      if open == 0 && j < |lvl| && j < |since| then since[..j] + since[j + 1..] else since
  }

  /** How many orders at the head of the queue were there before the simulated order. */
  function Before(since: seq<bool>): (k: nat)
    ensures k <= |since| && (k < |since| ==> since[k]) && forall i :: 0 <= i < k ==> !since[i]
  {
    if since == [] || since[0] then 0 else 1 + Before(since[1..])
  }

  lemma {:induction false} BeforeIs(since: seq<bool>, k: nat)
    requires k <= |since| && (k < |since| ==> since[k]) && forall i :: 0 <= i < k ==> !since[i]
    ensures Before(since) == k
  {
    if k > 0 {
      BeforeIs(since[1..], k - 1);
    }
  }

  /** Those who joined since stand behind those who were there, and the tracker lists exactly the latter. */
  ghost predicate InLine(q: Quote, lvl: seq<OpenOrder>, since: seq<bool>) {
    && |since| == |lvl| && (forall i :: Before(since) <= i < |since| ==> since[i])
    && Lists(q.ahead, lvl[..Before(since)]) && q.sharesAhead == P.TotalQty(lvl[..Before(since)])
  }

  lemma LineJoined(q: Quote, lvl: seq<OpenOrder>, since: seq<bool>, o: OpenOrder)
    requires InLine(q, lvl, since)
    ensures InLine(q, lvl + [o], since + [true])
  {
    var k := Before(since);
    BeforeIs(since + [true], k);
    assert (lvl + [o])[..k] == lvl[..k];
    hide Lists, P.TotalQty;
  }

  lemma PrefixHas(lvl: seq<OpenOrder>, k: nat, j: nat)
    requires P.DistinctIds(lvl) && j < |lvl| && k <= |lvl|
    ensures P.HasId(lvl[..k], lvl[j].id) <==> j < k
  {
    if j < k {
      assert lvl[..k][j] == lvl[j];
    }
  }

  /** An order behind the head of the queue changes or leaves: nobody ahead does. */
  lemma BehindMoves(q: Quote, lvl: seq<OpenOrder>, since: seq<bool>, j: nat, shares: Qty, open: Qty)
    requires InLine(q, lvl, since) && P.DistinctIds(lvl) && Before(since) <= j < |lvl|
    ensures q.Removed(lvl[j].id, shares) == q
    ensures InLine(q, P.Without(lvl, j), since[..j] + since[j + 1..])
    ensures InLine(q, lvl[j := lvl[j].(qty := open)], since)
  {
    var k := Before(since);
    PrefixHas(lvl, k, j);
    BeforeIs(since[..j] + since[j + 1..], k);
    assert P.Without(lvl, j)[..k] == lvl[..k] && lvl[j := lvl[j].(qty := open)][..k] == lvl[..k];
    hide P.TotalQty, P.HasId, P.DistinctIds;
  }

  lemma AheadIs(q: Quote, lvl: seq<OpenOrder>, since: seq<bool>, j: nat)
    requires InLine(q, lvl, since) && j < Before(since)
    ensures lvl[j].id in q.ahead && q.ahead[lvl[j].id] == lvl[j].qty
  {
    assert lvl[..Before(since)][j] == lvl[j];
  }

  /** An order ahead leaves, with all that is open of it. */
  lemma AheadLeaves(q: Quote, lvl: seq<OpenOrder>, since: seq<bool>, j: nat, shares: Qty)
    requires InLine(q, lvl, since) && P.DistinctIds(lvl) && j < Before(since) && shares >= lvl[j].qty
    ensures InLine(q.Removed(lvl[j].id, shares), P.Without(lvl, j), since[..j] + since[j + 1..])
  {
    hide P.TotalQty, P.HasId, P.DistinctIds, Lists, P.Without;
    var k := Before(since);
    var front := lvl[..k];
    AheadIs(q, lvl, since, j);
    BeforeIs(since[..j] + since[j + 1..], k - 1);
    PrefixWithout(lvl, k, j);
    L.TotalOfUpdate(front, j, front[j]);
    PrefixDistinct(lvl, k);
    ListsLeft(q.ahead, front, j);
  }

  lemma PrefixWithout(lvl: seq<OpenOrder>, k: nat, j: nat)
    requires j < k <= |lvl|
    ensures |P.Without(lvl, j)| == |lvl| - 1 && P.Without(lvl, j)[..k - 1] == P.Without(lvl[..k], j)
  {
  }

  lemma PrefixDistinct(lvl: seq<OpenOrder>, k: nat)
    requires P.DistinctIds(lvl) && k <= |lvl|
    ensures P.DistinctIds(lvl[..k])
  {
  }

  lemma ListsLeft(ahead: map<OrderId, Qty>, queue: seq<OpenOrder>, j: nat)
    requires Lists(ahead, queue) && P.DistinctIds(queue) && j < |queue|
    ensures Lists(ahead - {queue[j].id}, P.Without(queue, j))
  {
    hide P.HasId;
    var w := P.Without(queue, j);
    forall x
      ensures P.HasId(w, x) <==> P.HasId(queue, x) && x != queue[j].id
    {
      WithoutHas(queue, j, x);
    }
    assert forall i :: 0 <= i < |w| ==> w[i] == queue[if i < j then i else i + 1];
  }

  lemma ListsShrunk(ahead: map<OrderId, Qty>, queue: seq<OpenOrder>, j: nat, open: Qty)
    requires Lists(ahead, queue) && P.DistinctIds(queue) && j < |queue|
    ensures Lists(ahead[queue[j].id := open], queue[j := queue[j].(qty := open)])
  {
    var w := queue[j := queue[j].(qty := open)];
    forall x
      ensures P.HasId(w, x) <==> P.HasId(queue, x)
    {
      UpdateHas(queue, j, queue[j].(qty := open), x);
    }
    hide P.HasId;
  }

  /** An order ahead loses some of its shares. */
  lemma AheadShrinks(q: Quote, lvl: seq<OpenOrder>, since: seq<bool>, j: nat, shares: Qty)
    requires InLine(q, lvl, since) && P.DistinctIds(lvl) && j < Before(since) && shares < lvl[j].qty
    ensures InLine(q.Removed(lvl[j].id, shares), lvl[j := lvl[j].(qty := lvl[j].qty - shares)], since)
  {
    var k := Before(since);
    var front := lvl[..k];
    var o := lvl[j].(qty := lvl[j].qty - shares);
    AheadIs(q, lvl, since, j);
    assert lvl[j := o][..k] == front[j := o];
    L.TotalOfUpdate(front, j, o);
    PrefixDistinct(lvl, k);
    ListsShrunk(q.ahead, front, j, o.qty);
    hide P.TotalQty, P.HasId, P.DistinctIds, Lists;
  }

  /** An order somewhere else changes. */
  lemma ElsewhereMoves(q: Quote, lvl: seq<OpenOrder>, since: seq<bool>, id: OrderId, shares: Qty)
    requires InLine(q, lvl, since) && P.IndexOf(lvl, id) == |lvl|
    ensures q.Removed(id, shares) == q
  {
    assert forall i :: 0 <= i < Before(since) ==> lvl[..Before(since)][i] == lvl[i];
    assert !P.HasId(lvl, id);
  }

  /** Taking the shares an event names from the tracker keeps it in line with the queue that lost them. */
  lemma LineMoved(q: Quote, lvl: seq<OpenOrder>, since: seq<bool>, id: OrderId, shares: Qty, qty: Qty)
    requires InLine(q, lvl, since) && P.DistinctIds(lvl) && qty > 0
    requires var j := P.IndexOf(lvl, id); j < |lvl| ==> lvl[j].qty == qty
    ensures var open := qty - Min(shares, qty); var j := P.IndexOf(lvl, id);
      && (open == 0 && j < |lvl| ==> InLine(q.Removed(id, shares), Left(lvl, id), since[..j] + since[j + 1..]))
      && (open > 0 ==> InLine(q.Removed(id, shares), Shrunk(lvl, id, open), since))
      && (j == |lvl| ==> InLine(q.Removed(id, shares), lvl, since))
  {
    hide InLine, P.IndexOf, P.DistinctIds, P.Without, Before;
    var j := P.IndexOf(lvl, id);
    if j == |lvl| {
      ElsewhereMoves(q, lvl, since, id, shares);
    } else if j >= Before(since) {
      BehindMoves(q, lvl, since, j, shares, qty - Min(shares, qty));
    } else if shares >= qty {
      AheadLeaves(q, lvl, since, j, shares);
    } else {
      AheadShrinks(q, lvl, since, j, shares);
    }
  }

  // ----- both quotes, through one message

  function TakenFrom(q: Quote, ev: Option<OrderEvent>): Quote {
    if ev.None? then q else q.Removed(ev.value.id, ev.value.shares)
  }

  /** Through any message, the tracker that is told the shares leaving stays in line. */
  lemma LineShown(b: P.Book, e: Event, q: Quote, since: seq<bool>)
    requires b.Valid() && InLine(q, LevelAt(b.Queue(q.side), q.price), since)
    ensures InLine(TakenFrom(q, Peek(b, e)), LevelAt(I.Shown(b, e).Queue(q.side), q.price),
                   SinceAfter(b, e, q.side, q.price, since))
  {
    hide InLine, LevelAt, I.Shown, P.Book.Valid, P.Book.Has, P.Book.SideOf, P.Book.Find, P.IndexOf, Arriving;
    var lvl := LevelAt(b.Queue(q.side), q.price);
    var ev := Peek(b, e);
    QueueShown(b, e, q.side, q.price);
    var moved, stay := Moved(b, e, lvl), Stay(b, e, lvl, since);
    if ev.Some? {
      PeekFacts(b, e, q.side, q.price);
      SideDistinct(b, q.side);
      LevelDistinct(b.Queue(q.side), q.price);
      SameLength(q, lvl, since);
      LineMoved(q, lvl, since, ev.value.id, ev.value.shares, b.Find(ev.value.id).qty);
    }
    if Joins(b, e, q.side, q.price) {
      LineJoined(TakenFrom(q, ev), moved, stay, Arriving(b, e).value.1);
    } else {
      assert moved + [] == moved && stay + [] == stay;
    }
  }

  lemma SideDistinct(b: P.Book, s: Side)
    requires b.Valid()
    ensures P.DistinctIds(b.Queue(s))
  {
  }

  lemma SameLength(q: Quote, lvl: seq<OpenOrder>, since: seq<bool>)
    requires InLine(q, lvl, since)
    ensures |since| == |lvl|
  {
  }

  /** The order an event names, and its place in the queue of a price if it stands there. */
  lemma PeekFacts(b: P.Book, e: Event, s: Side, p: Price)
    requires b.Valid() && Peek(b, e).Some?
    ensures var id := Peek(b, e).value.id; var lvl := LevelAt(b.Queue(s), p);
      && b.Has(id) && b.Find(id).qty > 0 && Peek(b, e).value.side == b.SideOf(id)
      && P.IndexOf(lvl, id) <= |lvl| && (P.IndexOf(lvl, id) < |lvl| ==> lvl[P.IndexOf(lvl, id)].qty == b.Find(id).qty)
      && (s != b.SideOf(id) ==> P.IndexOf(lvl, id) == |lvl|)
  {
    hide LevelAt, P.Book.Valid, P.HasId, P.DistinctIds, P.Book.SideOf;
    var id := Peek(b, e).value.id;
    I.OpenQuantity(b, id);
    OnItsSide(b, id);
    NotThere(b, id, p);
    var k := P.IndexOf(b.Queue(b.SideOf(id)), id);
    if s == b.SideOf(id) {
      if b.Find(id).price == p {
        var j := LevelIndex(b.Queue(s), k);
      } else {
        OtherLevel(b.Queue(s), k, p);
      }
    }
  }

  datatype Quotes = Quotes(bid: Quote, ask: Quote)
  {
    function On(s: Side): Quote {
      if s == Bid then bid else ask
    }

    predicate Reached(ev: OrderEvent) {
      ev.isExecution && On(ev.side).AtFront() && On(ev.side).price == ev.price
    }
  }

  /** A print that reaches a quote at the front fills it; any other event moves the queues forward. */
  function QuotesAfter(qs: Quotes, ev: OrderEvent): Quotes {
    if qs.Reached(ev) then
      if ev.side == Bid then qs.(bid := qs.bid.Filled(ev.shares)) else qs.(ask := qs.ask.Filled(ev.shares))
    else Quotes(qs.bid.Removed(ev.id, ev.shares), qs.ask.Removed(ev.id, ev.shares))
  }

  /** A quote that is in the market is in line in the book's own queue of its side and price. */
  ghost predicate Stands(q: Quote, s: Side, b: P.Book, since: seq<bool>) {
    q.active ==> q.side == s && InLine(q, LevelAt(b.Queue(s), q.price), since)
  }

  lemma FillStands(q: Quote, s: Side, b: P.Book, since: seq<bool>, shares: Qty)
    requires Stands(q, s, b, since)
    ensures Stands(q.Filled(shares), s, b, since)
  {
  }

  /** Being at the front means that everyone who was there before has left the queue. */
  lemma FrontIff(q: Quote, s: Side, b: P.Book, since: seq<bool>)
    requires q.active && Stands(q, s, b, since)
    ensures |since| == |LevelAt(b.Queue(s), q.price)|
    ensures q.AtFront() <==> forall i :: 0 <= i < |since| ==> since[i]
  {
    var front := LevelAt(b.Queue(s), q.price)[..Before(since)];
    if front != [] {
      assert front[0].id in q.ahead;
    }
    assert front == [] ==> forall id :: !P.HasId(front, id);
  }

  /** Both quotes stay in line through any message and what the sandbox does about it. */
  lemma QuotesStand(b: P.Book, e: Event, qs: Quotes, s: Side, since: seq<bool>)
    requires b.Valid() && Stands(qs.On(s), s, b, since)
    ensures var after := if Peek(b, e).Some? then QuotesAfter(qs, Peek(b, e).value) else qs;
      Stands(after.On(s), s, I.Shown(b, e), SinceAfter(b, e, s, qs.On(s).price, since))
  {
    hide InLine, LevelAt, I.Shown, P.Book.Valid, SinceAfter, Peek;
    var q := qs.On(s);
    if q.active {
      LineShown(b, e, q, since);
      if Peek(b, e).Some? {
        var ev := Peek(b, e).value;
        if qs.Reached(ev) {
          if s == ev.side {
            FillStands(q, s, I.Shown(b, e), SinceAfter(b, e, s, q.price, since), ev.shares);
          } else {
            PeekFacts(b, e, s, q.price);
            ElsewhereMoves(q, LevelAt(b.Queue(s), q.price), since, ev.id, ev.shares);
          }
        }
      }
    }
  }
}
