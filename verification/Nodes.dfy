/** Order nodes and the intrusive FIFO of one price level (include/pricetime/level.hpp). */
module Nodes {
  import opened Types
  import P = Priority
  import L = BookLaws

  class Order {
    var id: OrderId
    var price: Price
    var qty: Qty
    var side: Side
    var participant: ParticipantId
    var prev: Order?
    var next: Order?
    var level: Level?

    constructor ()
      ensures IsBlank()
    {
      id, price, qty, side, participant := 0, 0, 0, Bid, 0;
      prev, next, level := null, null, null;
    }

    method Reset()
      modifies this
      ensures IsBlank()
    {
      id, price, qty, side, participant := 0, 0, 0, Bid, 0;
      prev, next, level := null, null, null;
    }

    ghost predicate IsBlank()
      reads this
    {
      id == 0 && price == 0 && qty == 0 && side == Bid && participant == 0
      && prev == null && next == null && level == null
    }

    ghost function Value(): OpenOrder
      reads this`id, this`price, this`qty, this`participant
    {
      OpenOrder(id, price, qty, participant)
    }
  }

  /** The queue of one level, oldest first, with its aggregates. `queue` lists the linked nodes and
      `vals` what they carry. */
  class Level {
    const price: Price
    var totalQty: nat
    var orderCount: nat
    var head: Order?
    var tail: Order?

    ghost var queue: seq<Order>
    ghost var vals: seq<OpenOrder>

    /** The nodes of `queue` are distinct and linked in order, both ways. */
    ghost predicate Chained()
      reads this`queue, this`head, this`tail, queue`prev, queue`next, queue`level
    {
      && Apart(queue)
      && (forall i {:trigger queue[i].level} :: 0 <= i < |queue| ==> queue[i].level == this)
      && (forall i {:trigger queue[i].prev} :: 0 <= i < |queue| ==>
            queue[i].prev == if i == 0 then null else queue[i - 1])
      && (forall i {:trigger queue[i].next} :: 0 <= i < |queue| ==>
            queue[i].next == if i + 1 == |queue| then null else queue[i + 1])
      && head == (if queue == [] then null else queue[0])
      && tail == (if queue == [] then null else queue[|queue| - 1])
    }

    ghost predicate Carries()
      reads this`queue, this`vals, queue`id, queue`price, queue`qty, queue`participant
    {
      |vals| == |queue| &&
      forall i {:trigger vals[i]} {:trigger queue[i].Value()} :: 0 <= i < |queue| ==> vals[i] == queue[i].Value()
    }

    ghost predicate Valid()
      reads this, queue
    {
      Chained() && Carries() && orderCount == |queue| && totalQty == P.TotalQty(vals)
    }

    constructor (price: Price)
      ensures Valid() && queue == [] && vals == [] && this.price == price
    {
      this.price := price;
      totalQty, orderCount, head, tail := 0, 0, null, null;
      queue, vals := [], [];
    }

    method PushBack(o: Order)
      requires Valid() && o.level == null
      modifies this`totalQty, this`orderCount, this`head, this`tail, this`queue, this`vals
      modifies o`prev, o`next, o`level, queue`next
      ensures Valid() && queue == old(queue) + [o] && vals == old(vals) + [o.Value()]
    {
      hide Chained;
      L.TotalOfConcat(vals, [o.Value()]);
      totalQty := totalQty + o.qty;
      orderCount := orderCount + 1;
      vals := vals + [o.Value()];
      Link(o);
      assert Carries();
      hide Carries;
    }

    /** The pointer part of `PushBack`. */
    method Link(o: Order)
      requires Chained() && o.level == null
      modifies this`head, this`tail, this`queue, o`prev, o`next, o`level, queue`next
      ensures Chained() && queue == old(queue) + [o]
    {
      ghost var q := queue;
      o.prev := tail;
      o.next := null;
      o.level := this;
      if tail != null {
        tail.next := o;
      } else {
        head := o;
      }
      tail := o;
      queue := queue + [o];
      assert Apart(q + [o]);
      hide Apart;
      assert forall i :: 0 <= i < |q| ==> queue[i] == q[i];
    }

    method Reduce(o: Order, delta: Qty, ghost k: nat)
      requires Valid() && k < |queue| && queue[k] == o && delta <= o.qty
      modifies this`totalQty, this`vals, o`qty
      ensures Valid() && o.qty == old(o.qty) - delta
      ensures vals == old(vals)[k := old(vals)[k].(qty := o.qty)]
    {
      assert vals[k] == o.Value();
      L.TotalOfUpdate(vals, k, vals[k].(qty := o.qty - delta));
      o.qty := o.qty - delta;
      totalQty := totalQty - delta;
      vals := vals[k := vals[k].(qty := o.qty)];
      assert Chained() by {
        hide *;
      }
      hide Chained;
      assert Carries();
      hide Carries;
    }

    method Remove(o: Order, ghost k: nat)
      requires Valid() && k < |queue| && queue[k] == o
      modifies this`totalQty, this`orderCount, this`head, this`tail, this`queue, this`vals
      modifies queue`prev, queue`next, o`level
      ensures Valid() && o.prev == null && o.next == null && o.level == null
      ensures queue == Without(old(queue), k) && vals == P.Without(old(vals), k)
    {
      hide Chained;
      L.TotalOfUpdate(vals, k, vals[k]);
      totalQty := totalQty - o.qty;
      orderCount := orderCount - 1;
      vals := P.Without(vals, k);
      Unlink(o, k);
      assert Carries() by {
        WithoutAt(old(queue), k);
        forall i | 0 <= i < |queue|
          ensures vals[i] == queue[i].Value()
        {
          assert vals[i] == old(vals)[if i < k then i else i + 1];
        }
      }
      hide Carries;
    }

    /** The pointer part of `Remove`. */
    method Unlink(o: Order, ghost k: nat)
      requires Chained() && k < |queue| && queue[k] == o
      modifies this`head, this`tail, this`queue, queue`prev, queue`next, o`level
      ensures Chained() && o.prev == null && o.next == null && o.level == null
      ensures queue == Without(old(queue), k)
    {
      assert Apart(queue);
      if o.prev != null {
        o.prev.next := o.next;
      } else {
        head := o.next;
      }
      if o.next != null {
        o.next.prev := o.prev;
      } else {
        tail := o.prev;
      }
      o.prev := null;
      o.next := null;
      o.level := null;
      queue := Without(queue, k);
      hide Apart;
      Spliced(k);
    }

    /** The two neighbours of place `k` now name each other, and nothing else has moved. */
    twostate lemma Spliced(k: nat)
      requires old(Chained()) && k < |old(queue)| && queue == Without(old(queue), k)
      requires forall i :: 0 <= i < |old(queue)| && i != k ==> old(queue)[i].level == this
      requires forall i :: 0 <= i < |old(queue)| && i != k && i != k + 1 ==> old(queue)[i].prev == old(queue[i].prev)
      requires forall i :: 0 <= i < |old(queue)| && i != k && i + 1 != k ==> old(queue)[i].next == old(queue[i].next)
      requires k + 1 < |old(queue)| ==> old(queue)[k + 1].prev == old(queue[k].prev)
      requires k > 0 ==> old(queue)[k - 1].next == old(queue[k].next)
      requires head == (if k == 0 then old(queue[k].next) else old(head))
      requires tail == (if k + 1 == |old(queue)| then old(queue[k].prev) else old(tail))
      ensures Chained()
    {
      hide Chained;
      SplicedNodes(k);
      hide Without, Apart;
      SplicedBack(k);
      SplicedOn(k);
      SplicedEnds(k);
      Relinked();
    }

    lemma Relinked()
      requires Apart(queue) && forall i {:trigger queue[i].level} :: 0 <= i < |queue| ==> queue[i].level == this
      requires forall i {:trigger queue[i].prev} :: 0 <= i < |queue| ==>
                 queue[i].prev == if i == 0 then null else queue[i - 1]
      requires forall i {:trigger queue[i].next} :: 0 <= i < |queue| ==>
                 queue[i].next == if i + 1 == |queue| then null else queue[i + 1]
      requires head == (if queue == [] then null else queue[0])
      requires tail == (if queue == [] then null else queue[|queue| - 1])
      ensures Chained()
    {
      hide Apart;
    }

    twostate lemma SplicedNodes(k: nat)
      requires old(Chained()) && k < |old(queue)| && queue == Without(old(queue), k)
      requires forall i :: 0 <= i < |old(queue)| && i != k ==> old(queue)[i].level == this
      ensures Apart(queue) && |queue| == |old(queue)| - 1
      ensures forall j :: 0 <= j < |queue| ==> queue[j] == old(queue)[if j < k then j else j + 1]
      ensures forall j {:trigger queue[j].level} :: 0 <= j < |queue| ==> queue[j].level == this
    {
      WithoutApart(old(queue), k);
      WithoutAt(old(queue), k);
      hide Without, Apart;
    }

    twostate lemma SplicedEnds(k: nat)
      requires old(Chained()) && k < |old(queue)| && |queue| == |old(queue)| - 1
      requires forall j :: 0 <= j < |queue| ==> queue[j] == old(queue)[if j < k then j else j + 1]
      requires head == (if k == 0 then old(queue[k].next) else old(head))
      requires tail == (if k + 1 == |old(queue)| then old(queue[k].prev) else old(tail))
      ensures head == (if queue == [] then null else queue[0])
      ensures tail == (if queue == [] then null else queue[|queue| - 1])
    {
    }

    /** Every node but the second neighbour names the same node before it as it did. */
    twostate lemma SplicedBack(k: nat)
      requires k < |old(queue)| && |queue| == |old(queue)| - 1
      requires forall j :: 0 <= j < |queue| ==> queue[j] == old(queue)[if j < k then j else j + 1]
      requires old(Chained())
      requires forall i :: 0 <= i < |old(queue)| && i != k && i != k + 1 ==> old(queue)[i].prev == old(queue[i].prev)
      requires k + 1 < |old(queue)| ==> old(queue)[k + 1].prev == old(queue[k].prev)
      ensures forall j {:trigger queue[j].prev} :: 0 <= j < |queue| ==>
                queue[j].prev == if j == 0 then null else queue[j - 1]
    {
      forall j | 0 <= j < |queue|
        ensures queue[j].prev == if j == 0 then null else queue[j - 1]
      {
        assert j > 0 ==> queue[j - 1] == old(queue)[if j <= k then j - 1 else j];
      }
    }

    /** Every node but the first neighbour names the same node after it as it did. */
    twostate lemma SplicedOn(k: nat)
      requires k < |old(queue)| && |queue| == |old(queue)| - 1
      requires forall j :: 0 <= j < |queue| ==> queue[j] == old(queue)[if j < k then j else j + 1]
      requires old(Chained())
      requires forall i :: 0 <= i < |old(queue)| && i != k && i + 1 != k ==> old(queue)[i].next == old(queue[i].next)
      requires k > 0 ==> old(queue)[k - 1].next == old(queue[k].next)
      ensures forall j {:trigger queue[j].next} :: 0 <= j < |queue| ==>
                queue[j].next == if j + 1 == |queue| then null else queue[j + 1]
    {
      forall j | 0 <= j < |queue|
        ensures queue[j].next == if j + 1 == |queue| then null else queue[j + 1]
      {
        assert j + 1 < |queue| ==> queue[j + 1] == old(queue)[if j + 1 < k then j + 1 else j + 2];
      }
    }
  }

  /** What a valid level tells about its nodes and aggregates. */
  lemma LevelFacts(l: Level)
    requires l.Valid()
    ensures |l.vals| == |l.queue| == l.orderCount && l.totalQty == P.TotalQty(l.vals)
    ensures forall n :: n in l.queue ==> n.level == l
    ensures forall i {:trigger l.vals[i]} :: 0 <= i < |l.queue| ==> l.vals[i] == l.queue[i].Value()
    ensures forall i, j :: 0 <= i < j < |l.queue| ==> l.queue[i] != l.queue[j]
    ensures l.head == if l.queue == [] then null else l.queue[0]
  {
  }

  lemma NextInQueue(l: Level, k: nat)
    requires l.Valid() && k < |l.queue|
    ensures l.queue[k].next == if k + 1 == |l.queue| then null else l.queue[k + 1]
  {
  }

  /** A level stays valid while neither it nor any node it links changes. */
  twostate lemma StaysValid(l: Level)
    requires old(l.Valid()) && unchanged(l)
    requires forall i :: 0 <= i < |l.queue| ==> unchanged(l.queue[i])
    ensures l.Valid()
  {
  }

  // ----- links as positions

  ghost predicate Apart(q: seq<Order>) {
    forall i, j :: 0 <= i < j < |q| ==> q[i] != q[j]
  }

  ghost function Without(q: seq<Order>, k: nat): seq<Order>
    requires k < |q|
  {
    q[..k] + q[k + 1..]
  }

  lemma WithoutMembers(q: seq<Order>, k: nat)
    requires Apart(q) && k < |q|
    ensures forall n :: n in Without(q, k) <==> n in q && n != q[k]
  {
    assert q == q[..k] + [q[k]] + q[k + 1..];
  }

  lemma WithoutAt(q: seq<Order>, k: nat)
    requires k < |q|
    ensures |Without(q, k)| == |q| - 1
    ensures forall i :: 0 <= i < |Without(q, k)| ==> Without(q, k)[i] == q[if i < k then i else i + 1]
  {
  }

  lemma WithoutApart(q: seq<Order>, k: nat)
    requires Apart(q) && k < |q|
    ensures Apart(Without(q, k)) && q[k] !in Without(q, k)
  {
  }
}
