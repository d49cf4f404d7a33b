/** The arena of order nodes with its intrusive free list (include/pricetime/order_pool.hpp). */
module Pool {
  import opened Types
  import opened Nodes

  const CHUNK_SIZE: nat := 4096

  class OrderPool {
    var chunks: seq<seq<Order>>
    var usedInLast: nat
    var total: nat
    var freeHead: Order?

    /** The free list from its head, the nodes of the last chunk not yet used, the nodes handed out
        and not yet released, the nodes ever handed out, and every node of every chunk. */
    ghost var free: seq<Order>
    ghost var spare: seq<Order>
    ghost var out: set<Order>
    ghost var handed: set<Order>
    ghost var nodes: set<Order>
    /** The largest number of nodes ever out at one time. */
    ghost var peak: nat

    ghost predicate FreeChain()
      reads this`free, this`freeHead, free`next, free`level
    {
      && Apart(free)
      && freeHead == (if free == [] then null else free[0])
      && (forall i {:trigger free[i].next} :: 0 <= i < |free| ==>
            free[i].next == if i + 1 == |free| then null else free[i + 1])
      && (forall i {:trigger free[i].level} :: 0 <= i < |free| ==> free[i].level == null)
    }

    /** The unused tail of the last chunk holds distinct, blank nodes nobody has seen. */
    ghost predicate Unused()
      reads this`chunks, this`usedInLast, this`spare, this`handed, this`nodes, spare
    {
      && usedInLast <= CHUNK_SIZE
      && (chunks == [] ==> usedInLast == CHUNK_SIZE && spare == [])
      && (chunks != [] ==>
            var last := chunks[|chunks| - 1];
            |last| == CHUNK_SIZE && spare == last[usedInLast..])
      && Apart(spare)
      && forall i {:trigger spare[i]} :: 0 <= i < |spare| ==>
           spare[i] in nodes && spare[i] !in handed && spare[i].IsBlank()
    }

    ghost predicate Counted()
      reads this`free, this`out, this`handed, this`nodes, this`total, this`peak
    {
      && handed <= nodes
      && out <= handed
      && (forall o :: o in free ==> o in handed && o !in out)
      && (forall o :: o in handed ==> o in out || o in free)
      && total == |handed| == |out| + |free| == peak
    }

    ghost predicate Valid()
      reads this, free, spare
    {
      FreeChain() && Unused() && Counted()
    }

    constructor ()
      ensures Valid() && out == {} && nodes == {} && free == [] && spare == [] && peak == 0
    {
      chunks, usedInLast, total, freeHead := [], CHUNK_SIZE, 0, null;
      free, spare, out, handed, nodes, peak := [], [], {}, {}, {}, 0;
    }

    /** Nodes that are out are neither free nor spare, and all nodes are in the arena. */
    lemma Apartness()
      requires Valid()
      ensures out <= nodes && forall n :: n in free ==> n in nodes && n !in out && n.level == null
      ensures forall n :: n in spare ==> n in nodes && n !in out && n !in free && n.level == null
    {
    }

    /** The pool stays valid while neither it nor the nodes it keeps change. */
    twostate lemma Untouched()
      requires old(Valid()) && unchanged(this)
      requires forall i :: 0 <= i < |free| ==> unchanged(free[i])
      requires forall i :: 0 <= i < |spare| ==> unchanged(spare[i])
      ensures Valid()
    {
    }

    static method NewChunk() returns (chunk: seq<Order>)
      ensures |chunk| == CHUNK_SIZE && Apart(chunk)
      ensures forall i :: 0 <= i < |chunk| ==> fresh(chunk[i]) && chunk[i].IsBlank()
    {
      chunk := [];
      for i := 0 to CHUNK_SIZE
        invariant |chunk| == i && Apart(chunk)
        invariant forall k :: 0 <= k < i ==> fresh(chunk[k]) && chunk[k].IsBlank()
      {
        var o := new Order();
        chunk := chunk + [o];
      }
    }

    method Alloc() returns (o: Order)
      requires Valid()
      modifies this, free
      ensures Valid() && o.IsBlank()
      ensures out == old(out) + {o} && o !in old(out)
      ensures o in nodes && old(nodes) <= nodes && fresh(nodes - old(nodes))
      ensures total == old(total) + if old(freeHead) == null then 1 else 0
      ensures forall n :: n in old(free) && n != o ==> unchanged(n)
    {
      assert freeHead != null ==> freeHead in free;
      assert usedInLast <= CHUNK_SIZE;
      hide FreeChain, Unused, Counted;
      if freeHead != null {
        o := Recycle();
      } else {
        if usedInLast == CHUNK_SIZE {
          Refill();
        }
        o := TakeFresh();
      }
    }

    method Recycle() returns (o: Order)
      requires Valid() && freeHead != null
      modifies this`freeHead, this`free, this`out, this`peak, freeHead
      ensures Valid() && o == old(freeHead) && o.IsBlank()
      ensures out == old(out) + {o} && o !in old(out) && o in nodes && free == old(free)[1..]
    {
      o := freeHead;
      ghost var rest := free[1..];
      assert free == [o] + rest && Apart(rest) && o !in rest && o.level == null;
      assert o !in spare by {
        hide FreeChain;
      }
      hide Unused, Counted, Apart;
      freeHead := o.next;
      TakeOff(o);
      o.Reset();
      assert FreeChain() by {
        assert forall i {:trigger rest[i]} :: 0 <= i < |rest| ==> rest[i] == old(free)[i + 1];
      }
      hide FreeChain;
    }

    /** The accounting of handing out the head of the free list. */
    ghost method TakeOff(o: Order)
      requires Counted() && free != [] && o == free[0] && o !in free[1..]
      modifies this`free, this`out, this`peak
      ensures Counted() && free == old(free)[1..] && out == old(out) + {o} && o !in old(out) && o in handed
    {
      var rest := free[1..];
      assert free == [o] + rest;
      free := rest;
      out := out + {o};
      peak := Max(|out|, peak);
    }

    method Refill()
      requires Valid() && usedInLast == CHUNK_SIZE
      modifies this`chunks, this`usedInLast, this`spare, this`nodes
      ensures Valid() && usedInLast < CHUNK_SIZE
      ensures old(nodes) <= nodes && fresh(nodes - old(nodes))
    {
      hide FreeChain;
      var chunk := NewChunk();
      chunks := chunks + [chunk];
      usedInLast := 0;
      spare := chunk;
      nodes := nodes + set n | n in chunk;
    }

    /** No free head, no free list. */
    lemma NoneReleased()
      requires FreeChain() && freeHead == null
      ensures free == []
    {
    }

    /** The next spare node and those behind it. */
    lemma SpareFirst(o: Order)
      requires Unused() && usedInLast < CHUNK_SIZE && o == chunks[|chunks| - 1][usedInLast]
      ensures spare != [] && spare[0] == o && o in nodes && o !in handed && o.IsBlank()
      ensures Apart(spare[1..]) && o !in spare[1..]
    {
      assert spare == [o] + spare[1..];
    }

    method TakeFresh() returns (o: Order)
      requires Valid() && freeHead == null && usedInLast < CHUNK_SIZE
      modifies this`total, this`usedInLast, this`spare, this`handed, this`out, this`peak
      ensures Valid() && o.IsBlank() && o in nodes
      ensures out == old(out) + {o} && o !in old(out) && total == old(total) + 1
    {
      hide FreeChain, Apart, Counted;
      NoneReleased();
      ghost var rest := spare[1..];
      o := chunks[|chunks| - 1][usedInLast];
      SpareFirst(o);
      usedInLast := usedInLast + 1;
      spare := rest;
      HandOut(o);
      assert Unused() by {
        assert forall i {:trigger rest[i]} :: 0 <= i < |rest| ==> rest[i] == old(spare)[i + 1];
      }
      hide Unused;
    }

    /** The accounting of a first handing-out, which only happens when no released node is free. */
    method HandOut(o: Order)
      requires Counted() && free == [] && o in nodes && o !in handed
      modifies this`total, this`handed, this`out, this`peak
      ensures Counted() && handed == old(handed) + {o} && out == old(out) + {o} && o !in old(out)
      ensures total == old(total) + 1
    {
      total := total + 1;
      handed := handed + {o};
      out := out + {o};
      peak := Max(|out|, peak);
    }

    method Release(o: Order)
      requires Valid() && o in out && o.level == null
      modifies this`freeHead, this`free, this`out, o`next
      ensures Valid() && out == old(out) - {o} && free == [o] + old(free)
    {
      o.next := freeHead;
      freeHead := o;
      free := [o] + free;
      out := out - {o};
    }
  }
}
