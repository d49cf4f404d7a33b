/** Price ladders: which level stands at a price, which is best, and the walk from best to worst, for the
    ordered map of include/pricetime/ladder_map.hpp and the contiguous band of
    include/pricetime/ladder_dense.hpp. */
module Ladder {
  import opened Types
  import opened Nodes
  import opened Fifos
  import P = Priority

  // ----- the keys of one side, best first

  /** The first key that `p` does not come after: `lower_bound` in the side's order. */
  function KeySlot(s: Side, keys: seq<Price>, p: Price): (k: nat)
    ensures k <= |keys|
    ensures forall i :: 0 <= i < k ==> Better(s, keys[i], p)
    ensures k < |keys| ==> !Better(s, keys[k], p)
  {
    if keys == [] || !Better(s, keys[0], p) then 0 else 1 + KeySlot(s, keys[1..], p)
  }

  lemma {:induction false} KeySlotIs(s: Side, keys: seq<Price>, p: Price, k: nat)
    requires k <= |keys| && (k < |keys| ==> !Better(s, keys[k], p))
    requires forall i :: 0 <= i < k ==> Better(s, keys[i], p)
    ensures KeySlot(s, keys, p) == k
  {
    if k > 0 {
      KeySlotIs(s, keys[1..], p, k - 1);
    }
  }

  function WithKey(s: Side, keys: seq<Price>, p: Price): seq<Price> {
    var k := KeySlot(s, keys, p);
    if k < |keys| && keys[k] == p then keys else keys[..k] + [p] + keys[k..]
  }

  function WithoutKey(s: Side, keys: seq<Price>, p: Price): seq<Price> {
    var k := KeySlot(s, keys, p);
    if k < |keys| && keys[k] == p then keys[..k] + keys[k + 1..] else keys
  }

  lemma WithKeySorted(s: Side, keys: seq<Price>, p: Price)
    requires SortedKeys(s, keys)
    ensures SortedKeys(s, WithKey(s, keys, p))
    ensures forall q :: q in WithKey(s, keys, p) <==> q == p || q in keys
    ensures p in keys <==> KeySlot(s, keys, p) < |keys| && keys[KeySlot(s, keys, p)] == p
  {
    var k := KeySlot(s, keys, p);
    if !(k < |keys| && keys[k] == p) {
      var w := keys[..k] + [p] + keys[k..];
      assert forall i :: 0 <= i < |w| ==> w[i] == if i < k then keys[i] else if i == k then p else keys[i - 1];
      Spliced(keys, k, p);
    }
  }

  lemma Spliced(keys: seq<Price>, k: nat, p: Price)
    requires k <= |keys|
    ensures forall q :: q in keys[..k] + [p] + keys[k..] <==> q == p || q in keys
  {
    assert keys == keys[..k] + keys[k..];
  }

  lemma WithoutKeySorted(s: Side, keys: seq<Price>, k: nat)
    requires SortedKeys(s, keys) && k < |keys|
    ensures WithoutKey(s, keys, keys[k]) == keys[..k] + keys[k + 1..]
    ensures SortedKeys(s, keys[..k] + keys[k + 1..])
    ensures forall q :: q in keys[..k] + keys[k + 1..] <==> q in keys && q != keys[k]
  {
    KeySlotIs(s, keys, keys[k], k);
    var o := keys[..k] + keys[k + 1..];
    assert keys == keys[..k] + [keys[k]] + keys[k + 1..];
    assert forall i :: 0 <= i < |o| ==> o[i] == keys[if i < k then i else i + 1];
  }

  /** What a best-to-worst walk visits when it stops after the first price that `keep` refuses. */
  function Visited(keys: seq<Price>, keep: Price -> bool): seq<Price> {
    if keys == [] then [] else [keys[0]] + if keep(keys[0]) then Visited(keys[1..], keep) else []
  }

  lemma VisitedFrom(keys: seq<Price>, i: nat, keep: Price -> bool, visited: seq<Price>)
    requires i < |keys|
    ensures visited + Visited(keys[i..], keep) ==
            visited + [keys[i]] + if keep(keys[i]) then Visited(keys[i + 1..], keep) else []
  {
    assert keys[i..][1..] == keys[i + 1..];
  }

  // ----- where a ladder keeps its levels

  const NONE: int := -1

  /** The levels of one side: the ordered map's entries, best first; or the band's slots, one per price from
      its lowest on, with the index of the best level and the number of levels open. A slot whose level
      holds no orders is null. */
  datatype Store =
    | Tree(prices: seq<Price>, entries: seq<Level>)
    | Band(slots: seq<Level?>, best: int, active: nat)

  function Span(range: PriceRange): nat {
    if range.Within? && range.lo <= range.hi then range.hi - range.lo + 1 else 0
  }

  /** Index `i` of the band is before index `j` on side `s`. */
  predicate Ahead(s: Side, i: int, j: int) {
    if s == Bid then i > j else i < j
  }

  function Step(s: Side): int {
    if s == Bid then -1 else 1
  }

  function BestOf(lo: Price, keys: seq<Price>): int {
    if keys == [] then NONE else keys[0] - lo
  }

  /** The slots hold the levels at their prices, and nothing else. */
  ghost predicate Slotted(lo: Price, slots: seq<Level?>, keys: seq<Price>, levels: seq<Level>) {
    && |levels| == |keys|
    && (forall i :: 0 <= i < |slots| && slots[i] != null ==> lo + i in keys)
    && forall k :: 0 <= k < |keys| ==> 0 <= keys[k] - lo < |slots| && slots[keys[k] - lo] == levels[k]
  }

  /** The store holds the levels `levels` at the prices `keys`, best first. */
  ghost predicate Lists(range: PriceRange, store: Store, keys: seq<Price>, levels: seq<Level>) {
    match store
    case Tree(prices, entries) => range.Unbounded? && prices == keys && entries == levels
    case Band(slots, best, active) =>
      && range.Within? && |slots| == Span(range) && Slotted(range.lo, slots, keys, levels)
      && active == |keys| && best == BestOf(range.lo, keys)
  }

  /** Opening slot `i` for a level at place `k` keeps the slots in step. */
  lemma SlotOpened(lo: Price, slots: seq<Level?>, keys: seq<Price>, levels: seq<Level>, i: nat, k: nat, lvl: Level)
    requires Slotted(lo, slots, keys, levels) && i < |slots| && slots[i] == null && k <= |keys|
    ensures Slotted(lo, slots[i := lvl], keys[..k] + [lo + i] + keys[k..], levels[..k] + [lvl] + levels[k..])
  {
    var more, all := keys[..k] + [lo + i] + keys[k..], levels[..k] + [lvl] + levels[k..];
    Spliced(keys, k, lo + i);
    assert |more| == |keys| + 1 && more[k] == lo + i && all[k] == lvl;
    forall j | 0 <= j < |more| && j != k
      ensures 0 <= more[j] - lo < |slots| && slots[i := lvl][more[j] - lo] == all[j]
    {
      var t := if j < k then j else j - 1;
      assert more[j] == keys[t] && all[j] == levels[t];
    }
  }

  /** Comparing a new index with the cached best finds the new best. */
  lemma BestOpened(s: Side, lo: Price, slots: seq<Level?>, keys: seq<Price>, levels: seq<Level>, i: nat)
    requires Slotted(lo, slots, keys, levels) && i < |slots| && slots[i] == null
    ensures var k := KeySlot(s, keys, lo + i);
            var best := BestOf(lo, keys);
            BestOf(lo, keys[..k] + [lo + i] + keys[k..])
            == if best == NONE || Ahead(s, i, best) then i else best
  {
    if keys != [] {
      assert keys[0] != lo + i;
    }
  }

  /** Clearing the slot of level `k` keeps the slots in step. */
  lemma SlotCleared(lo: Price, slots: seq<Level?>, keys: seq<Price>, levels: seq<Level>, k: nat)
    requires Slotted(lo, slots, keys, levels) && k < |keys|
    requires forall j :: 0 <= j < |keys| && j != k ==> keys[j] != keys[k]
    ensures 0 <= keys[k] - lo < |slots|
    ensures Slotted(lo, slots[keys[k] - lo := null], keys[..k] + keys[k + 1..], levels[..k] + levels[k + 1..])
  {
    var p := keys[k];
    var less, left, rest := keys[..k] + keys[k + 1..], levels[..k] + levels[k + 1..], slots[p - lo := null];
    forall j | 0 <= j < |less|
      ensures 0 <= less[j] - lo < |slots| && rest[less[j] - lo] == left[j]
    {
      var t := if j < k then j else j + 1;
      assert less[j] == keys[t] != p && left[j] == levels[t];
    }
    forall i | 0 <= i < |rest| && rest[i] != null
      ensures lo + i in less
    {
      assert slots[i] != null;
      var t :| 0 <= t < |keys| && keys[t] == lo + i;
      assert less[if t < k then t else t - 1] == lo + i;
    }
  }

  lemma OnlyFirstIsBest(s: Side, lo: Price, keys: seq<Price>, k: nat)
    requires SortedKeys(s, keys) && k < |keys|
    ensures k == 0 <==> keys[k] - lo == BestOf(lo, keys)
    ensures forall j :: 0 <= j < |keys| && j != k ==> keys[j] != keys[k]
    ensures forall j :: k < j < |keys| ==> Ahead(s, keys[k] - lo, keys[j] - lo)
  {
  }

  /** From a slot after level `n - 1` and before level `n`, scans toward worse prices until it meets a
      slot that is still open: that of level `n`. */
  method Scan(s: Side, lo: Price, slots: seq<Level?>, from: int, ghost keys: seq<Price>, ghost levels: seq<Level>,
              ghost n: nat)
    returns (i: int)
    requires SortedKeys(s, keys) && Slotted(lo, slots, keys, levels) && n < |keys|
    requires 0 <= from < |slots| && Ahead(s, from, keys[n] - lo)
    requires forall m :: 0 <= m < n ==> !Ahead(s, from, keys[m] - lo)
    ensures i == keys[n] - lo
  {
    ghost var target := keys[n] - lo;
    i := from + Step(s);
    while slots[i] == null
      invariant Ahead(s, from, i) && (i == target || Ahead(s, i, target)) && 0 <= i < |slots|
      decreases if s == Bid then i - target else target - i
    {
      i := i + Step(s);
    }
    ghost var m :| 0 <= m < |keys| && keys[m] == lo + i;
    assert m < n ==> !Ahead(s, from, keys[m] - lo);
  }

  // ----- one side of a ladder

  /** One side of a ladder: an ordered map from price to level when any price will do, or a band with a slot
      for each price in `range`. `keys` and `levels` list what the store holds, best first, and `fifos`
      the contents of each level. */
  class LevelMap {
    const side: Side
    const range: PriceRange
    var store: Store

    ghost var keys: seq<Price>
    ghost var levels: seq<Level>
    ghost var fifos: seq<Fifo>
    ghost var nodes: set<Order>

    ghost predicate Stored()
      reads this`store, this`keys, this`levels
    {
      Lists(range, store, keys, levels)
    }

    ghost predicate Ordered()
      reads this`keys, this`levels
    {
      && |keys| == |levels|
      && SortedKeys(side, keys)
      && forall i {:trigger levels[i].price} :: 0 <= i < |levels| ==> levels[i].price == keys[i]
    }

    /** Level `i` is a well-formed queue of this map's nodes holding what `fifos` says. */
    ghost predicate Holding(i: nat)
      requires i < |levels|
      reads this, levels[i], nodes
    {
      var l := levels[i];
      && (forall k :: 0 <= k < |l.queue| ==> l.queue[k] in nodes)
      && l.Valid()
      && |fifos| == |levels| && fifos[i] == l.vals
      && forall k :: 0 <= k < |l.queue| ==> l.queue[k].side == side && l.queue[k].price == l.price
    }

    ghost predicate Placed(n: Order)
      reads this`levels, n`level, levels`queue
    {
      n.level != null && n.level in levels && n in n.level.queue
    }

    ghost predicate Valid()
      reads this, levels, nodes
    {
      && Ordered() && Stored() && |fifos| == |levels|
      && (forall i {:trigger levels[i]} :: 0 <= i < |levels| ==> Holding(i))
      && (forall n :: n in nodes ==> Placed(n))
    }

    constructor (side: Side, range: PriceRange)
      ensures Valid() && this.side == side && this.range == range
      ensures keys == [] && levels == [] && fifos == [] && nodes == {}
    {
      this.side, this.range := side, range;
      store := if range.Unbounded? then Tree([], []) else Band(seq(Span(range), _ => null), NONE, 0);
      keys, levels, fifos, nodes := [], [], [], {};
    }

    /** The levels share no node. */
    lemma LevelsApart(i: nat, j: nat)
      requires Valid() && i < |levels| && j < |levels| && i != j
      ensures levels[i] != levels[j]
      ensures forall m :: 0 <= m < |levels[j].queue| ==> levels[j].queue[m] !in levels[i].queue
    {
      assert Holding(i) && Holding(j);
      assert levels[i].price != levels[j].price;
      LevelFacts(levels[i]);
      LevelFacts(levels[j]);
    }

    /** What taking `o` out of level `i` changes, seen from this map. */
    twostate predicate Left(i: nat, o: Order)
      reads this, levels, nodes
    {
      && unchanged(`store, `keys, `levels) && i < |levels|
      && nodes == old(nodes) - {o}
      && |old(fifos)| == |levels| && fifos == old(fifos)[i := levels[i].vals]
      && (forall j :: 0 <= j < |levels| && j != i ==>
            levels[j].queue == old(levels[j].queue) && levels[j].vals == old(levels[j].vals)
            && o !in old(levels[j].queue))
      && (forall n :: n in levels[i].queue ==> n in old(levels[i].queue) && n != o)
      && (forall n :: n in old(levels[i].queue) && n != o ==> n in levels[i].queue)
      && (forall n :: n in nodes ==>
            n.level == old(n.level) && n.side == old(n.side) && n.price == old(n.price) && n.id == old(n.id))
    }

    /** Level `i` and the others: all well formed, and no node in two of them. */
    lemma Part(i: nat)
      requires Valid() && i < |levels|
      ensures levels[i].Valid() && Nodes.Apart(levels[i].queue) && |fifos| == |levels|
      ensures forall m :: 0 <= m < |levels[i].queue| ==> levels[i].queue[m] in nodes
      ensures forall j :: 0 <= j < |levels| && j != i ==> levels[j] != levels[i] && levels[j].Valid()
      ensures forall j, m :: 0 <= j < |levels| && j != i && 0 <= m < |levels[j].queue| ==>
                levels[j].queue[m] in nodes && levels[j].queue[m] !in levels[i].queue
    {
      forall j | 0 <= j < |levels| && j != i
        ensures levels[j] != levels[i] && levels[j].Valid()
        ensures forall m :: 0 <= m < |levels[j].queue| ==>
                  levels[j].queue[m] in nodes && levels[j].queue[m] !in levels[i].queue
      {
        LevelsApart(i, j);
        assert Holding(j);
      }
      assert Holding(i);
      LevelFacts(levels[i]);
    }

    /** The pointer part of `Unlink`: one level loses the node, the others are not touched. */
    method RemoveFrom(lvl: Level, o: Order, ghost i: nat, ghost k: nat)
      requires Valid() && i < |levels| && levels[i] == lvl && k < |lvl.queue| && lvl.queue[k] == o
      modifies this`fifos, this`nodes, levels, nodes`prev, nodes`next, nodes`level
      ensures Left(i, o) && o.level == null
      ensures forall j :: 0 <= j < |levels| ==> levels[j].Valid()
      ensures levels[i].vals == P.Without(old(levels[i].vals), k)
    {
      hide Level.Valid, LevelMap.Valid, Apart;
      Part(i);
      WithoutMembers(lvl.queue, k);
      lvl.Remove(o, k);
      forall j | 0 <= j < |levels| && j != i
        ensures levels[j].Valid()
      {
        StaysValid(levels[j]);
      }
      fifos := fifos[i := lvl.vals];
      nodes := nodes - {o};
    }

    /** A level the node did not leave holds what it held; the one it left holds the rest. */
    twostate lemma HoldingKept(new i: nat, new j: nat, o: Order)
      requires Left(i, o) && j < |levels| && old(Holding(j)) && levels[j].Valid()
      ensures Holding(j)
    {
      hide Level.Valid;
      forall m | 0 <= m < |levels[j].queue|
        ensures levels[j].queue[m] in nodes
        ensures levels[j].queue[m].side == side && levels[j].queue[m].price == levels[j].price
      {
        var n := levels[j].queue[m];
        assert n in levels[j].queue;
        assert n in old(levels[j].queue);
        assert n in old(nodes);
      }
    }

    twostate lemma PlacedKept(new i: nat, n: Order, new o: Order)
      requires old(allocated(o))
      requires Left(i, o) && n in nodes && old(Placed(n))
      ensures Placed(n)
    {
      hide Level.Valid;
    }

    twostate lemma LeftValid(new i: nat, o: Order)
      requires old(Valid()) && Left(i, o) && forall j :: 0 <= j < |levels| ==> levels[j].Valid()
      ensures Valid()
    {
      forall j | 0 <= j < |levels|
        ensures Holding(j)
      {
        assert old(Holding(j));
        HoldingKept(i, j, o);
      }
      forall n | n in nodes
        ensures Placed(n)
      {
        assert old(Placed(n));
        PlacedKept(i, n, o);
      }
      hide Holding, Placed, Level.Valid;
    }

    /** Takes `o`, at place `k` of level `i`, out of its level, which may be left empty. */
    method Unlink(lvl: Level, o: Order, ghost i: nat, ghost k: nat)
      requires Valid() && i < |levels| && levels[i] == lvl && k < |lvl.queue| && lvl.queue[k] == o
      modifies this`fifos, this`nodes, levels, nodes`prev, nodes`next, nodes`level
      ensures Valid() && Left(i, o) && o.level == null
      ensures levels[i].vals == P.Without(old(levels[i].vals), k)
    {
      hide Holding, Placed, Level.Valid, Ordered;
      RemoveFrom(lvl, o, i, k);
      LeftValid(i, o);
    }

    /** A map stays valid while neither it, nor its levels, nor its nodes change. */
    twostate lemma Untouched()
      requires old(Valid()) && unchanged(this)
      requires forall t :: 0 <= t < |levels| ==> unchanged(levels[t])
      requires forall n :: n in nodes ==> unchanged(n)
      ensures Valid()
    {
      forall j | 0 <= j < |levels|
        ensures Holding(j)
      {
        assert old(Holding(j));
        assert forall m :: 0 <= m < |levels[j].queue| ==> levels[j].queue[m] in nodes;
        StaysValid(levels[j]);
      }
      forall n | n in nodes
        ensures Placed(n)
      {
        assert old(Placed(n));
        var t :| 0 <= t < |levels| && levels[t] == n.level;
        assert unchanged(levels[t]);
      }
      hide Holding, Placed;
    }

    // ----- shrinking an order in place

    twostate predicate Shrunk(i: nat, o: Order)
      reads this, levels, nodes
    {
      && unchanged(`store, `keys, `levels, `nodes) && i < |levels| && o in nodes
      && |old(fifos)| == |levels| && fifos == old(fifos)[i := levels[i].vals]
      && (forall j :: 0 <= j < |levels| ==>
            levels[j].queue == old(levels[j].queue))
      && (forall j :: 0 <= j < |levels| && j != i ==> levels[j].vals == old(levels[j].vals))
      && (forall n :: n in nodes ==>
            n.level == old(n.level) && n.side == old(n.side) && n.price == old(n.price) && n.id == old(n.id)
            && n.participant == old(n.participant))
      && (forall n :: n in nodes && n != o ==> n.qty == old(n.qty))
    }

    method ReduceIn(lvl: Level, o: Order, delta: Qty, ghost i: nat, ghost k: nat)
      requires Valid() && i < |levels| && levels[i] == lvl && k < |lvl.queue| && lvl.queue[k] == o && delta <= o.qty
      modifies this`fifos, levels, o`qty
      ensures Shrunk(i, o) && o.qty == old(o.qty) - delta
      ensures forall j :: 0 <= j < |levels| ==> levels[j].Valid()
      ensures levels[i].vals == old(levels[i].vals)[k := old(levels[i].vals)[k].(qty := o.qty)]
    {
      hide Level.Valid, LevelMap.Valid, Apart;
      Part(i);
      lvl.Reduce(o, delta, k);
      forall j | 0 <= j < |levels| && j != i
        ensures levels[j].Valid()
      {
        assert forall m :: 0 <= m < |levels[j].queue| ==> levels[j].queue[m] in levels[j].queue;
        StaysValid(levels[j]);
      }
      fifos := fifos[i := lvl.vals];
    }

    twostate lemma ShrunkValid(new i: nat, o: Order)
      requires old(Valid()) && Shrunk(i, o) && forall j :: 0 <= j < |levels| ==> levels[j].Valid()
      ensures Valid()
    {
      hide Level.Valid;
      forall j | 0 <= j < |levels|
        ensures Holding(j)
      {
        assert old(Holding(j));
        forall m | 0 <= m < |levels[j].queue|
          ensures levels[j].queue[m].side == side && levels[j].queue[m].price == levels[j].price
        {
          assert levels[j].queue[m] in nodes;
        }
      }
      forall n | n in nodes
        ensures Placed(n)
      {
        assert old(Placed(n));
      }
      hide Holding, Placed;
    }

    /** Takes `delta` shares off `o`, at place `k` of level `i`, in place. */
    method Reduce(lvl: Level, o: Order, delta: Qty, ghost i: nat, ghost k: nat)
      requires Valid() && i < |levels| && levels[i] == lvl && k < |lvl.queue| && lvl.queue[k] == o && delta <= o.qty
      modifies this`fifos, levels, o`qty
      ensures Valid() && Shrunk(i, o) && o.qty == old(o.qty) - delta
      ensures levels[i].vals == old(levels[i].vals)[k := old(levels[i].vals)[k].(qty := o.qty)]
    {
      hide Holding, Placed, Level.Valid, Ordered;
      ReduceIn(lvl, o, delta, i, k);
      ShrunkValid(i, o);
    }

    // ----- joining a level

    twostate predicate Joined(i: nat, o: Order)
      reads this, levels, nodes
    {
      && unchanged(`store, `keys, `levels) && i < |levels|
      && nodes == old(nodes) + {o}
      && |old(fifos)| == |levels| && fifos == old(fifos)[i := levels[i].vals]
      && (forall j :: 0 <= j < |levels| && j != i ==>
            levels[j].queue == old(levels[j].queue) && levels[j].vals == old(levels[j].vals))
      && levels[i].queue == old(levels[i].queue) + [o]
      && o.level == levels[i] && o.side == side && o.price == levels[i].price
      && (forall n :: n in old(nodes) ==>
            n.level == old(n.level) && n.side == old(n.side) && n.price == old(n.price))
    }

    method PushTo(lvl: Level, o: Order, ghost i: nat)
      requires Valid() && i < |levels| && levels[i] == lvl
      requires o.level == null && o.side == side && o.price == lvl.price && o !in nodes
      modifies this`fifos, this`nodes, levels, nodes`next, o`prev, o`next, o`level
      ensures Joined(i, o)
      ensures forall j :: 0 <= j < |levels| ==> levels[j].Valid()
      ensures levels[i].vals == old(levels[i].vals) + [o.Value()]
    {
      hide Level.Valid, LevelMap.Valid, Apart;
      Part(i);
      lvl.PushBack(o);
      LevelFacts(lvl);
      assert lvl.queue[|lvl.queue| - 1] == o;
      forall j | 0 <= j < |levels| && j != i
        ensures levels[j].Valid()
      {
        StaysValid(levels[j]);
      }
      fifos := fifos[i := lvl.vals];
      nodes := nodes + {o};
    }

    twostate lemma JoinedValid(new i: nat, o: Order)
      requires old(Valid()) && Joined(i, o) && forall j :: 0 <= j < |levels| ==> levels[j].Valid()
      ensures Valid()
    {
      hide Level.Valid;
      forall j | 0 <= j < |levels|
        ensures Holding(j)
      {
        assert old(Holding(j));
        forall m | 0 <= m < |levels[j].queue|
          ensures levels[j].queue[m] in nodes
          ensures levels[j].queue[m].side == side && levels[j].queue[m].price == levels[j].price
        {
          assert j != i || m < |old(levels[i].queue)| ==> levels[j].queue[m] in old(nodes);
        }
      }
      forall n | n in nodes
        ensures Placed(n)
      {
        assert n != o ==> old(Placed(n));
      }
      hide Holding, Placed;
    }

    method Join(lvl: Level, o: Order, ghost i: nat)
      requires Valid() && i < |levels| && levels[i] == lvl
      requires o.level == null && o.side == side && o.price == lvl.price && o !in nodes
      modifies this`fifos, this`nodes, levels, nodes`next, o`prev, o`next, o`level
      ensures Valid() && Joined(i, o)
      ensures levels[i].vals == old(levels[i].vals) + [o.Value()]
    {
      hide Holding, Placed, Level.Valid, Ordered;
      PushTo(lvl, o, i);
      JoinedValid(i, o);
    }

    // ----- levels come and go

    /** The map gained the empty level `lvl` at place `k`. */
    twostate predicate Grown(k: nat, new lvl: Level)
      reads this, levels, lvl
    {
      && unchanged(`nodes) && |old(levels)| == |old(keys)| == |old(fifos)|
      && k <= |old(levels)| && lvl !in old(levels) && lvl.queue == [] && lvl.vals == []
      && keys == old(keys)[..k] + [lvl.price] + old(keys)[k..]
      && levels == old(levels)[..k] + [lvl] + old(levels)[k..]
      && fifos == old(fifos)[..k] + [[]] + old(fifos)[k..]
    }

    twostate lemma GrownValid(k: nat, new lvl: Level)
      requires old(Valid()) && Grown(k, lvl) && lvl.Valid() && SortedKeys(side, keys) && Stored()
      requires forall t :: 0 <= t < |old(levels)| ==> unchanged(old(levels)[t])
      requires forall n :: n in nodes ==> unchanged(n)
      ensures Valid()
    {
      hide Stored;
      forall j | 0 <= j < |levels|
        ensures Holding(j) && levels[j].price == keys[j]
      {
        if j != k {
          var t := if j < k then j else j - 1;
          assert levels[j] == old(levels)[t] && fifos[j] == old(fifos)[t];
          assert old(Holding(t));
          assert forall m :: 0 <= m < |levels[j].queue| ==> levels[j].queue[m] in nodes;
          StaysValid(levels[j]);
        }
      }
      forall n | n in nodes
        ensures Placed(n)
      {
        assert old(Placed(n));
        assert levels == old(levels)[..k] + [lvl] + old(levels)[k..];
        assert old(levels) == old(levels)[..k] + old(levels)[k..];
      }
      hide Holding, Placed;
    }

    /** Where the ordered map keeps `p`, or would. */
    method LowerBound(p: Price) returns (k: nat)
      requires Stored() && store.Tree?
      ensures k == KeySlot(side, keys, p)
    {
      k := 0;
      while k < |store.prices| && Better(side, store.prices[k], p)
        invariant k <= |keys|
        invariant forall i :: 0 <= i < k ==> Better(side, keys[i], p)
      {
        k := k + 1;
      }
      KeySlotIs(side, keys, p, k);
    }

    /** The level at `p`, null when there is none, and its place in the list of levels. */
    method Look(p: Price) returns (lvl: Level?, ghost k: nat)
      requires Valid() && range.Valid(p)
      ensures k == KeySlot(side, keys, p)
      ensures if p in keys then k < |levels| && lvl == levels[k] && levels[k].price == p else lvl == null
    {
      hide Holding, Placed, KeySlot;
      assert Ordered();
      WithKeySorted(side, keys, p);
      k := KeySlot(side, keys, p);
      if store.Tree? {
        var j := LowerBound(p);
        lvl := if j < |store.prices| && store.prices[j] == p then store.entries[j] else null;
      } else {
        lvl := store.slots[p - range.lo];
      }
    }

    /** Stores the new level `lvl` for the unused price `p`. */
    method Put(p: Price, lvl: Level)
      requires Ordered() && Stored() && range.Valid(p) && p !in keys
      modifies `store, `keys, `levels
      ensures Stored() && SortedKeys(side, keys)
      ensures var k := KeySlot(side, old(keys), p);
              && keys == old(keys)[..k] + [p] + old(keys)[k..] && levels == old(levels)[..k] + [lvl] + old(levels)[k..]
      ensures keys == WithKey(side, old(keys), p)
    {
      hide SortedKeys, Slotted, KeySlot;
      WithKeySorted(side, keys, p);
      ghost var k := KeySlot(side, keys, p);
      if store.Tree? {
        var j := LowerBound(p);
        var prices, entries := store.prices, store.entries;
        store := Tree(prices[..j] + [p] + prices[j..], entries[..j] + [lvl] + entries[j..]);
      } else {
        var i := p - range.lo;
        var best := if store.best == NONE || Ahead(side, i, store.best) then i else store.best;
        IdleSlot(i);
        SlotOpened(range.lo, store.slots, keys, levels, i, k, lvl);
        BestOpened(side, range.lo, store.slots, keys, levels, i);
        store := Band(store.slots[i := lvl], best, store.active + 1);
      }
      keys, levels := keys[..k] + [p] + keys[k..], levels[..k] + [lvl] + levels[k..];
    }

    lemma IdleSlot(i: int)
      requires Stored() && store.Band? && range.Valid(range.lo + i) && range.lo + i !in keys
      ensures 0 <= i < |store.slots| && store.slots[i] == null
    {
    }

    /** The level at `p`, created empty when there was none. */
    method GetOrCreate(p: Price) returns (lvl: Level, ghost k: nat)
      requires Valid() && range.Valid(p)
      modifies `store, `keys, `levels, `fifos
      ensures Valid() && keys == WithKey(side, old(keys), p)
      ensures k < |levels| && levels[k] == lvl && lvl.price == p
      ensures if p in old(keys) then unchanged(this) else fresh(lvl) && Grown(k, lvl)
    {
      hide Stored, KeySlot, WithKey, SortedKeys;
      var found;
      found, k := Look(p);
      Unused(p);
      if found != null {
        return found, k;
      }
      lvl := new Level(p);
      Put(p, lvl);
      fifos := fifos[..k] + [[]] + fifos[k..];
      GrownValid(k, lvl);
      hide Holding, Placed, Level.Valid;
    }

    lemma Unused(p: Price)
      requires Ordered()
      ensures SortedKeys(side, keys) && (p in keys ==> WithKey(side, keys, p) == keys)
    {
      WithKeySorted(side, keys, p);
    }

    /** The map lost the level at place `k`. */
    twostate predicate Dropped(k: nat)
      reads this
    {
      && k < |old(levels)| == |old(keys)| == |old(fifos)| && unchanged(`nodes)
      && keys == old(keys)[..k] + old(keys)[k + 1..]
      && levels == old(levels)[..k] + old(levels)[k + 1..]
      && fifos == old(fifos)[..k] + old(fifos)[k + 1..]
    }

    /** Takes the level at place `k`, whose price is `p`, out of the store. */
    method Pull(p: Price, ghost k: nat)
      requires Ordered() && Stored() && k < |keys| && keys[k] == p
      modifies `store, `keys, `levels
      ensures Stored() && SortedKeys(side, keys) && keys == WithoutKey(side, old(keys), p)
      ensures keys == old(keys)[..k] + old(keys)[k + 1..] && levels == old(levels)[..k] + old(levels)[k + 1..]
    {
      WithoutKeySorted(side, keys, k);
      KeySlotIs(side, keys, p, k);
      hide Slotted, KeySlot, WithoutKey;
      if store.Tree? {
        var j := LowerBound(p);
        var prices, entries := store.prices, store.entries;
        store := Tree(prices[..j] + prices[j + 1..], entries[..j] + entries[j + 1..]);
      } else {
        Vacate(p - range.lo, k);
      }
      keys, levels := keys[..k] + keys[k + 1..], levels[..k] + levels[k + 1..];
    }

    /** Slot `i` of the band goes idle, and the next best level is looked for if it was the best. */
    method Vacate(i: int, ghost k: nat)
      requires Ordered() && Stored() && store.Band? && k < |keys| && i == keys[k] - range.lo
      modifies `store
      ensures Lists(range, store, keys[..k] + keys[k + 1..], levels[..k] + levels[k + 1..])
    {
      hide SortedKeys, WithoutKey;
      ghost var left, rest := keys[..k] + keys[k + 1..], levels[..k] + levels[k + 1..];
      OnlyFirstIsBest(side, range.lo, keys, k);
      SlotCleared(range.lo, store.slots, keys, levels, k);
      WithoutKeySorted(side, keys, k);
      var slots, best := store.slots[i := null], store.best;
      if store.active == 1 {
        best := NONE;
      } else if i == best {
        best := Scan(side, range.lo, slots, i, left, rest, 0);
      }
      store := Band(slots, best, store.active - 1);
    }

    /** Drops the empty level at place `k`. */
    method OnLevelEmpty(lvl: Level, ghost k: nat)
      requires Valid() && k < |levels| && levels[k] == lvl && lvl.queue == []
      modifies `store, `keys, `levels, `fifos
      ensures Valid() && keys == WithoutKey(side, old(keys), lvl.price) && Dropped(k)
    {
      hide Stored, WithoutKey, SortedKeys;
      assert Ordered();
      Pull(lvl.price, k);
      fifos := fifos[..k] + fifos[k + 1..];
      DroppedValid(k);
      hide Holding, Placed, Level.Valid;
    }

    twostate lemma DroppedValid(k: nat)
      requires old(Valid()) && Dropped(k) && old(levels[k].queue) == [] && SortedKeys(side, keys) && Stored()
      requires forall t :: 0 <= t < |old(levels)| ==> unchanged(old(levels)[t])
      requires forall n :: n in nodes ==> unchanged(n)
      ensures Valid()
    {
      hide Stored;
      forall j | 0 <= j < |levels|
        ensures Holding(j) && levels[j].price == keys[j]
      {
        var t := if j < k then j else j + 1;
        assert levels[j] == old(levels)[t] && fifos[j] == old(fifos)[t];
        assert old(Holding(t));
        assert forall m :: 0 <= m < |levels[j].queue| ==> levels[j].queue[m] in nodes;
        StaysValid(levels[j]);
      }
      forall n | n in nodes
        ensures Placed(n)
      {
        assert old(Placed(n));
        assert old(levels) == old(levels)[..k] + [old(levels)[k]] + old(levels)[k + 1..];
      }
      hide Holding, Placed;
    }

    method Best() returns (l: Level?)
      requires Stored()
      ensures l == if levels == [] then null else levels[0]
    {
      if store.Tree? {
        l := if store.entries == [] then null else store.entries[0];
      } else {
        l := if store.best == NONE then null else store.slots[store.best];
      }
    }

    // ----- the walk from best to worst

    /** How many levels there are to walk. */
    function Count(): (n: nat)
      requires Stored()
      reads `store, `keys, `levels
      ensures n == |levels|
    {
      if store.Tree? then |store.entries| else store.active
    }

    /** `i` is where the store keeps the level at place `n`. */
    ghost predicate At(i: int, n: nat)
      reads `store, `keys, `levels
    {
      && n <= |levels| == |keys|
      && if store.Tree? then i == n else range.Within? && (n < |keys| ==> i == keys[n] - range.lo)
    }

    lemma CanWalk()
      requires Valid()
      ensures Ordered() && Stored() && |keys| == |levels| == |fifos|
    {
    }

    method First() returns (i: int)
      requires Ordered() && Stored()
      ensures At(i, 0)
    {
      i := if store.Tree? then 0 else store.best;
    }

    function Here(i: int, ghost n: nat): (l: Level)
      requires Stored() && At(i, n) && n < |levels|
      reads `store, `keys, `levels
      ensures l == levels[n]
    {
      if store.Tree? then store.entries[i] else store.slots[i]
    }

    /** Where the walk goes from the level at place `n`: in the band, past the slots that hold none. */
    method Next(i: int, n: nat) returns (j: int)
      requires Ordered() && Stored() && At(i, n) && n < |levels|
      ensures At(j, n + 1)
    {
      if store.Tree? {
        j := i + 1;
      } else if n + 1 < store.active {
        j := Scan(side, range.lo, store.slots, i, keys, levels, n + 1);
      } else {
        j := i + Step(side);
      }
    }

    /** Walks the levels, best first, until every one has been seen or `keep` says stop. */
    method ForEachLevel(keep: Price -> bool) returns (visited: seq<Price>)
      requires Valid()
      ensures visited == Visited(keys, keep)
    {
      hide Holding, Placed, Stored, At;
      assert Ordered() && keys[0..] == keys && keys[|keys|..] == [] && Visited([], keep) == [];
      hide Visited, SortedKeys;
      visited := [];
      var i := First();
      var seen := 0;
      while seen < Count()
        invariant seen <= |levels| == |keys| && At(i, seen)
        invariant Visited(keys, keep) == visited + Visited(keys[seen..], keep)
      {
        VisitedFrom(keys, seen, keep, visited);
        var lvl := Here(i, seen);
        visited := visited + [lvl.price];
        if !keep(lvl.price) {
          return;
        }
        i := Next(i, seen);
        seen := seen + 1;
      }
    }

    // ----- what a valid map tells

    /** The level at place `i`: what its node pointers and aggregates say about its contents. */
    lemma LevelAt(i: nat)
      requires Valid() && i < |levels|
      ensures |fifos| == |keys| == |levels| && levels[i].price == keys[i]
      ensures var l := levels[i];
              && fifos[i] == l.vals && |l.vals| == |l.queue| == l.orderCount && l.totalQty == P.TotalQty(fifos[i])
              && (l.head == if l.queue == [] then null else l.queue[0])
              && (forall k :: 0 <= k < |l.queue| ==> l.queue[k] in nodes)
    {
      assert Holding(i);
      LevelFacts(levels[i]);
    }

    lemma NodeAt(i: nat, k: nat)
      requires Valid() && i < |levels| && k < |levels[i].queue|
      ensures |fifos| == |levels| && |fifos[i]| == |levels[i].queue|
      ensures var n := levels[i].queue[k];
              && n in nodes && n.level == levels[i] && n.side == side && n.price == levels[i].price
              && n.Value() == fifos[i][k]
              && n.next == (if k + 1 == |levels[i].queue| then null else levels[i].queue[k + 1])
    {
      assert Holding(i);
      LevelFacts(levels[i]);
      NextInQueue(levels[i], k);
    }

    /** Every node of the map stands at some place of some level. */
    lemma Locate(n: Order) returns (i: nat, k: nat)
      requires Valid() && n in nodes
      ensures i < |levels| && k < |levels[i].queue| && levels[i].queue[k] == n && n.level == levels[i]
    {
      assert Placed(n);
      i :| 0 <= i < |levels| && levels[i] == n.level;
      k :| 0 <= k < |levels[i].queue| && levels[i].queue[k] == n;
    }

    lemma SortedAndPriced()
      requires Valid()
      ensures SortedKeys(side, keys) && Priced(keys, fifos)
    {
      assert Ordered();
      forall i, k | 0 <= i < |fifos| && 0 <= k < |fifos[i]|
        ensures fifos[i][k].price == keys[i]
      {
        LevelAt(i);
        NodeAt(i, k);
      }
    }
  }

  /** The two sides of a ladder. `range` is the prices it accepts, and says which of the two kinds it is. */
  class PriceLadder {
    const range: PriceRange
    const bids: LevelMap
    const asks: LevelMap

    function On(s: Side): LevelMap {
      if s == Bid then bids else asks
    }

    constructor (range: PriceRange)
      ensures this.range == range && fresh(bids) && fresh(asks) && bids != asks
      ensures bids.range == range && asks.range == range
      ensures bids.Valid() && bids.side == Bid && bids.levels == [] && bids.nodes == {} && bids.fifos == []
      ensures asks.Valid() && asks.side == Ask && asks.levels == [] && asks.nodes == {} && asks.fifos == []
    {
      this.range := range;
      bids := new LevelMap(Bid, range);
      asks := new LevelMap(Ask, range);
    }
  }
}
