/** The order book of include/pricetime/book.hpp: linked order nodes, price levels, a ladder, a node
    pool and an id map, updated in place. Each public method is proved to do to the values held
    exactly what the function of the same purpose in `Priority` does. */
module OrderBook {
  import opened Types
  import opened Nodes
  import opened Fifos
  import opened Ladder
  import opened Pool
  import opened IdMap
  import P = Priority
  import L = BookLaws

  class Book {
    const ladder: PriceLadder
    const pool: OrderPool
    const orders: OpenAddressMap<Order>
    var stp: SelfTradePolicy
    var c: Counters

    /** The values held, as the priority-queue book. */
    ghost function View(): P.Book
      reads this, ladder.bids, ladder.asks
    {
      P.Book(ladder.range, stp, Flatten(ladder.bids.fifos), Flatten(ladder.asks.fifos), c)
    }

    /** Every node in reach belongs to the pool, and the sides share nothing. */
    ghost predicate Apart()
      reads ladder.bids, ladder.asks, pool
    {
      && ladder.bids != ladder.asks && ladder.bids.side == Bid && ladder.asks.side == Ask
      && ladder.bids.range == ladder.range && ladder.asks.range == ladder.range
      && (forall l :: l in ladder.bids.levels ==> l !in ladder.asks.levels)
      && pool.out == ladder.bids.nodes + ladder.asks.nodes && ladder.bids.nodes !! ladder.asks.nodes
      && pool.out <= pool.nodes
      && (forall n :: n in pool.free ==> n in pool.nodes)
      && (forall n :: n in pool.spare ==> n in pool.nodes)
    }

    /** The id map names exactly the orders out of the pool, each under its own id. */
    ghost predicate Indexed()
      reads pool`out, orders`m, pool.out`id
    {
      && |orders.m| == |pool.out|
      && (forall n :: n in pool.out ==> n.id in orders.m && orders.m[n.id] == n)
      && (forall id :: id in orders.m ==> orders.m[id] in pool.out && orders.m[id].id == id)
    }

    /** No level is empty, except perhaps `gap`. */
    ghost predicate Filled(m: LevelMap, gap: Level?)
      reads m
    {
      |m.fifos| == |m.levels| && forall i :: 0 <= i < |m.levels| && m.fifos[i] == [] ==> m.levels[i] == gap
    }

    ghost predicate Shape(gap: Level?)
      reads ladder.bids, ladder.asks, ladder.bids.levels, ladder.asks.levels, pool, pool.nodes, orders
    {
      && Apart() && Indexed()
      && ladder.bids.Valid() && ladder.asks.Valid() && pool.Valid() && orders.Valid()
      && Filled(ladder.bids, gap) && Filled(ladder.asks, gap)
    }

    ghost predicate Valid()
      reads this, ladder.bids, ladder.asks, ladder.bids.levels, ladder.asks.levels, pool, pool.nodes, orders
    {
      Shape(null) && View().Valid()
    }

    constructor (range: PriceRange, hash: OrderId -> nat)
      ensures Valid() && View() == P.Empty(range)
      ensures fresh({this, ladder.bids, ladder.asks, pool, orders}) && pool.nodes == {}
      ensures ladder.bids.levels == [] && ladder.asks.levels == []
    {
      ladder := new PriceLadder(range);
      pool := new OrderPool();
      orders := new OpenAddressMap(hash);
      stp, c := NoPrevention, ZERO_COUNTERS;
      new;
      hide OrderPool.Valid, OpenAddressMap.Valid, LevelMap.Valid, Valid, View;
      EmptyShape();
    }

    lemma EmptyShape()
      requires ladder.bids != ladder.asks && ladder.bids.side == Bid && ladder.asks.side == Ask
      requires ladder.bids.range == ladder.range && ladder.asks.range == ladder.range
      requires ladder.bids.levels == [] && ladder.bids.fifos == [] && ladder.bids.nodes == {}
      requires ladder.asks.levels == [] && ladder.asks.fifos == [] && ladder.asks.nodes == {}
      requires pool.out == {} && pool.free == [] && pool.spare == [] && orders.m == map[]
      requires ladder.bids.Valid() && ladder.asks.Valid() && pool.Valid() && orders.Valid()
      requires stp == NoPrevention && c == ZERO_COUNTERS
      ensures Valid() && View() == P.Empty(ladder.range)
    {
      hide OrderPool.Valid, OpenAddressMap.Valid, LevelMap.Valid;
    }

    ghost predicate Sides(m: LevelMap, t: LevelMap) {
      || (m == ladder.bids && t == ladder.asks && m != t)
      || (m == ladder.asks && t == ladder.bids && m != t)
    }

    lemma Assemble(m: LevelMap, t: LevelMap, gap: Level?)
      requires Sides(m, t) && Apart() && Indexed() && m.Valid() && t.Valid() && pool.Valid() && orders.Valid()
      requires Filled(m, gap) && Filled(t, gap)
      ensures Shape(gap)
    {
      hide LevelMap.Valid, OrderPool.Valid, OpenAddressMap.Valid, Apart, Indexed, Filled;
    }

    /** What one side's nodes and levels are apart from. */
    lemma SidesApart(m: LevelMap, t: LevelMap)
      requires Apart() && pool.Valid() && Sides(m, t)
      ensures (forall j :: 0 <= j < |t.levels| ==> t.levels[j] !in m.levels)
      ensures forall n :: n in t.nodes ==> n !in m.nodes
      ensures pool.out == m.nodes + t.nodes
      ensures forall i :: 0 <= i < |pool.free| ==> pool.free[i] !in m.nodes
      ensures forall i :: 0 <= i < |pool.spare| ==> pool.spare[i] !in m.nodes
    {
      pool.Apartness();
      hide OrderPool.Valid;
      assert forall j :: 0 <= j < |t.levels| ==> t.levels[j] in t.levels;
    }

    // ----- what a change to one side leaves alone

    ghost predicate Outside(x: object, m: LevelMap, ls: seq<Level>, ns: set<Order>) {
      x != m && (forall j :: 0 <= j < |ls| ==> x != ls[j]) && forall n :: n in ns ==> x != n
    }

    twostate predicate Kept(x: object)
      reads x
    {
      unchanged(x)
    }

    /** Only `m`, the levels `ls` and the nodes `ns` have changed; map `t` shares none of them. */
    twostate lemma SideKept(t: LevelMap, new m: LevelMap, new ls: seq<Level>, new ns: set<Order>)
      requires old(allocated(m)) && old(allocated(ls)) && old(allocated(ns))
      requires old(t.Valid()) && t != m
      requires forall j :: 0 <= j < |old(t.levels)| ==> old(t.levels)[j] !in ls
      requires ns !! old(t.nodes)
      requires forall x: object {:trigger Kept(x)} :: old(allocated(x)) && Outside(x, m, ls, ns) ==> Kept(x)
      ensures t.Valid() && unchanged(t)
    {
      assert Kept(t);
      forall j | 0 <= j < |t.levels|
        ensures unchanged(t.levels[j])
      {
        assert Kept(t.levels[j]);
      }
      forall n | n in t.nodes
        ensures unchanged(n)
      {
        assert Kept(n);
      }
      hide LevelMap.Valid;
      t.Untouched();
    }

    /** The pool shares nothing with a side either. */
    twostate lemma PoolKept(m: LevelMap, new ls: seq<Level>, new ns: set<Order>)
      requires old(allocated(ls)) && old(allocated(ns))
      requires old(pool.Valid()) && ns <= old(pool.out)
      requires forall x: object {:trigger Kept(x)} :: old(allocated(x)) && Outside(x, m, ls, ns) ==> Kept(x)
      ensures pool.Valid() && unchanged(pool)
    {
      assert Kept(pool);
      forall i | 0 <= i < |pool.free|
        ensures unchanged(pool.free[i])
      {
        assert old(pool.free)[i] in old(pool.free);
        assert Kept(pool.free[i]);
      }
      forall i | 0 <= i < |pool.spare|
        ensures unchanged(pool.spare[i])
      {
        assert Kept(pool.spare[i]);
      }
      hide OrderPool.Valid;
      pool.Untouched();
    }

    twostate lemma IndexKept(m: LevelMap, new ls: seq<Level>, new ns: set<Order>)
      requires old(allocated(ls)) && old(allocated(ns))
      requires old(Indexed()) && forall n :: n in ns ==> n.id == old(n.id)
      requires forall x: object {:trigger Kept(x)} :: old(allocated(x)) && Outside(x, m, ls, ns) ==> Kept(x)
      ensures Indexed() && unchanged(pool, orders)
    {
      assert Kept(pool) && Kept(orders);
      forall n | n in pool.out
        ensures n.id == old(n.id)
      {
        assert n in ns || Kept(n);
      }
    }

    /** Everything but side `m` survives a change confined to it. */
    twostate lemma RestKept(t: LevelMap, new m: LevelMap, new ls: seq<Level>, new ns: set<Order>)
      requires old(allocated(m)) && old(allocated(ls)) && old(allocated(ns))
      requires old(t.Valid()) && old(pool.Valid()) && old(orders.Valid()) && old(Indexed()) && t != m
      requires forall j :: 0 <= j < |old(t.levels)| ==> old(t.levels)[j] !in ls
      requires ns !! old(t.nodes)
      requires ns <= old(pool.out) && forall n :: n in ns ==> n.id == old(n.id)
      requires forall x: object {:trigger Kept(x)} :: old(allocated(x)) && Outside(x, m, ls, ns) ==> Kept(x)
      ensures t.Valid() && pool.Valid() && orders.Valid() && Indexed() && unchanged(t, pool, orders)
    {
      hide LevelMap.Valid, OrderPool.Valid, OpenAddressMap.Valid, Indexed;
      SideKept(t, m, ls, ns);
      PoolKept(m, ls, ns);
      IndexKept(m, ls, ns);
    }

    // ----- detaching a node

    /** The pointer part of detaching: the node leaves its level; nothing else of the book moves. */
    method UnlinkOn(m: LevelMap, lvl: Level, o: Order, ghost ls: seq<Level>, ghost ns: set<Order>, ghost i: nat,
                    ghost k: nat)
      requires m.Valid() && ls == m.levels && ns == m.nodes
      requires i < |m.levels| && m.levels[i] == lvl && k < |lvl.queue| && lvl.queue[k] == o
      modifies m`fifos, m`nodes, m.levels, m.nodes`prev, m.nodes`next, m.nodes`level
      ensures m.Valid() && m.Left(i, o) && o !in m.nodes && o.level == null && o.id == old(o.id)
      ensures m.levels[i].vals == P.Without(old(m.levels[i].vals), k)
      ensures forall n :: n in ns ==> n.id == old(n.id)
      ensures forall x: object {:trigger Kept(x)} :: old(allocated(x)) && Outside(x, m, ls, ns) ==> Kept(x)
    {
      hide LevelMap.Valid, Level.Valid;
      m.Unlink(lvl, o, i, k);
      assert o !in m.nodes;
      hide LevelMap.Left;
      forall x: object | old(allocated(x)) && Outside(x, m, ls, ns)
        ensures Kept(x)
      {
        assert unchanged(x);
      }
    }

    method UnlinkSide(m: LevelMap, t: LevelMap, lvl: Level, o: Order, ghost i: nat, ghost k: nat)
      requires Apart() && m.Valid() && t.Valid() && pool.Valid()
      requires Sides(m, t)
      requires i < |m.levels| && m.levels[i] == lvl && k < |lvl.queue| && lvl.queue[k] == o
      modifies m`fifos, m`nodes, m.levels, m.nodes`prev, m.nodes`next, m.nodes`level
      ensures m.Valid() && t.Valid() && pool.Valid()
      ensures m.Left(i, o) && o !in m.nodes && o.level == null && o.id == old(o.id)
      ensures m.levels[i].vals == P.Without(old(m.levels[i].vals), k)
      ensures forall n :: n in t.nodes ==> n.id == old(n.id)
    {
      hide Apart, OrderPool.Valid, LevelMap.Valid, Level.Valid, LevelMap.Left, Outside, Kept;
      SidesApart(m, t);
      ghost var ls, ns := m.levels, m.nodes;
      assert m != t && ns !! t.nodes && ns <= pool.out;
      hide Sides;
      UnlinkOn(m, lvl, o, ls, ns, i, k);
      SideKept(t, m, ls, ns);
      PoolKept(m, ls, ns);
    }

    method UnlinkNode(m: LevelMap, t: LevelMap, lvl: Level, o: Order, ghost i: nat, ghost k: nat)
      requires Apart() && m.Valid() && t.Valid() && pool.Valid()
      requires Sides(m, t)
      requires i < |m.levels| && m.levels[i] == lvl && k < |lvl.queue| && lvl.queue[k] == o
      modifies m`fifos, m`nodes, m.levels, m.nodes`prev, m.nodes`next, m.nodes`level
      ensures m.Valid() && t.Valid() && pool.Valid()
      ensures m.Left(i, o) && o.level == null && o !in m.nodes && o !in t.nodes
      ensures m.levels[i].vals == P.Without(old(m.levels[i].vals), k)
      ensures forall n :: n in pool.out ==> n.id == old(n.id)
    {
      hide Sides, Apart, OrderPool.Valid, LevelMap.Valid, Level.Valid, LevelMap.Left;
      SidesApart(m, t);
      m.NodeAt(i, k);
      UnlinkSide(m, t, lvl, o, i, k);
    }

    /** The rest of detaching: the pool takes the node back. */
    method GiveBack(m: LevelMap, t: LevelMap, o: Order)
      requires m.Valid() && t.Valid() && pool.Valid()
      requires o in pool.out && o.level == null && o !in m.nodes && o !in t.nodes
      modifies pool`freeHead, pool`free, pool`out, o`next
      ensures m.Valid() && t.Valid() && pool.Valid()
      ensures pool.out == old(pool.out) - {o} && pool.free == [o] + old(pool.free)
    {
      hide OrderPool.Valid, LevelMap.Valid;
      pool.Release(o);
      m.Untouched();
      t.Untouched();
    }

    /** What detaching changes outside the nodes and levels. */
    twostate predicate Forgotten(m: LevelMap, t: LevelMap, o: Order)
      reads m, t, pool, orders, o`id
    {
      && Sides(m, t) && unchanged(t)
      && m.levels == old(m.levels) && o in old(m.nodes) && m.nodes == old(m.nodes) - {o}
      && pool.out == old(pool.out) - {o} && pool.nodes == old(pool.nodes)
      && pool.free == [o] + old(pool.free) && pool.spare == old(pool.spare)
      && orders.m == old(orders.m) - {o.id}
    }

    twostate lemma StillApart(m: LevelMap, new t: LevelMap, new o: Order)
      requires old(allocated(t)) && old(allocated(o))
      requires old(Apart()) && Forgotten(m, t, o)
      ensures Apart()
    {
    }

    twostate lemma StillIndexed(m: LevelMap, new t: LevelMap, new o: Order)
      requires old(allocated(t)) && old(allocated(o))
      requires old(Indexed()) && Forgotten(m, t, o) && o in old(pool.out)
      requires forall n :: n in old(pool.out) ==> n.id == old(n.id)
      ensures Indexed()
    {
      assert o.id in old(orders.m);
      assert orders.m.Keys == old(orders.m).Keys - {o.id};
    }

    twostate lemma StillFilled(m: LevelMap, new lvl: Level, new gap: Level?, new i: nat)
      requires old(allocated(lvl)) && old(allocated(gap))
      requires old(Filled(m, gap)) && (gap == null || gap == lvl)
      requires i < |m.levels| && m.levels == old(m.levels) && m.levels[i] == lvl
      requires i < |old(m.fifos)| && m.fifos == old(m.fifos)[i := lvl.vals]
      ensures Filled(m, lvl)
    {
    }

    twostate lemma OtherFilled(t: LevelMap, new lvl: Level, new gap: Level?)
      requires old(allocated(lvl)) && old(allocated(gap))
      requires old(Filled(t, gap)) && (gap == null || gap == lvl) && unchanged(t)
      ensures Filled(t, lvl)
    {
    }

    /** An order of one side is out of the pool and indexed. */
    lemma InBook(m: LevelMap, o: Order)
      requires Apart() && Indexed() && (m == ladder.bids || m == ladder.asks) && o in m.nodes
      ensures o in pool.out && o in pool.nodes && o.id in orders.m && orders.m[o.id] == o
    {
    }

    /** Unlinks the node, forgets its id and gives it back to the pool. */
    method TakeOut(m: LevelMap, t: LevelMap, lvl: Level, o: Order, ghost i: nat, ghost k: nat)
      requires Apart() && m.Valid() && t.Valid() && pool.Valid() && orders.Valid()
      requires m == ladder.On(o.side) && t == ladder.On(Opposite(o.side)) && o in m.nodes
      requires i < |m.levels| && m.levels[i] == lvl && k < |lvl.queue| && lvl.queue[k] == o && |m.fifos| == |m.levels|
      requires o in pool.out && o.id in orders.m
      modifies m`fifos, m`nodes, m.levels, m.nodes`prev, m.nodes`next, m.nodes`level
      modifies orders, pool`freeHead, pool`free, pool`out
      ensures unchanged(this)
      ensures m.Valid() && t.Valid() && pool.Valid() && orders.Valid()
      ensures Forgotten(m, t, o)
      ensures forall n :: n in old(pool.out) ==> n.id == old(n.id)
      ensures m.fifos == old(m.fifos)[i := m.levels[i].vals]
      ensures m.levels[i].vals == P.Without(old(m.levels[i].vals), k)
    {
      hide OrderPool.Valid, OpenAddressMap.Valid, LevelMap.Valid, Level.Valid;
      assert pool.out <= pool.nodes;
      hide Apart;
      orders.Facts();
      UnlinkNode(m, t, lvl, o, i, k);
      var found := orders.Erase(o.id);
      GiveBack(m, t, o);
    }

    /** Takes the node at place `k` of level `i` out of the book; its level may be left empty. */
    method Detach(m: LevelMap, t: LevelMap, lvl: Level, o: Order, ghost gap: Level?, ghost i: nat, ghost k: nat)
      requires Shape(gap) && (gap == null || gap == lvl)
      requires Sides(m, t)
      requires i < |m.levels| && m.levels[i] == lvl && k < |lvl.queue| && lvl.queue[k] == o
      modifies m`fifos, m`nodes, m.levels, m.nodes`prev, m.nodes`next, m.nodes`level
      modifies orders, pool`freeHead, pool`free, pool`out
      ensures unchanged(this)
      ensures Shape(lvl) && m.levels == old(m.levels) && unchanged(t) && pool.nodes == old(pool.nodes)
      ensures orders.m == old(orders.m) - {o.id} && o.id == old(o.id)
      ensures i < |old(m.fifos)| && k < |old(m.fifos)[i]|
      ensures m.fifos == Removed(old(m.fifos), i, k)
    {
      m.LevelAt(i);
      m.NodeAt(i, k);
      InBook(m, o);
      assert Filled(m, gap) && Filled(t, gap);
      hide OrderPool.Valid, OpenAddressMap.Valid, LevelMap.Valid, Level.Valid, Apart, Indexed, Filled;
      TakeOut(m, t, lvl, o, i, k);
      StillApart(m, t, o);
      StillIndexed(m, t, o);
      StillFilled(m, lvl, gap, i);
      OtherFilled(t, lvl, gap);
      Assemble(m, t, lvl);
    }

    // ----- dropping a level that has become empty

    ghost predicate Within(ls: seq<Level>, was: seq<Level>) {
      forall j :: 0 <= j < |ls| ==> ls[j] in was
    }

    twostate lemma LevelDropped(m: LevelMap, new t: LevelMap, new lvl: Level, new i: nat)
      requires old(allocated(t)) && old(allocated(lvl))
      requires Sides(m, t) && old(Apart()) && old(Filled(m, lvl))
      requires old(Filled(t, lvl)) && unchanged(t) && unchanged(pool)
      requires i < |old(m.levels)| && old(m.levels)[i] == lvl && lvl !in t.levels
      requires forall j :: 0 <= j < |old(m.levels)| && j != i ==> old(m.levels)[j] != lvl
      requires m.Dropped(i) && old(m.fifos)[i] == []
      ensures Apart() && Filled(m, null) && Filled(t, null)
      ensures Flatten(m.fifos) == Flatten(old(m.fifos)) && Within(m.levels, old(m.levels))
    {
      FlattenDropEmpty(old(m.fifos), i);
      assert forall j :: 0 <= j < |m.levels| ==>
          m.levels[j] == old(m.levels)[if j < i then j else j + 1] &&
          m.fifos[j] == old(m.fifos)[if j < i then j else j + 1];
      assert forall j :: 0 <= j < |t.levels| ==> t.levels[j] in t.levels;
    }

    lemma NoGap(m: LevelMap, t: LevelMap, lvl: Level, i: nat)
      requires Sides(m, t) && Apart() && Filled(m, lvl) && Filled(t, lvl)
      requires i < |m.levels| && m.levels[i] == lvl && m.fifos[i] != []
      requires forall j :: 0 <= j < |m.levels| && j != i ==> m.levels[j] != lvl
      ensures Filled(m, null) && Filled(t, null)
    {
      assert lvl in m.levels && lvl !in t.levels;
      assert forall j :: 0 <= j < |t.levels| ==> t.levels[j] in t.levels;
    }

    method DropIfEmpty(m: LevelMap, t: LevelMap, lvl: Level, ghost i: nat)
      requires Shape(lvl) && Sides(m, t) && i < |m.levels| && m.levels[i] == lvl
      modifies m`store, m`keys, m`levels, m`fifos
      ensures unchanged(this, t, pool, orders) && Within(m.levels, old(m.levels))
      ensures Shape(null) && Flatten(m.fifos) == old(Flatten(m.fifos))
    {
      m.LevelAt(i);
      forall j | 0 <= j < |m.levels| && j != i
        ensures m.levels[j] != lvl
      {
        m.LevelsApart(i, j);
      }
      assert lvl in m.levels && lvl !in t.levels;
      assert lvl.orderCount == 0 <==> m.fifos[i] == [];
      assert lvl.orderCount == 0 <==> lvl.queue == [];
      assert Filled(m, lvl) && Filled(t, lvl);
      hide OrderPool.Valid, OpenAddressMap.Valid, LevelMap.Valid, Level.Valid, Apart, Filled;
      if lvl.orderCount == 0 {
        DropEmpty(m, t, lvl, i);
      } else {
        NoGap(m, t, lvl, i);
        Assemble(m, t, null);
      }
    }

    method DropEmpty(m: LevelMap, t: LevelMap, lvl: Level, ghost i: nat)
      requires Shape(lvl) && Sides(m, t) && i < |m.levels| && m.levels[i] == lvl
      requires |m.fifos| == |m.levels| && m.fifos[i] == [] && lvl.queue == [] && lvl !in t.levels
      requires forall j :: 0 <= j < |m.levels| && j != i ==> m.levels[j] != lvl
      modifies m`store, m`keys, m`levels, m`fifos
      ensures unchanged(this, t, pool, orders) && Within(m.levels, old(m.levels))
      ensures Shape(null) && Flatten(m.fifos) == old(Flatten(m.fifos))
    {
      hide OrderPool.Valid, OpenAddressMap.Valid, LevelMap.Valid, LevelMap.Dropped, Level.Valid, Apart, Filled, Flatten;
      hide Indexed;
      assert Filled(m, lvl) && Filled(t, lvl);
      m.OnLevelEmpty(lvl, i);
      RestKept(t, m, [], {});
      LevelDropped(m, t, lvl, i);
      Assemble(m, t, null);
    }

    // ----- shrinking a resting order

    twostate lemma ShavedShape(m: LevelMap, new t: LevelMap, new o: Order, new gap: Level?, new i: nat, new k: nat)
      requires old(allocated(t)) && old(allocated(o)) && old(allocated(gap))
      requires Sides(m, t) && old(Apart()) && old(Filled(m, gap)) && old(Filled(t, gap)) && unchanged(t, pool)
      requires m.Shrunk(i, o) && i < |m.levels| && i < |old(m.fifos)| && k < |old(m.fifos)[i]|
      requires m.levels[i].vals == old(m.fifos)[i][k := old(m.fifos)[i][k].(qty := o.qty)]
      ensures Apart() && Filled(m, gap) && Filled(t, gap)
      ensures m.levels == old(m.levels)
      ensures m.fifos == WithQty(old(m.fifos), i, k, o.qty)
    {
    }

    /** The node-level part of `Shave`. */
    method ReduceSide(m: LevelMap, lvl: Level, o: Order, delta: Qty, ghost ls: seq<Level>, ghost ns: set<Order>,
                      ghost i: nat, ghost k: nat)
      requires m.Valid() && ls == m.levels && ns == {o}
      requires i < |m.levels| && m.levels[i] == lvl && k < |lvl.queue| && lvl.queue[k] == o && delta <= o.qty
      modifies m`fifos, m.levels, o`qty
      ensures unchanged(this)
      ensures m.Valid() && m.Shrunk(i, o) && o.qty == old(o.qty) - delta
      ensures m.levels[i].vals == old(m.levels[i].vals)[k := old(m.levels[i].vals)[k].(qty := o.qty)]
      ensures forall x: object {:trigger Kept(x)} :: old(allocated(x)) && Outside(x, m, ls, ns) ==> Kept(x)
    {
      hide LevelMap.Valid, LevelMap.Shrunk, Level.Valid;
      m.Reduce(lvl, o, delta, i, k);
      forall x: object | old(allocated(x)) && Outside(x, m, ls, ns)
        ensures Kept(x)
      {
        assert unchanged(x);
      }
    }

    /** Order `o` stands at place `k` of level `i` of side `m`, whose nodes and levels are its own. */
    ghost predicate Stands(m: LevelMap, t: LevelMap, o: Order, i: nat, k: nat)
      reads m, t, m.levels, pool
    {
      && i < |m.levels| && |m.fifos| == |m.levels| && m.fifos[i] == m.levels[i].vals
      && k < |m.levels[i].queue| && |m.fifos[i]| == |m.levels[i].queue| && m.levels[i].queue[k] == o
      && {o} !! t.nodes && {o} <= pool.out
      && forall j :: 0 <= j < |t.levels| ==> t.levels[j] !in m.levels
    }

    lemma StandsAt(m: LevelMap, t: LevelMap, o: Order, gap: Level?, i: nat, k: nat)
      requires Shape(gap) && Sides(m, t) && i < |m.levels| && k < |m.levels[i].queue| && m.levels[i].queue[k] == o
      ensures Stands(m, t, o, i, k) && m.Valid() && t.Valid() && o in m.nodes
    {
      hide LevelMap.Valid, Level.Valid, OrderPool.Valid, OpenAddressMap.Valid, Filled;
      m.LevelAt(i);
      m.NodeAt(i, k);
      InBook(m, o);
      SidesApart(m, t);
    }

    /** Shrinking `o` on side `m` keeps the shape of the book. */
    twostate lemma ShaveKeeps(m: LevelMap, new t: LevelMap, new o: Order, new ls: seq<Level>, new ns: set<Order>,
                              new gap: Level?, new i: nat, new k: nat)
      requires old(allocated(t)) && old(allocated(o)) && old(allocated(ls)) && old(allocated(ns)) && old(allocated(gap))
      requires old(Shape(gap)) && Sides(m, t) && old(Stands(m, t, o, i, k)) && ls == old(m.levels) && ns == {o}
      requires m.Valid() && m.Shrunk(i, o)
      requires m.levels[i].vals == old(m.levels[i].vals)[k := old(m.levels[i].vals)[k].(qty := o.qty)]
      requires forall x: object {:trigger Kept(x)} :: old(allocated(x)) && Outside(x, m, ls, ns) ==> Kept(x)
      ensures Shape(gap) && m.levels == ls && unchanged(t, pool, orders) && m.levels[i].queue == old(m.levels[i].queue)
      ensures m.fifos == WithQty(old(m.fifos), i, k, o.qty)
    {
      assert old(t.Valid()) && old(Filled(m, gap)) && old(Filled(t, gap)) && o.id == old(o.id);
      hide OrderPool.Valid, OpenAddressMap.Valid, LevelMap.Valid, LevelMap.Shrunk, Level.Valid, Filled, Apart, Indexed;
      hide Outside, Kept;
      RestKept(t, m, ls, ns);
      ShavedShape(m, t, o, gap, i, k);
      Assemble(m, t, gap);
    }

    /** Takes `delta` shares off the order at place `k` of level `i`, leaving some. */
    method Shave(m: LevelMap, t: LevelMap, lvl: Level, o: Order, delta: Qty, ghost gap: Level?, ghost i: nat,
                 ghost k: nat)
      requires Shape(gap) && Sides(m, t)
      requires i < |m.levels| && m.levels[i] == lvl && k < |lvl.queue| && lvl.queue[k] == o && delta <= o.qty
      modifies m`fifos, m.levels, o`qty
      ensures unchanged(this)
      ensures Shape(gap) && o.qty == old(o.qty) - delta
      ensures i < |old(m.fifos)| && k < |old(m.fifos)[i]|
      ensures m.levels == old(m.levels) && lvl.queue == old(lvl.queue) && unchanged(t, pool, orders)
      ensures m.fifos == WithQty(old(m.fifos), i, k, o.qty)
    {
      StandsAt(m, t, o, gap, i, k);
      ghost var ls, ns := m.levels, {o};
      assert k < |m.fifos[i]|;
      hide Sides, LevelMap.Valid, LevelMap.Shrunk, Level.Valid, Shape, Outside, Kept, Stands;
      ReduceSide(m, lvl, o, delta, ls, ns, i, k);
      ShaveKeeps(m, t, o, ls, ns, gap, i, k);
    }

    // ----- resting an order

    /** Only the new level is new, and only it may be empty. */
    twostate lemma LevelGrown(m: LevelMap, new lvl: Level, new k: nat)
      requires m.Grown(k, lvl) && fresh(lvl) && old(Filled(m, null))
      ensures Filled(m, lvl) && Flatten(m.fifos) == Flatten(old(m.fifos))
      ensures forall l :: l in m.levels ==> l in old(m.levels) || l == lvl
    {
      hide Flatten;
      var f := old(m.fifos);
      FlattenEmpty(f[..k], f[k..]);
      assert f == f[..k] + f[k..];
      assert forall j :: 0 <= j < |m.levels| && j != k ==>
          m.levels[j] == old(m.levels)[if j < k then j else j - 1] && m.fifos[j] == f[if j < k then j else j - 1];
    }

    twostate lemma LevelOpened(m: LevelMap, new t: LevelMap, new lvl: Level, new k: nat)
      requires old(allocated(t))
      requires Sides(m, t) && old(Apart()) && old(Filled(m, null)) && old(Filled(t, null)) && unchanged(t, pool)
      requires if fresh(lvl) then m.Grown(k, lvl) else unchanged(m)
      ensures Apart() && Filled(m, lvl) && Filled(t, lvl) && Flatten(m.fifos) == Flatten(old(m.fifos))
      ensures Widened(m)
    {
      hide Flatten;
      if fresh(lvl) {
        LevelGrown(m, lvl, k);
        assert m.nodes == old(m.nodes);
        hide LevelMap.Grown;
        assert forall l :: l in t.levels ==> old(allocated(l));
      }
    }

    twostate lemma OpenKeeps(m: LevelMap, new t: LevelMap, new lvl: Level, new k: nat)
      requires old(allocated(t))
      requires old(Shape(null)) && Sides(m, t) && m.Valid()
      requires if fresh(lvl) then m.Grown(k, lvl) else unchanged(m)
      requires forall x: object {:trigger Kept(x)} :: old(allocated(x)) && Outside(x, m, [], {}) ==> Kept(x)
      ensures Shape(lvl) && Flatten(m.fifos) == Flatten(old(m.fifos)) && unchanged(t, pool, orders)
      ensures Widened(m)
    {
      assert old(t.Valid()) && old(Filled(m, null)) && old(Filled(t, null));
      hide OrderPool.Valid, OpenAddressMap.Valid, LevelMap.Valid, LevelMap.Grown, Level.Valid;
      hide Filled, Apart, Indexed, Flatten;
      hide Outside, Kept;
      RestKept(t, m, [], {});
      LevelOpened(m, t, lvl, k);
      Assemble(m, t, lvl);
    }

    method GrowSide(m: LevelMap, price: Price) returns (lvl: Level, ghost k: nat)
      requires m.Valid() && m.range.Valid(price)
      modifies m`store, m`keys, m`levels, m`fifos
      ensures unchanged(this)
      ensures m.Valid() && k < |m.levels| && m.levels[k] == lvl && lvl.price == price
      ensures if fresh(lvl) then m.Grown(k, lvl) else unchanged(m)
      ensures forall x: object {:trigger Kept(x)} :: old(allocated(x)) && Outside(x, m, [], {}) ==> Kept(x)
    {
      hide LevelMap.Valid, LevelMap.Grown, Level.Valid;
      lvl, k := m.GetOrCreate(price);
      forall x: object | old(allocated(x)) && Outside(x, m, [], {})
        ensures Kept(x)
      {
        assert unchanged(x);
      }
    }

    /** The level at `price` of side `m`, created empty when there was none. */
    method OpenLevel(m: LevelMap, t: LevelMap, price: Price) returns (lvl: Level, ghost k: nat)
      requires Shape(null) && Sides(m, t) && m.range.Valid(price)
      modifies m`store, m`keys, m`levels, m`fifos
      ensures unchanged(this)
      ensures Shape(lvl) && k < |m.levels| && m.levels[k] == lvl && lvl.price == price
      ensures Flatten(m.fifos) == Flatten(old(m.fifos)) && unchanged(t, pool, orders)
      ensures Widened(m)
    {
      assert m.Valid();
      hide Sides, LevelMap.Valid, LevelMap.Grown, Level.Valid, Shape, Outside, Kept, Flatten;
      lvl, k := GrowSide(m, price);
      OpenKeeps(m, t, lvl, k);
    }

    /** Node `o` has been taken from the pool for an order that is not yet on a side or in the index. */
    ghost predicate Loose(o: Order, gap: Level?)
      reads ladder.bids, ladder.asks, ladder.bids.levels, ladder.asks.levels, pool, pool.nodes, orders
    {
      && ApartBut(o) && IndexedBut(o)
      && ladder.bids.Valid() && ladder.asks.Valid() && pool.Valid() && orders.Valid()
      && Filled(ladder.bids, gap) && Filled(ladder.asks, gap)
    }

    ghost predicate ApartBut(o: Order)
      reads ladder.bids, ladder.asks, pool
    {
      && ladder.bids != ladder.asks && ladder.bids.side == Bid && ladder.asks.side == Ask
      && ladder.bids.range == ladder.range && ladder.asks.range == ladder.range
      && (forall l :: l in ladder.bids.levels ==> l !in ladder.asks.levels)
      && pool.out == ladder.bids.nodes + ladder.asks.nodes + {o} && ladder.bids.nodes !! ladder.asks.nodes
      && o !in ladder.bids.nodes && o !in ladder.asks.nodes
      && pool.out <= pool.nodes
      && (forall n :: n in pool.free ==> n in pool.nodes)
      && (forall n :: n in pool.spare ==> n in pool.nodes)
    }

    ghost predicate IndexedBut(o: Order)
      reads pool`out, orders`m, pool.out`id
    {
      && |orders.m| + 1 == |pool.out|
      && (forall n :: n in pool.out && n != o ==> n.id in orders.m && orders.m[n.id] == n)
      && (forall id :: id in orders.m ==> orders.m[id] in pool.out && orders.m[id] != o && orders.m[id].id == id)
    }

    ghost predicate Beyond(x: object, ns: set<Order>) {
      x != pool && forall n :: n in ns ==> x != n
    }

    twostate lemma FetchApart(m: LevelMap, new t: LevelMap, new o: Order)
      requires old(allocated(t))
      requires old(Apart()) && Sides(m, t) && unchanged(m, t)
      requires pool.Valid() && pool.out == old(pool.out) + {o} && o !in old(pool.out)
      ensures ApartBut(o)
    {
      pool.Apartness();
      hide OrderPool.Valid;
    }

    twostate lemma FetchIndexed(ns: set<Order>, new o: Order)
      requires old(Indexed()) && old(pool.out) !! ns
      requires pool.out == old(pool.out) + {o} && o !in old(pool.out)
      requires forall x: object {:trigger Kept(x)} :: old(allocated(x)) && Beyond(x, ns) ==> Kept(x)
      ensures IndexedBut(o) && unchanged(orders)
    {
      assert Kept(orders);
      forall n | n in old(pool.out)
        ensures n.id == old(n.id)
      {
        assert Kept(n);
      }
    }

    /** Taking a node from the pool leaves the sides and the index as they are. */
    twostate lemma FetchKeeps(m: LevelMap, new t: LevelMap, new ns: set<Order>, new gap: Level?, new o: Order)
      requires old(allocated(t)) && old(allocated(ns)) && old(allocated(gap))
      requires old(Shape(gap)) && Sides(m, t) && old(m.nodes) !! ns && old(t.nodes) !! ns && old(pool.out) !! ns
      requires pool.Valid() && pool.out == old(pool.out) + {o} && o !in old(pool.out)
      requires forall x: object {:trigger Kept(x)} :: old(allocated(x)) && Beyond(x, ns) ==> Kept(x)
      ensures Loose(o, gap) && unchanged(m, t, orders)
    {
      hide Apart, ApartBut, Indexed, IndexedBut, Filled, LevelMap.Valid, OrderPool.Valid, OpenAddressMap.Valid;
      hide Beyond, Kept;
      BeyondKept(m, ns);
      BeyondKept(t, ns);
      FetchApart(m, t, o);
      FetchIndexed(ns, o);
    }

    twostate lemma BeyondKept(m: LevelMap, new ns: set<Order>)
      requires old(allocated(ns))
      requires old(m.Valid()) && old(m.nodes) !! ns
      requires forall x: object {:trigger Kept(x)} :: old(allocated(x)) && Beyond(x, ns) ==> Kept(x)
      ensures m.Valid() && unchanged(m)
    {
      assert Kept(m);
      forall j | 0 <= j < |m.levels|
        ensures unchanged(m.levels[j])
      {
        assert Kept(m.levels[j]);
      }
      forall n | n in m.nodes
        ensures unchanged(n)
      {
        assert Kept(n);
      }
      hide LevelMap.Valid;
      m.Untouched();
    }

    method AllocNode(ghost ns: set<Order>) returns (o: Order)
      requires pool.Valid() && ns == pool.nodes - pool.out
      modifies pool, ns
      ensures unchanged(this)
      ensures pool.Valid() && pool.out == old(pool.out) + {o} && o !in old(pool.out)
      ensures old(pool.nodes) <= pool.nodes && fresh(pool.nodes - old(pool.nodes))
      ensures o.level == null && (o in ns || fresh(o))
    {
      pool.Apartness();
      assert forall n :: n in pool.free ==> n in ns;
      hide OrderPool.Valid;
      o := pool.Alloc();
    }

    method TakeNode(id: OrderId, s: Side, price: Price, qty: Qty, actor: ParticipantId, ghost ns: set<Order>)
      returns (o: Order)
      requires pool.Valid() && ns == pool.nodes - pool.out
      modifies pool, ns
      ensures unchanged(this)
      ensures pool.Valid() && pool.out == old(pool.out) + {o} && o !in old(pool.out)
      ensures old(pool.nodes) <= pool.nodes && fresh(pool.nodes - old(pool.nodes))
      ensures o.level == null && o.side == s && o.Value() == OpenOrder(id, price, qty, actor)
      ensures forall x: object {:trigger Kept(x)} :: old(allocated(x)) && Beyond(x, ns) ==> Kept(x)
    {
      hide OrderPool.Valid;
      o := AllocNode(ns);
      FillIn(o, id, s, price, qty, actor);
      forall x: object | old(allocated(x)) && Beyond(x, ns)
        ensures Kept(x)
      {
        assert unchanged(x);
      }
    }

    method FillIn(o: Order, id: OrderId, s: Side, price: Price, qty: Qty, actor: ParticipantId)
      requires pool.Valid() && o in pool.out
      modifies o`id, o`price, o`qty, o`side, o`participant
      ensures unchanged(this, pool) && pool.Valid()
      ensures o.side == s && o.Value() == OpenOrder(id, price, qty, actor)
    {
      pool.Apartness();
      hide OrderPool.Valid;
      o.id := id;
      o.price := price;
      o.qty := qty;
      o.side := s;
      o.participant := actor;
      pool.Untouched();
    }

    /** A node from the pool, filled in for a new order. */
    method Fetch(m: LevelMap, t: LevelMap, id: OrderId, s: Side, price: Price, qty: Qty, actor: ParticipantId,
                 ghost gap: Level?) returns (o: Order)
      requires Shape(gap) && Sides(m, t)
      modifies pool, pool.nodes
      ensures unchanged(this)
      ensures Loose(o, gap) && unchanged(m, t, orders)
      ensures old(pool.nodes) <= pool.nodes && fresh(pool.nodes - old(pool.nodes))
      ensures o.level == null && o.side == s && o.id == id && o.price == price
      ensures o.Value() == OpenOrder(id, price, qty, actor)
    {
      ghost var ns := pool.nodes - pool.out;
      assert pool.Valid() && m.nodes !! ns && t.nodes !! ns by {
        hide LevelMap.Valid, OrderPool.Valid, OpenAddressMap.Valid;
      }
      hide Shape, Loose, OrderPool.Valid, Sides, Beyond, Kept;
      o := TakeNode(id, s, price, qty, actor, ns);
      FetchKeeps(m, t, ns, gap, o);
    }

    /** `o` has joined its level but not the index. */
    ghost predicate Unnamed(o: Order, gap: Level?)
      reads ladder.bids, ladder.asks, ladder.bids.levels, ladder.asks.levels, pool, pool.nodes, orders
    {
      && Apart() && IndexedBut(o)
      && ladder.bids.Valid() && ladder.asks.Valid() && pool.Valid() && orders.Valid()
      && Filled(ladder.bids, gap) && Filled(ladder.asks, gap)
    }

    method JoinSide(m: LevelMap, lvl: Level, o: Order, ghost ls: seq<Level>, ghost ns: set<Order>, ghost k: nat)
      requires m.Valid() && ls == m.levels && ns == m.nodes + {o}
      requires k < |m.levels| && m.levels[k] == lvl
      requires o.level == null && o.side == m.side && o.price == lvl.price && o !in m.nodes
      modifies m`fifos, m`nodes, m.levels, ns`prev, ns`next, ns`level
      ensures unchanged(this)
      ensures m.Valid() && m.Joined(k, o) && o.id == old(o.id)
      ensures m.levels[k].vals == old(m.levels[k].vals) + [o.Value()] && o.Value() == old(o.Value())
      ensures forall x: object {:trigger Kept(x)} :: old(allocated(x)) && Outside(x, m, ls, ns) ==> Kept(x)
      ensures forall n :: n in ns ==> n.id == old(n.id)
    {
      hide LevelMap.Valid, LevelMap.Joined, Level.Valid;
      m.Join(lvl, o, k);
      forall x: object | old(allocated(x)) && Outside(x, m, ls, ns)
        ensures Kept(x)
      {
        assert unchanged(x);
      }
    }

    twostate lemma JoinedShape(m: LevelMap, new t: LevelMap, new lvl: Level, new o: Order, new k: nat)
      requires old(allocated(t)) && old(allocated(lvl)) && old(allocated(o))
      requires Sides(m, t) && old(ApartBut(o)) && old(Filled(m, lvl)) && old(Filled(t, lvl)) && unchanged(t, pool)
      requires m.Joined(k, o) && m.levels[k] == lvl
      requires k < |old(m.fifos)| && m.levels[k].vals == old(m.fifos)[k] + [o.Value()]
      ensures Apart() && Filled(m, lvl) && Filled(t, lvl)
      ensures m.levels == old(m.levels) && m.keys == old(m.keys)
      ensures m.fifos == old(m.fifos)[k := old(m.fifos)[k] + [o.Value()]]
    {
    }

    twostate lemma JoinIndexed(m: LevelMap, new ls: seq<Level>, new ns: set<Order>, new o: Order)
      requires old(allocated(ls)) && old(allocated(ns)) && old(allocated(o))
      requires old(IndexedBut(o)) && forall n :: n in ns ==> n.id == old(n.id)
      requires forall x: object {:trigger Kept(x)} :: old(allocated(x)) && Outside(x, m, ls, ns) ==> Kept(x)
      ensures IndexedBut(o) && unchanged(pool, orders)
    {
      assert Kept(pool) && Kept(orders);
      forall n | n in pool.out
        ensures n.id == old(n.id)
      {
        assert n in ns || Kept(n);
      }
    }

    twostate lemma JoinKeeps(m: LevelMap, new t: LevelMap, new lvl: Level, new o: Order, new ls: seq<Level>,
                             new ns: set<Order>, new k: nat)
      requires old(allocated(t)) && old(allocated(lvl)) && old(allocated(o)) && old(allocated(ls)) && old(allocated(ns))
      requires old(Loose(o, lvl)) && Sides(m, t) && ns == old(m.nodes) + {o} && ls == old(m.levels)
      requires k < |old(m.fifos)| == |ls| && old(m.levels[k].vals) == old(m.fifos)[k] && ls[k] == lvl
      requires m.Valid() && m.Joined(k, o) && m.levels[k].vals == old(m.levels[k].vals) + [o.Value()]
      requires forall j :: 0 <= j < |old(t.levels)| ==> old(t.levels)[j] !in ls
      requires ns !! old(t.nodes) && ns <= old(pool.out) && forall n :: n in ns ==> n.id == old(n.id)
      requires forall x: object {:trigger Kept(x)} :: old(allocated(x)) && Outside(x, m, ls, ns) ==> Kept(x)
      ensures Unnamed(o, lvl) && unchanged(t, pool, orders)
      ensures m.levels == ls && m.keys == old(m.keys) && m.fifos == old(m.fifos)[k := old(m.fifos)[k] + [o.Value()]]
    {
      assert m.levels == ls;
      hide Apart, ApartBut, IndexedBut, Filled, LevelMap.Valid, LevelMap.Joined, OrderPool.Valid, OpenAddressMap.Valid;
      hide Outside, Kept;
      SideKept(t, m, ls, ns);
      PoolKept(m, ls, ns);
      JoinIndexed(m, ls, ns, o);
      JoinedShape(m, t, lvl, o, k);
    }

    lemma LooseFacts(m: LevelMap, t: LevelMap, lvl: Level, o: Order, k: nat)
      requires Loose(o, lvl) && Sides(m, t) && k < |m.levels| && m.levels[k] == lvl
      ensures m.Valid() && |m.fifos| == |m.levels| && m.levels[k].vals == m.fifos[k]
      ensures o !in m.nodes && (m == ladder.bids ==> m.side == Bid) && (m == ladder.asks ==> m.side == Ask)
      ensures forall j :: 0 <= j < |t.levels| ==> t.levels[j] !in m.levels
      ensures m.nodes + {o} !! t.nodes && m.nodes + {o} <= pool.out && pool.out <= pool.nodes
    {
      m.LevelAt(k);
      hide LevelMap.Valid, OrderPool.Valid, OpenAddressMap.Valid, IndexedBut;
      assert forall j :: 0 <= j < |t.levels| ==> t.levels[j] in t.levels;
    }

    method Append(m: LevelMap, t: LevelMap, lvl: Level, o: Order, ghost k: nat)
      requires Loose(o, lvl) && Sides(m, t) && k < |m.levels| && m.levels[k] == lvl
      requires o.level == null && m == ladder.On(o.side) && o.price == lvl.price
      modifies m`fifos, m`nodes, m.levels, pool.nodes
      ensures unchanged(this)
      ensures Unnamed(o, lvl) && unchanged(t, pool, orders) && o.Value() == old(o.Value()) && o.id == old(o.id)
      ensures m.levels == old(m.levels) && m.keys == old(m.keys) && k < |old(m.fifos)|
      ensures m.fifos == old(m.fifos)[k := old(m.fifos)[k] + [o.Value()]]
    {
      LooseFacts(m, t, lvl, o, k);
      ghost var ls, ns := m.levels, m.nodes + {o};
      assert o.side == m.side && ns <= pool.nodes;
      hide Sides, LevelMap.Valid, LevelMap.Joined, Level.Valid, Loose, Unnamed, Outside, Kept;
      JoinSide(m, lvl, o, ls, ns, k);
      JoinKeeps(m, t, lvl, o, ls, ns, k);
    }

    twostate lemma NowIndexed(o: Order)
      requires old(IndexedBut(o)) && o in pool.out && o.id !in old(orders.m) && orders.m == old(orders.m)[o.id := o]
      requires unchanged(pool) && forall n :: n in pool.out ==> n.id == old(n.id)
      ensures Indexed()
    {
      assert orders.m.Keys == old(orders.m).Keys + {o.id};
    }

    /** Enters `o` in the index. */
    method Name(m: LevelMap, t: LevelMap, o: Order, ghost gap: Level?)
      requires Unnamed(o, gap) && Sides(m, t) && o in pool.out && o.id != 0 && o.id !in orders.m
      modifies orders
      ensures unchanged(this)
      ensures Shape(gap) && orders.m.Keys == old(orders.m).Keys + {o.id}
    {
      hide OrderPool.Valid, OpenAddressMap.Valid, LevelMap.Valid, Apart, Filled, Indexed, IndexedBut;
      var inserted := orders.Insert(o.id, o);
      NowIndexed(o);
    }

    /** Gives the node its place at the back of `lvl` and its entry in the index. */
    method Enlist(m: LevelMap, t: LevelMap, lvl: Level, o: Order, ghost k: nat)
      requires Loose(o, lvl) && Sides(m, t) && k < |m.levels| && m.levels[k] == lvl
      requires o.level == null && m == ladder.On(o.side) && o.price == lvl.price
      requires o.id != 0 && o.id !in orders.m
      modifies m`fifos, m`nodes, m.levels, pool.nodes, orders
      ensures unchanged(this)
      ensures Shape(lvl) && unchanged(t, pool) && orders.m.Keys == old(orders.m).Keys + {o.id} && o.id == old(o.id)
      ensures m.levels == old(m.levels) && m.keys == old(m.keys) && k < |old(m.fifos)|
      ensures m.fifos == old(m.fifos)[k := old(m.fifos)[k] + [o.Value()]] && o.Value() == old(o.Value())
    {
      hide OrderPool.Valid, OpenAddressMap.Valid, LevelMap.Valid, Filled, IndexedBut;
      assert o in pool.out;
      hide Loose, Unnamed, Shape, ApartBut;
      Append(m, t, lvl, o, k);
      Name(m, t, o, lvl);
    }

    /** Shape of a book whose level `lvl`, the only one that could be empty, holds an order. */
    lemma Settled(m: LevelMap, t: LevelMap, lvl: Level, k: nat)
      requires Shape(lvl) && Sides(m, t) && k < |m.levels| && m.levels[k] == lvl && k < |m.fifos| && m.fifos[k] != []
      ensures Shape(null)
    {
      assert m.Valid() && Filled(m, lvl) && Filled(t, lvl);
      forall j | 0 <= j < |m.levels| && j != k
        ensures m.levels[j] != lvl
      {
        m.LevelsApart(j, k);
      }
      hide OrderPool.Valid, OpenAddressMap.Valid, LevelMap.Valid, Level.Valid, Indexed;
      NoGap(m, t, lvl, k);
      hide Apart, Filled;
      Assemble(m, t, null);
    }

    lemma BackOfSide(m: LevelMap, fifos: seq<Fifo>, keys: seq<Price>, k: nat, o: OpenOrder)
      requires SortedKeys(m.side, keys) && Priced(keys, fifos) && k < |fifos| && keys[k] == o.price
      requires m.fifos == fifos[k := fifos[k] + [o]]
      ensures Flatten(m.fifos) == P.Insert(m.side, Flatten(fifos), o)
    {
      BackOfLevel(m.side, keys, fifos, k, o);
    }

    /** Every node of the arena was there before or was allocated since. */
    twostate predicate PoolGrows()
      reads pool
    {
      forall n :: n in pool.nodes && old(allocated(n)) ==> n in old(pool.nodes)
    }

    /** Every level of the side stood there before or was allocated since. */
    twostate predicate Widened(m: LevelMap)
      reads m`levels
    {
      forall j :: 0 <= j < |m.levels| ==> m.levels[j] in old(m.levels) || fresh(m.levels[j])
    }

    /** The book reaches nothing it did not reach before except what was allocated since. */
    twostate predicate Grows()
      reads ladder.bids, ladder.asks, pool
    {
      && Widened(ladder.bids) && Widened(ladder.asks)
      && old(pool.nodes) <= pool.nodes && PoolGrows()
    }

    twostate lemma GrowsBy(m: LevelMap, new t: LevelMap)
      requires old(allocated(t))
      requires Sides(m, t) && Widened(m) && t.levels == old(t.levels)
      requires old(pool.nodes) <= pool.nodes && PoolGrows()
      ensures Grows()
    {
      assert Widened(t);
    }

    /** Queues a new order at the back of level `lvl`, which may be the only empty one. */
    method QueueAt(m: LevelMap, t: LevelMap, lvl: Level, id: OrderId, price: Price, qty: Qty, actor: ParticipantId,
                   ghost k: nat)
      requires Shape(lvl) && Sides(m, t) && k < |m.levels| && m.levels[k] == lvl && lvl.price == price
      requires id != 0 && id !in orders.m
      modifies m`fifos, m`nodes, m.levels, pool, pool.nodes, orders
      ensures unchanged(this)
      ensures Shape(null) && unchanged(t) && m.keys == old(m.keys) && m.levels == old(m.levels)
      ensures old(pool.nodes) <= pool.nodes && PoolGrows()
      ensures orders.m.Keys == old(orders.m).Keys + {id}
      ensures k < |old(m.fifos)|
      ensures m.fifos == old(m.fifos)[k := old(m.fifos)[k] + [OpenOrder(id, price, qty, actor)]]
    {
      assert m == ladder.On(m.side);
      hide Shape, Loose, Sides, Order.Value;
      var o := Fetch(m, t, id, m.side, price, qty, actor, lvl);
      Enlist(m, t, lvl, o, k);
      Settled(m, t, lvl, k);
    }

    /** Rests an order on side `m`. */
    method RestOn(m: LevelMap, t: LevelMap, id: OrderId, price: Price, qty: Qty, actor: ParticipantId)
      requires Shape(null) && Sides(m, t) && id != 0 && id !in orders.m && m.range.Valid(price)
      modifies m, m.levels, pool, pool.nodes, orders
      ensures unchanged(this)
      ensures Shape(null) && unchanged(t)
      ensures Widened(m)
      ensures old(pool.nodes) <= pool.nodes && PoolGrows()
      ensures orders.m.Keys == old(orders.m).Keys + {id}
      ensures Flatten(m.fifos) == P.Insert(m.side, old(Flatten(m.fifos)), OpenOrder(id, price, qty, actor))
    {
      assert m != t;
      hide Shape, P.Insert, Flatten, Sides;
      var lvl, k := OpenLevel(m, t, price);
      KeysOf(m, t, lvl, k);
      ghost var keys, fifos := m.keys, m.fifos;
      assert pool.nodes == old(pool.nodes);
      QueueAt(m, t, lvl, id, price, qty, actor, k);
      BackOfSide(m, fifos, keys, k, OpenOrder(id, price, qty, actor));
    }

    /** Rests an order behind every order of its price, creating the level when there was none. */
    method RestOrder(id: OrderId, s: Side, price: Price, qty: Qty, actor: ParticipantId)
      requires Shape(null) && id != 0 && id !in orders.m && ladder.range.Valid(price)
      modifies ladder.bids, ladder.asks, ladder.bids.levels, ladder.asks.levels, pool, pool.nodes, orders
      ensures unchanged(this)
      ensures Shape(null) && Grows()
      ensures orders.m.Keys == old(orders.m).Keys + {id}
      ensures View() == P.Rest(old(View()), s, OpenOrder(id, price, qty, actor))
    {
      var m, t := ladder.On(s), ladder.On(Opposite(s));
      assert Sides(m, t) && m.side == s && m.range == ladder.range;
      hide Shape, P.Insert, Flatten, Widened, Grows;
      RestOn(m, t, id, price, qty, actor);
      GrowsBy(m, t);
    }

    lemma KeysOf(m: LevelMap, t: LevelMap, gap: Level?, k: nat)
      requires Shape(gap) && Sides(m, t) && k < |m.levels|
      ensures SortedKeys(m.side, m.keys) && Priced(m.keys, m.fifos)
      ensures |m.keys| == |m.levels| && m.levels[k].price == m.keys[k]
    {
      m.LevelAt(k);
      m.SortedAndPriced();
    }

    // ----- matching

    /** The front of the best level is the front of the side's queue. */
    lemma FrontOf(m: LevelMap, t: LevelMap, lvl: Level)
      requires Shape(lvl) && Sides(m, t) && |m.levels| > 0 && m.levels[0] == lvl
      ensures |m.fifos| == |m.levels| && |m.fifos[0]| == |lvl.queue|
      ensures lvl.head == if lvl.queue == [] then null else lvl.queue[0]
      ensures lvl.queue != [] ==>
                && lvl.queue[0] in pool.nodes && m.fifos[0][0] == lvl.queue[0].Value()
                && lvl.queue[0].price == lvl.price
                && Flatten(m.fifos) != [] && Flatten(m.fifos)[0] == m.fifos[0][0]
    {
      m.LevelAt(0);
      if lvl.queue != [] {
        m.NodeAt(0, 0);
        InBook(m, lvl.queue[0]);
      }
    }

    ghost predicate AtFront(m: LevelMap, lvl: Level, o: Order)
      reads m, lvl, o
    {
      && |m.levels| > 0 && m.levels[0] == lvl && lvl.queue != [] && lvl.queue[0] == o
      && Headed(m.fifos) && m.fifos[0][0] == o.Value()
    }

    /** Takes the front order of the best level out of the book. */
    method DetachFront(m: LevelMap, t: LevelMap, lvl: Level, o: Order)
      requires Headed(m.fifos) && |m.levels| > 0 && m.levels[0] == lvl && lvl.queue != [] && lvl.queue[0] == o
      requires Shape(lvl) && Sides(m, t)
      modifies m`fifos, m`nodes, m.levels, pool.nodes, orders, pool
      ensures unchanged(this, t)
      ensures Shape(lvl) && m.levels == old(m.levels) && pool.nodes == old(pool.nodes)
      ensures orders.m.Keys <= old(orders.m).Keys
      ensures m.fifos == Removed(old(m.fifos), 0, 0)
    {
      NodesInPool(m, t, lvl);
      hide Shape, Sides, Removed;
      Detach(m, t, lvl, o, lvl, 0, 0);
    }

    /** Takes `fill` shares off the front order, which stays where it is. */
    method ShaveFront(m: LevelMap, t: LevelMap, lvl: Level, o: Order, fill: Qty)
      requires Shape(lvl) && Sides(m, t) && AtFront(m, lvl, o) && fill <= o.qty
      modifies m`fifos, m.levels, o`qty
      ensures unchanged(this, t, pool, orders)
      ensures Shape(lvl) && m.levels == old(m.levels) && lvl.queue == old(lvl.queue)
      ensures o.qty == old(o.qty) - fill && Headed(m.fifos)
      ensures m.fifos == WithQty(old(m.fifos), 0, 0, old(o.qty) - fill)
    {
      hide Shape, Sides, WithQty;
      StillHeaded(m.fifos, o.qty - fill);
      hide Headed;
      Shave(m, t, lvl, o, fill, lvl, 0, 0);
    }

    /** One fill: the front order loses `fill` shares and leaves the book when none is left. */
    method FillFront(m: LevelMap, t: LevelMap, lvl: Level, o: Order, fill: Qty)
      requires Shape(lvl) && Sides(m, t) && AtFront(m, lvl, o) && fill <= o.qty
      modifies m`fifos, m`nodes, m.levels, pool.nodes, orders, pool
      ensures unchanged(this, t)
      ensures Shape(lvl) && m.levels == old(m.levels) && pool.nodes == old(pool.nodes)
      ensures orders.m.Keys <= old(orders.m).Keys
      ensures fill == old(o.qty) ==> m.fifos == Removed(old(m.fifos), 0, 0)
      ensures fill != old(o.qty) ==> m.fifos == WithQty(old(m.fifos), 0, 0, old(o.qty) - fill)
    {
      hide Shape, Flatten, Sides, WithQty, Removed;
      assert Headed(m.fifos) && o in pool.nodes by {
        FrontOf(m, t, lvl);
      }
      hide Headed;
      SpentGone(m.fifos);
      ShaveFront(m, t, lvl, o, fill);
      if o.qty == 0 {
        DetachFront(m, t, lvl, o);
      }
    }

    /** What one fill of the front order does to the side's queue is one step of matching. */
    lemma FillIsStep(a: Aggressor, f: seq<Fifo>, run: P.Run, fill: Qty) returns (next: P.Run)
      requires Headed(f) && run.q == Flatten(f) && !P.Stopped(a, run) && !a.Owns(f[0][0].participant)
      requires fill == Min(run.qty, f[0][0].qty)
      ensures next == P.Step(a, run)
      ensures fill == f[0][0].qty ==> next.q == Flatten(Removed(f, 0, 0))
      ensures fill != f[0][0].qty ==> next.q == Flatten(WithQty(f, 0, 0, f[0][0].qty - fill))
      ensures next.qty == run.qty - fill && next.c == run.c.(traded := run.c.traded + fill)
      ensures next.execs == run.execs + [Execution(f[0][0].id, a.id, f[0][0].price, fill)]
    {
      HeadFilled(f, fill);
      next := P.Step(a, run);
    }

    /** The counters once self-trade prevention has removed what the policy says. */
    static function Prevented(a: Aggressor, c: Counters, resting: Qty, left: Qty): Counters {
      var fired := c.(prevented := c.prevented + 1);
      var killed := if a.stp != CancelAggressor then P.Kill(fired, resting) else fired;
      if a.stp != CancelResting then P.Kill(killed, left) else killed
    }

    static lemma PreventIsStep(a: Aggressor, f: seq<Fifo>, run: P.Run) returns (next: P.Run)
      requires Headed(f) && run.q == Flatten(f) && !P.Stopped(a, run) && a.Owns(f[0][0].participant)
      ensures next == P.Step(a, run) && next.execs == run.execs && next.c == Prevented(a, run.c, f[0][0].qty, run.qty)
      ensures next.qty == if a.stp != CancelResting then 0 else run.qty
      ensures a.stp == CancelAggressor ==> next.q == Flatten(f)
      ensures a.stp != CancelAggressor ==> next.q == Flatten(Removed(f, 0, 0))
    {
      HeadOf(f);
      next := P.Step(a, run);
    }

    /** Sets the counters. */
    method Tally(counters: Counters, ghost gap: Level?, ghost m: LevelMap, ghost t: LevelMap)
      requires Shape(gap)
      modifies this`c
      ensures Shape(gap) && c == counters && unchanged(`stp) && unchanged(m, t, pool, orders)
    {
      hide Shape;
      c := counters;
    }

    method FillAndTally(m: LevelMap, t: LevelMap, lvl: Level, o: Order, fill: Qty, counters: Counters)
      requires Shape(lvl) && Sides(m, t) && AtFront(m, lvl, o) && fill <= o.qty
      modifies this`c, m`fifos, m`nodes, m.levels, pool.nodes, orders, pool
      ensures Shape(lvl) && m.levels == old(m.levels) && unchanged(t) && pool.nodes == old(pool.nodes)
      ensures orders.m.Keys <= old(orders.m).Keys && stp == old(stp) && c == counters
      ensures fill == old(o.qty) ==> m.fifos == Removed(old(m.fifos), 0, 0)
      ensures fill != old(o.qty) ==> m.fifos == WithQty(old(m.fifos), 0, 0, old(o.qty) - fill)
    {
      hide Shape, Sides, WithQty, Removed, AtFront;
      FillFront(m, t, lvl, o, fill);
      Tally(counters, lvl, m, t);
    }

    /** Fills the aggressor against the front order of the best level. */
    method Trade(a: Aggressor, m: LevelMap, t: LevelMap, lvl: Level, qty: Qty, execs: seq<Execution>, ghost run: P.Run)
      returns (left: Qty, reported: seq<Execution>, ghost next: P.Run)
      requires Shape(lvl) && Sides(m, t) && |m.levels| > 0 && m.levels[0] == lvl && lvl.head != null
      requires run.q == Flatten(m.fifos) && run.qty == qty && run.c == c && run.execs == execs
      requires !P.Stopped(a, run) && !a.Owns(lvl.head.participant)
      modifies this`c, m`fifos, m`nodes, m.levels, pool.nodes, orders, pool
      ensures Shape(lvl) && m.levels == old(m.levels) && unchanged(t) && pool.nodes == old(pool.nodes)
      ensures orders.m.Keys <= old(orders.m).Keys
      ensures next == P.Step(a, run)
      ensures stp == old(stp)
      ensures next.q == Flatten(m.fifos) && next.qty == left && next.c == c && next.execs == reported
    {
      hide Shape, Flatten, Sides, WithQty, Removed, P.Step, P.Stopped;
      FrontOf(m, t, lvl);
      var o := lvl.head;
      var fill := Min(qty, o.qty);
      next := FillIsStep(a, m.fifos, run, fill);
      assert AtFront(m, lvl, o);
      assert m.fifos[0][0].qty == o.qty && m.fifos[0][0].id == o.id && m.fifos[0][0].price == lvl.price;
      hide AtFront, Order.Value;
      reported := execs + [Execution(o.id, a.id, lvl.price, fill)];
      left := qty - fill;
      var counters := c.(traded := c.traded + fill);
      assert next.execs == reported && next.c == counters;
      FillAndTally(m, t, lvl, o, fill, counters);
    }

    /** Self-trade prevention against the front order: removes what the policy says. */
    method Prevent(a: Aggressor, m: LevelMap, t: LevelMap, lvl: Level, qty: Qty, ghost run: P.Run)
      returns (left: Qty, ghost next: P.Run)
      requires Shape(lvl) && Sides(m, t) && |m.levels| > 0 && m.levels[0] == lvl && lvl.head != null
      requires run.q == Flatten(m.fifos) && run.qty == qty && run.c == c
      requires !P.Stopped(a, run) && a.Owns(lvl.head.participant)
      modifies this`c, m`fifos, m`nodes, m.levels, pool.nodes, orders, pool
      ensures Shape(lvl) && m.levels == old(m.levels) && unchanged(t) && pool.nodes == old(pool.nodes)
      ensures orders.m.Keys <= old(orders.m).Keys
      ensures next == P.Step(a, run)
      ensures stp == old(stp)
      ensures next.q == Flatten(m.fifos) && next.qty == left && next.c == c && next.execs == run.execs
    {
      hide Shape, Flatten, Sides, WithQty, Removed, P.Step, P.Stopped, Prevented;
      FrontOf(m, t, lvl);
      var o := lvl.head;
      next := PreventIsStep(a, m.fifos, run);
      assert AtFront(m, lvl, o) && m.fifos[0][0].qty == o.qty;
      hide AtFront, Order.Value;
      var counters := Prevented(a, c, o.qty, qty);
      left := if a.stp != CancelResting then 0 else qty;
      SettlePrevention(m, t, lvl, o, a.stp != CancelAggressor, counters);
    }

    method SettlePrevention(m: LevelMap, t: LevelMap, lvl: Level, o: Order, kill: bool, counters: Counters)
      requires Shape(lvl) && Sides(m, t) && AtFront(m, lvl, o)
      modifies this`c, m`fifos, m`nodes, m.levels, pool.nodes, orders, pool
      ensures Shape(lvl) && m.levels == old(m.levels) && unchanged(t) && pool.nodes == old(pool.nodes)
      ensures orders.m.Keys <= old(orders.m).Keys && stp == old(stp) && c == counters
      ensures kill ==> m.fifos == Removed(old(m.fifos), 0, 0)
      ensures !kill ==> m.fifos == old(m.fifos)
    {
      hide Shape, Sides, Removed;
      if kill {
        DetachFront(m, t, lvl, o);
      }
      Tally(counters, lvl, m, t);
    }

    lemma StillMatching(a: Aggressor, m: LevelMap, t: LevelMap, lvl: Level, run: P.Run)
      requires Shape(lvl) && Sides(m, t) && |m.levels| > 0 && m.levels[0] == lvl && a.Reaches(lvl.price)
      requires run.q == Flatten(m.fifos) && run.qty > 0
      ensures lvl.head != null ==>
                && !P.Stopped(a, run) && P.Match(a, P.Step(a, run)) == P.Match(a, run)
                && P.Step(a, run).Below(run)
      ensures lvl.head == null ==> lvl.orderCount == 0
    {
      FrontOf(m, t, lvl);
      m.LevelAt(0);
      if lvl.head != null {
        hide Shape, Sides, Flatten, Level.Valid, LevelMap.Valid;
        StepShrinks(a, run);
      }
    }

    static lemma StepShrinks(a: Aggressor, run: P.Run)
      requires !P.Stopped(a, run)
      ensures P.Match(a, P.Step(a, run)) == P.Match(a, run) && P.Step(a, run).Below(run)
    {
    }

    /** One turn of the inner loop. */
    method MeetFront(a: Aggressor, m: LevelMap, t: LevelMap, lvl: Level, qty: Qty, execs: seq<Execution>,
                     ghost run: P.Run)
      returns (left: Qty, reported: seq<Execution>, ghost next: P.Run)
      requires Shape(lvl) && Sides(m, t) && |m.levels| > 0 && m.levels[0] == lvl && a.Reaches(lvl.price)
      requires run.q == Flatten(m.fifos) && run.qty == qty && run.c == c && run.execs == execs
      requires qty > 0 && lvl.head != null
      modifies this`c, m`fifos, m`nodes, m.levels, pool.nodes, orders, pool
      ensures Shape(lvl) && m.levels == old(m.levels) && unchanged(t) && pool.nodes == old(pool.nodes)
      ensures orders.m.Keys <= old(orders.m).Keys && stp == old(stp)
      ensures P.Match(a, next) == P.Match(a, run)
      ensures next.Below(run)
      ensures next.q == Flatten(m.fifos) && next.qty == left && next.c == c && next.execs == reported
    {
      StillMatching(a, m, t, lvl, run);
      hide Shape, Sides, P.Match, P.Step, P.Stopped, Flatten;
      reported := execs;
      if a.Owns(lvl.head.participant) {
        left, next := Prevent(a, m, t, lvl, qty, run);
      } else {
        left, reported, next := Trade(a, m, t, lvl, qty, execs, run);
      }
    }

    /** The inner loop of matching: works through the best level while quantity and orders last. */
    method MatchLevel(a: Aggressor, m: LevelMap, t: LevelMap, lvl: Level, qty: Qty, execs: seq<Execution>,
                      ghost run: P.Run)
      returns (left: Qty, reported: seq<Execution>, ghost next: P.Run)
      requires Shape(lvl) && Sides(m, t) && |m.levels| > 0 && m.levels[0] == lvl && a.Reaches(lvl.price)
      requires run.q == Flatten(m.fifos) && run.qty == qty && run.c == c && run.execs == execs
      modifies this`c, m`fifos, m`nodes, m.levels, pool.nodes, orders, pool
      ensures Shape(lvl) && m.levels == old(m.levels) && unchanged(t) && pool.nodes == old(pool.nodes)
      ensures orders.m.Keys <= old(orders.m).Keys && stp == old(stp)
      ensures P.Match(a, next) == P.Match(a, run) && (qty > 0 && old(lvl.head) != null ==> next.Below(run))
      ensures next.q == Flatten(m.fifos) && next.qty == left && next.c == c && next.execs == reported
    {
      left, reported, next := qty, execs, run;
      hide Shape, Sides, P.Match, P.Step, P.Stopped, Flatten;
      while left > 0 && lvl.head != null
        invariant Shape(lvl) && m.levels == old(m.levels) && unchanged(t) && pool.nodes == old(pool.nodes)
        invariant orders.m.Keys <= old(orders.m).Keys && stp == old(stp)
        invariant P.Match(a, next) == P.Match(a, run)
        invariant next.Below(run) || (next == run && lvl.head == old(lvl.head))
        invariant next.q == Flatten(m.fifos) && next.qty == left && next.c == c && next.execs == reported
        decreases |next.q|, left
      {
        left, reported, next := MeetFront(a, m, t, lvl, left, reported, next);
      }
    }

    /** The best level of a settled book holds an order. */
    lemma BestHolds(m: LevelMap, t: LevelMap)
      requires Shape(null) && Sides(m, t)
      ensures m.Stored()
      ensures |m.levels| > 0 ==>
                var lvl := m.levels[0];
                Shape(lvl) && lvl.head != null && Flatten(m.fifos) != [] && Flatten(m.fifos)[0].price == lvl.price
      ensures |m.levels| == 0 ==> Flatten(m.fifos) == []
    {
      assert m.Valid() && Filled(m, null) && Filled(t, null);
      hide LevelMap.Valid, OrderPool.Valid, OpenAddressMap.Valid, Level.Valid, Apart, Indexed;
      if |m.levels| > 0 {
        var lvl := m.levels[0];
        assert Filled(m, lvl) && Filled(t, lvl);
        m.LevelAt(0);
        hide Filled;
        Assemble(m, t, lvl);
        FrontOf(m, t, lvl);
      }
    }

    /** One turn of the outer loop: works through the best level and drops it when it is spent. */
    method SweepLevel(a: Aggressor, m: LevelMap, t: LevelMap, lvl: Level, qty: Qty, execs: seq<Execution>,
                      ghost run: P.Run)
      returns (left: Qty, reported: seq<Execution>, ghost next: P.Run)
      requires Shape(null) && Sides(m, t) && |m.levels| > 0 && m.levels[0] == lvl && a.Reaches(lvl.price)
      requires run.q == Flatten(m.fifos) && run.qty == qty && run.c == c && run.execs == execs && qty > 0
      modifies this`c, m, m.levels, pool.nodes, orders, pool
      ensures Shape(null) && Within(m.levels, old(m.levels)) && unchanged(t) && pool.nodes == old(pool.nodes)
      ensures orders.m.Keys <= old(orders.m).Keys && stp == old(stp)
      ensures P.Match(a, next) == P.Match(a, run) && next.Below(run)
      ensures next.q == Flatten(m.fifos) && next.qty == left && next.c == c && next.execs == reported
    {
      BestHolds(m, t);
      hide Shape, Sides, P.Match, P.Step, P.Stopped, Flatten, P.Run.Below, Within;
      left, reported, next := MatchLevel(a, m, t, lvl, qty, execs, run);
      DropIfEmpty(m, t, lvl, 0);
    }

    /** The matching loop of the book: `next` is where the run of the queue form ends. */
    method MatchSide(a: Aggressor, m: LevelMap, t: LevelMap, qty: Qty, ghost run: P.Run)
      returns (left: Qty, execs: seq<Execution>, ghost next: P.Run)
      requires Shape(null) && Sides(m, t)
      requires run.q == Flatten(m.fifos) && run.qty == qty && run.c == c && run.execs == []
      modifies this`c, m, m.levels, pool.nodes, orders, pool
      ensures Shape(null) && Within(m.levels, old(m.levels)) && unchanged(t) && pool.nodes == old(pool.nodes)
      ensures orders.m.Keys <= old(orders.m).Keys && stp == old(stp)
      ensures next == P.Match(a, run)
      ensures next.q == Flatten(m.fifos) && next.qty == left && next.c == c && next.execs == execs
    {
      left, execs, next := qty, [], run;
      hide Shape, Sides, P.Step, Flatten, P.Match, LevelMap.Stored;
      while left > 0
        invariant Shape(null) && Within(m.levels, old(m.levels)) && unchanged(t) && pool.nodes == old(pool.nodes)
        invariant orders.m.Keys <= old(orders.m).Keys && stp == old(stp)
        invariant P.Match(a, next) == P.Match(a, run)
        invariant next.q == Flatten(m.fifos) && next.qty == left && next.c == c && next.execs == execs
        decreases |next.q|, left
      {
        BestHolds(m, t);
        var lvl := m.Best();
        if lvl == null || !a.Reaches(lvl.price) {
          break;
        }
        left, execs, next := SweepLevel(a, m, t, lvl, left, execs, next);
      }
      MatchEnds(a, next, run);
    }

    static lemma MatchEnds(a: Aggressor, next: P.Run, run: P.Run)
      requires P.Stopped(a, next) && P.Match(a, next) == P.Match(a, run)
      ensures next == P.Match(a, run)
    {
    }

    // ----- the index names the book's orders

    lemma InViewIff(m: LevelMap, id: OrderId)
      requires m.Valid() && Apart() && Indexed() && (m == ladder.bids || m == ladder.asks)
      ensures P.HasId(Flatten(m.fifos), id) <==> id in orders.m && orders.m[id] in m.nodes
    {
      if P.HasId(Flatten(m.fifos), id) {
        var n :| 0 <= n < |Flatten(m.fifos)| && Flatten(m.fifos)[n].id == id;
        var i, k := FlattenFind(m.fifos, n);
        m.LevelAt(i);
        m.NodeAt(i, k);
        InBook(m, m.levels[i].queue[k]);
      }
      if id in orders.m && orders.m[id] in m.nodes {
        var i, k := m.Locate(orders.m[id]);
        m.NodeAt(i, k);
        FlattenAt(m.fifos, i, k);
      }
    }

    /** The book holds an order under `id` exactly when the index knows it. */
    lemma HasIff(id: OrderId)
      requires Shape(null)
      ensures View().Has(id) <==> id in orders.m
    {
      assert id in orders.m ==> orders.m[id] in ladder.bids.nodes || orders.m[id] in ladder.asks.nodes;
      hide OrderPool.Valid, OpenAddressMap.Valid, LevelMap.Valid, Apart, Indexed, Filled, P.HasId, Flatten;
      InViewIff(ladder.bids, id);
      InViewIff(ladder.asks, id);
    }

    method Known(id: OrderId) returns (known: bool)
      requires Shape(null)
      ensures known <==> id in orders.m
      ensures known <==> View().Has(id)
    {
      HasIff(id);
      hide OrderPool.Valid, LevelMap.Valid, Apart, Indexed, Filled, View, P.Book.Has;
      var found := orders.Find(id);
      known := found != None;
    }

    method Validate(id: OrderId, price: Price, qty: Qty) returns (r: Result)
      requires Shape(null)
      ensures r == P.Validate(View(), id, price, qty)
      ensures r == Ok ==> id != 0 && id !in orders.m && qty > 0 && ladder.range.Valid(price)
    {
      hide Shape, P.Book.Has;
      if id == 0 {
        return RejectedBadId;
      }
      if qty == 0 {
        return RejectedBadQty;
      }
      if !ladder.range.Valid(price) {
        return RejectedBadPrice;
      }
      var known := Known(id);
      return if known then RejectedDuplicateId else Ok;
    }

    // ----- order entry

    twostate lemma Narrows(m: LevelMap, new t: LevelMap)
      requires old(allocated(t))
      requires Sides(m, t) && Within(m.levels, old(m.levels)) && unchanged(t) && pool.nodes == old(pool.nodes)
      ensures Grows()
    {
      assert forall j :: 0 <= j < |m.levels| ==> m.levels[j] in old(m.levels);
    }

    /** Matches the aggressor against the opposite side. */
    method MatchOpposite(a: Aggressor, qty: Qty) returns (left: Qty, execs: seq<Execution>, ghost next: P.Run)
      requires Shape(null)
      modifies this`c, ladder.bids, ladder.asks, ladder.bids.levels, ladder.asks.levels, pool, pool.nodes, orders
      ensures Shape(null) && Grows() && orders.m.Keys <= old(orders.m).Keys
      ensures next == P.Match(a, P.Run(old(View()).Queue(Opposite(a.side)), qty, old(c), []))
      ensures View() == P.After(old(View()), a, next) && left == next.qty && execs == next.execs
    {
      var m, t := ladder.On(Opposite(a.side)), ladder.On(a.side);
      assert Sides(m, t);
      hide Shape, Flatten, P.Match, Within, Grows, Sides;
      left, execs, next := MatchSide(a, m, t, qty, P.Run(Flatten(m.fifos), qty, c, []));
      Narrows(m, t);
    }

    twostate lemma NothingNew()
      requires unchanged(ladder.bids, ladder.asks, pool)
      ensures Grows()
    {
      assert forall l :: l in ladder.bids.levels || l in ladder.asks.levels ==> old(allocated(l));
    }

    /** Every operation leaves a book whose values are as `Priority` wants them. */
    lemma StillValid(was: P.Book, op: P.Op)
      requires was.Valid() && Shape(null) && View() == P.Apply(was, op).book
      ensures Valid()
    {
      L.ApplyKeeps(was, op);
    }

    /** A limit order: match while crossing, rest the remainder. */
    method AddLimitAs(actor: ParticipantId, id: OrderId, s: Side, price: Price, qty: Qty)
      returns (r: Result, execs: seq<Execution>)
      requires Valid()
      modifies this`c, ladder.bids, ladder.asks, ladder.bids.levels, ladder.asks.levels, pool, pool.nodes, orders
      ensures Valid() && Grows()
      ensures P.Outcome(View(), r, execs) == P.AddLimit(old(View()), actor, id, s, price, qty)
    {
      ghost var was := View();
      hide Shape, View, P.Book.Valid, P.AddLimit, Grows;
      r, execs := LimitAs(actor, id, s, price, qty);
      StillValid(was, P.Limit(actor, id, s, price, qty));
    }

    method LimitAs(actor: ParticipantId, id: OrderId, s: Side, price: Price, qty: Qty)
      returns (r: Result, execs: seq<Execution>)
      requires Shape(null)
      modifies this`c, ladder.bids, ladder.asks, ladder.bids.levels, ladder.asks.levels, pool, pool.nodes, orders
      ensures Shape(null) && Grows()
      ensures P.Outcome(View(), r, execs) == P.AddLimit(old(View()), actor, id, s, price, qty)
    {
      hide Shape, P.Validate, P.Match, P.Rest;
      r := Validate(id, price, qty);
      execs := [];
      if r == Ok {
        execs := EnterLimit(actor, id, s, price, qty);
      } else {
        NothingNew();
      }
    }

    method EnterLimit(actor: ParticipantId, id: OrderId, s: Side, price: Price, qty: Qty)
      returns (execs: seq<Execution>)
      requires Shape(null) && id != 0 && id !in orders.m && ladder.range.Valid(price)
      requires P.Validate(View(), id, price, qty) == Ok
      modifies this`c, ladder.bids, ladder.asks, ladder.bids.levels, ladder.asks.levels, pool, pool.nodes, orders
      ensures Shape(null) && Grows()
      ensures P.Outcome(View(), Ok, execs) == P.AddLimit(old(View()), actor, id, s, price, qty)
    {
      hide Shape, P.Match, P.Validate, P.Rest;
      var a := Aggressor(id, actor, s, Some(price), stp);
      Tally(c.(added := c.added + qty), null, ladder.bids, ladder.asks);
      var left;
      ghost var next;
      left, execs, next := MatchOpposite(a, qty);
      if left > 0 {
        RestOrder(id, s, price, left, actor);
      }
    }

    /** The immediate forms: match, then kill the remainder. */
    method SweepAndKill(a: Aggressor, qty: Qty) returns (execs: seq<Execution>)
      requires Shape(null)
      modifies this`c, ladder.bids, ladder.asks, ladder.bids.levels, ladder.asks.levels, pool, pool.nodes, orders
      ensures Shape(null) && Grows()
      ensures P.Outcome(View(), Ok, execs) == P.Immediate(old(View()), a, qty)
    {
      hide Shape, P.Match;
      Tally(c.(added := c.added + qty), null, ladder.bids, ladder.asks);
      var left;
      ghost var next;
      left, execs, next := MatchOpposite(a, qty);
      Tally(P.Kill(c, left), null, ladder.bids, ladder.asks);
    }

    method AddIocAs(actor: ParticipantId, id: OrderId, s: Side, price: Price, qty: Qty)
      returns (r: Result, execs: seq<Execution>)
      requires Valid()
      modifies this`c, ladder.bids, ladder.asks, ladder.bids.levels, ladder.asks.levels, pool, pool.nodes, orders
      ensures Valid() && Grows()
      ensures P.Outcome(View(), r, execs) == P.AddIoc(old(View()), actor, id, s, price, qty)
    {
      ghost var was := View();
      hide Shape, P.Book.Valid, P.Immediate, P.Validate;
      r := Validate(id, price, qty);
      execs := [];
      if r == Ok {
        execs := SweepAndKill(Aggressor(id, actor, s, Some(price), stp), qty);
      } else {
        NothingNew();
      }
      StillValid(was, P.Ioc(actor, id, s, price, qty));
    }

    method CheckMarket(actor: ParticipantId, id: OrderId, s: Side, qty: Qty) returns (r: Result)
      requires Shape(null)
      ensures r != Ok ==> P.AddMarket(View(), actor, id, s, qty) == P.Outcome(View(), r, [])
      ensures r == Ok ==>
                P.AddMarket(View(), actor, id, s, qty) == P.Immediate(View(), Aggressor(id, actor, s, None, stp), qty)
    {
      hide Shape, P.Immediate, P.Book.Has;
      if id == 0 {
        return RejectedBadId;
      }
      if qty == 0 {
        return RejectedBadQty;
      }
      var known := Known(id);
      return if known then RejectedDuplicateId else Ok;
    }

    method AddMarketAs(actor: ParticipantId, id: OrderId, s: Side, qty: Qty)
      returns (r: Result, execs: seq<Execution>)
      requires Valid()
      modifies this`c, ladder.bids, ladder.asks, ladder.bids.levels, ladder.asks.levels, pool, pool.nodes, orders
      ensures Valid() && Grows()
      ensures P.Outcome(View(), r, execs) == P.AddMarket(old(View()), actor, id, s, qty)
    {
      ghost var was := View();
      hide Shape, P.Book.Valid, P.Immediate, P.AddMarket;
      r := CheckMarket(actor, id, s, qty);
      execs := [];
      if r == Ok {
        execs := SweepAndKill(Aggressor(id, actor, s, None, stp), qty);
      } else {
        NothingNew();
      }
      StillValid(was, P.Market(actor, id, s, qty));
    }

    // ----- fill-or-kill

    /** What the level at place `i` adds to the reachable quantity. */
    lemma AtLevel(a: Aggressor, m: LevelMap, i: nat)
      requires m.Valid() && Filled(m, null) && i < |m.levels|
      ensures |m.fifos| == |m.levels|
      ensures !a.Reaches(m.levels[i].price) ==> P.Reachable(a, Flatten(m.fifos[i..])) == 0
      ensures a.Reaches(m.levels[i].price) && (a.actor == 0 || a.stp == NoPrevention) ==>
                P.Reachable(a, Flatten(m.fifos[i..]))
                == m.levels[i].totalQty + P.Reachable(a, Flatten(m.fifos[i + 1..]))
    {
      m.LevelAt(i);
      var f: Fifo := m.fifos[i];
      forall k | 0 <= k < |f|
        ensures f[k].price == m.levels[i].price
      {
        m.NodeAt(i, k);
      }
      FlattenFrom(m.fifos, i);
      hide LevelMap.Valid, Level.Valid, P.Reachable;
      L.ReachableAt(a, f, Flatten(m.fifos[i + 1..]), m.levels[i].price);
    }

    /** Quantity the aggressor could reach, counted only until `need` is met. */
    method Available(a: Aggressor, need: Qty) returns (total: nat)
      requires Shape(null) && need > 0
      ensures total < need <==> P.Reachable(a, View().Queue(Opposite(a.side))) < need
    {
      var m := ladder.On(Opposite(a.side));
      hide P.Reachable, Flatten, LevelMap.Valid, Filled, Apart, Indexed, OrderPool.Valid, OpenAddressMap.Valid;
      assert m.Valid() && Filled(m, null) && View().Queue(Opposite(a.side)) == Flatten(m.fifos);
      hide Shape, View;
      total := AvailableOn(a, m, need);
    }

    /** The walk over the levels, best first, until one says to stop. */
    method AvailableOn(a: Aggressor, m: LevelMap, need: Qty) returns (total: nat)
      requires m.Valid() && Filled(m, null) && need > 0
      ensures total < need <==> P.Reachable(a, Flatten(m.fifos)) < need
    {
      hide P.Reachable, Flatten, LevelMap.Valid;
      assert m.fifos[0..] == m.fifos && |m.fifos| == |m.levels|;
      NoneBeyond(a, m.fifos);
      m.CanWalk();
      hide Filled, LevelMap.Ordered, LevelMap.Stored, LevelMap.At;
      var i := m.First();
      var seen, done := 0, false;
      total := 0;
      while seen < m.Count() && !done
        invariant seen <= |m.levels| == |m.fifos| && m.At(i, seen)
        invariant done ==> (total < need <==> P.Reachable(a, Flatten(m.fifos)) < need)
        invariant !done ==> total + P.Reachable(a, Flatten(m.fifos[seen..])) == P.Reachable(a, Flatten(m.fifos))
        decreases |m.levels| - seen
      {
        total, done := AvailableIn(a, m, m.Here(i, seen), need, total, seen);
        i := m.Next(i, seen);
        seen := seen + 1;
      }
    }

    /** What one level adds; `done` says that the whole walk stops here. */
    method AvailableIn(a: Aggressor, m: LevelMap, lvl: Level, need: Qty, before: nat, ghost i: nat)
      returns (total: nat, done: bool)
      requires m.Valid() && Filled(m, null) && i < |m.levels| == |m.fifos| && m.levels[i] == lvl
      ensures var all := before + P.Reachable(a, Flatten(m.fifos[i..]));
              && (done ==> (total < need <==> all < need))
              && (!done ==> total + P.Reachable(a, Flatten(m.fifos[i + 1..])) == all)
    {
      AtLevel(a, m, i);
      hide P.Reachable, Flatten, LevelMap.Valid, Aggressor.Reaches, Filled;
      if !a.Reaches(lvl.price) {
        return before, true;
      }
      if a.actor == 0 || a.stp == NoPrevention {
        total := before + lvl.totalQty;
        done := total >= need;
      } else {
        total, done := AvailableAt(a, m, lvl, need, before, i);
      }
    }

    lemma NoneBeyond(a: Aggressor, f: seq<Fifo>)
      ensures P.Reachable(a, Flatten(f[|f|..])) == 0
    {
      assert f[|f|..] == [];
    }

    /** The per-order walk of one level. */
    method AvailableAt(a: Aggressor, m: LevelMap, lvl: Level, need: Qty, before: nat, ghost i: nat)
      returns (total: nat, done: bool)
      requires m.Valid() && i < |m.levels| == |m.fifos| && m.levels[i] == lvl && a.Reaches(lvl.price)
      requires a.actor != 0 && a.stp != NoPrevention
      ensures var all := before + P.Reachable(a, Flatten(m.fifos[i..]));
              && (done ==> (total < need <==> all < need))
              && (!done ==> total + P.Reachable(a, Flatten(m.fifos[i + 1..])) == all)
    {
      m.LevelAt(i);
      FlattenFrom(m.fifos, i);
      hide LevelMap.Valid, Level.Valid, Flatten, P.Reachable, Aggressor.Reaches;
      var stopsAtOwn := a.stp == CancelAggressor || a.stp == CancelBoth;
      total, done := before, false;
      ghost var f: Fifo, rest, k: nat := m.fifos[i], Flatten(m.fifos[i + 1..]), 0;
      assert f[0..] == f && f[|f|..] + rest == rest;
      var o := lvl.head;
      while o != null
        invariant k <= |lvl.queue| == |f| && o == if k == |lvl.queue| then null else lvl.queue[k]
        invariant total + P.Reachable(a, f[k..] + rest) == before + P.Reachable(a, f + rest)
        decreases |lvl.queue| - k
      {
        m.NodeAt(i, k);
        L.ReachableNext(a, f, k, rest);
        if o.participant == a.actor {
          if stopsAtOwn {
            return total, true;
          }
        } else {
          total := total + o.qty;
          if total >= need {
            return total, true;
          }
        }
        o, k := o.next, k + 1;
      }
    }

    /** Fill-or-kill: the walk first, so that a kill leaves no trace. */
    method AddFokAs(actor: ParticipantId, id: OrderId, s: Side, price: Price, qty: Qty)
      returns (r: Result, execs: seq<Execution>)
      requires Valid()
      modifies this`c, ladder.bids, ladder.asks, ladder.bids.levels, ladder.asks.levels, pool, pool.nodes, orders
      ensures Valid() && Grows()
      ensures P.Outcome(View(), r, execs) == P.AddFok(old(View()), actor, id, s, price, qty)
    {
      ghost var was := View();
      hide Shape, P.Book.Valid, P.Immediate, P.AddFok;
      r := CheckFok(actor, id, s, price, qty);
      execs := [];
      if r == Ok {
        execs := SweepAndKill(Aggressor(id, actor, s, Some(price), stp), qty);
      } else {
        NothingNew();
      }
      StillValid(was, P.Fok(actor, id, s, price, qty));
    }

    method CheckFok(actor: ParticipantId, id: OrderId, s: Side, price: Price, qty: Qty) returns (r: Result)
      requires Shape(null)
      ensures r != Ok ==> P.AddFok(View(), actor, id, s, price, qty) == P.Outcome(View(), r, [])
      ensures r == Ok ==> P.AddFok(View(), actor, id, s, price, qty)
                          == P.Immediate(View(), Aggressor(id, actor, s, Some(price), stp), qty)
    {
      hide Shape, P.Immediate, P.Validate, P.Reachable;
      r := Validate(id, price, qty);
      if r == Ok {
        var total := Available(Aggressor(id, actor, s, Some(price), stp), qty);
        if total < qty {
          return RejectedNoLiquidity;
        }
      }
    }

    // ----- taking one order out, by its id

    /** Where the order under `id` stands, in the links and in the queue form. */
    lemma Place(id: OrderId, o: Order, m: LevelMap) returns (i: nat, k: nat)
      requires Shape(null) && View().Valid() && id in orders.m && o == orders.m[id] && m == ladder.On(o.side)
      ensures View().Has(id) && View().SideOf(id) == o.side && View().Find(id) == o.Value() && o.id == id
      ensures i < |m.levels| && o.level == m.levels[i] && k < |o.level.queue| && o.level.queue[k] == o
      ensures i < |m.fifos| && k < |m.fifos[i]| && P.IndexOf(Flatten(m.fifos), id) == Offset(m.fifos, i) + k
    {
      hide LevelMap.Valid, OrderPool.Valid, OpenAddressMap.Valid, Flatten, Level.Valid, Filled;
      SideOfNode(o);
      i, k := m.Locate(o);
      m.LevelAt(i);
      m.NodeAt(i, k);
      FlattenAt(m.fifos, i, k);
      assert o.id == id;
      hide Shape, Apart, Indexed;
      AtIndex(View(), o.side, Offset(m.fifos, i) + k);
    }

    lemma SideOfNode(o: Order)
      requires Shape(null) && o in pool.out
      ensures o in ladder.On(o.side).nodes
    {
      hide OrderPool.Valid, OpenAddressMap.Valid, Filled, Indexed;
      var m := if o in ladder.bids.nodes then ladder.bids else ladder.asks;
      hide LevelMap.Valid;
      var i, k := m.Locate(o);
      m.NodeAt(i, k);
    }

    /** In a valid book, the order at place `n` of a side is the only one under its id. */
    static lemma AtIndex(b: P.Book, s: Side, n: nat)
      requires b.Valid() && n < |b.Queue(s)|
      ensures var o := b.Queue(s)[n]; b.Has(o.id) && b.SideOf(o.id) == s && b.Find(o.id) == o
      ensures P.IndexOf(b.Queue(s), b.Queue(s)[n].id) == n
    {
      var id := b.Queue(s)[n].id;
      assert P.HasId(b.Queue(s), id);
      var j := P.IndexOf(b.Queue(s), id);
      assert j == n;
      assert s == Ask ==> forall i :: 0 <= i < |b.bids| ==> b.bids[i].id != id;
    }

    /** Detaches a node and drops its level if that was the last one there. */
    method RemoveOrder(m: LevelMap, t: LevelMap, lvl: Level, o: Order, ghost i: nat, ghost k: nat)
      requires Shape(null) && Sides(m, t)
      requires i < |m.levels| && m.levels[i] == lvl && k < |lvl.queue| && lvl.queue[k] == o
      requires i < |m.fifos| && k < |m.fifos[i]|
      modifies m, m.levels, pool.nodes, orders, pool
      ensures unchanged(this, t) && pool.nodes == old(pool.nodes) && Within(m.levels, old(m.levels))
      ensures Shape(null) && orders.m == old(orders.m) - {old(o.id)}
      ensures Flatten(m.fifos) == Flatten(Removed(old(m.fifos), i, k))
    {
      NodesInPool(m, t, null);
      hide Shape, Flatten, Removed, Within, Sides;
      Detach(m, t, lvl, o, null, i, k);
      DropIfEmpty(m, t, lvl, i);
    }

    lemma NodesInPool(m: LevelMap, t: LevelMap, gap: Level?)
      requires Shape(gap) && Sides(m, t)
      ensures m.nodes <= pool.nodes
    {
      hide LevelMap.Valid, OrderPool.Valid, OpenAddressMap.Valid, Filled, Indexed;
    }

    /** Takes the order under `id` out of the book and counts its open quantity as canceled. */
    method CancelNode(id: OrderId, o: Order)
      requires Valid() && id in orders.m && orders.m[id] == o
      modifies this`c, ladder.bids, ladder.asks, ladder.bids.levels, ladder.asks.levels, pool, pool.nodes, orders
      ensures Shape(null) && Grows() && orders.m == old(orders.m) - {id}
      ensures old(View()).Has(id) && View() == P.CancelOpen(old(View()), id)
    {
      var m, t := ladder.On(o.side), ladder.On(Opposite(o.side));
      ghost var i, k := Place(id, o, m);
      assert Sides(m, t);
      DropsTo(m, id, o, i, k);
      hide Shape, P.Book.Valid, Flatten, Removed, Sides, P.CancelOpen, P.Book.Has, Grows, Offset, Order.Value;
      var counters := P.Kill(c, o.qty);
      RemoveAndTally(m, t, o.level, o, counters, i, k);
    }

    /** Taking the node out of its level is dropping the id from the queue form. */
    lemma DropsTo(m: LevelMap, id: OrderId, o: Order, i: nat, k: nat)
      requires View().Has(id) && View().SideOf(id) == o.side && View().Find(id) == o.Value()
      requires m == ladder.On(o.side) && i < |m.fifos| && k < |m.fifos[i]|
      requires P.IndexOf(Flatten(m.fifos), id) == Offset(m.fifos, i) + k
      ensures P.CancelOpen(View(), id)
              == View().WithQueue(o.side, Flatten(Removed(m.fifos, i, k))).(c := P.Kill(c, o.qty))
    {
      FlattenWithout(m.fifos, i, k);
    }

    method RemoveAndTally(m: LevelMap, t: LevelMap, lvl: Level, o: Order, counters: Counters, ghost i: nat,
                          ghost k: nat)
      requires Shape(null) && Sides(m, t) && m == ladder.On(o.side)
      requires i < |m.levels| && m.levels[i] == lvl && k < |lvl.queue| && lvl.queue[k] == o
      requires i < |m.fifos| && k < |m.fifos[i]|
      modifies this`c, m, m.levels, pool.nodes, orders, pool
      ensures Shape(null) && Grows() && orders.m == old(orders.m) - {old(o.id)}
      ensures View() == old(View()).WithQueue(old(o.side), Flatten(Removed(old(m.fifos), i, k))).(c := counters)
    {
      hide Shape, Flatten, Removed, Within, Grows;
      RemoveOrder(m, t, lvl, o, i, k);
      Tally(counters, null, m, t);
      Narrows(m, t);
    }

    method Lookup(id: OrderId) returns (o: Order?)
      requires Shape(null)
      ensures o == null <==> !View().Has(id)
      ensures o != null ==> id in orders.m && orders.m[id] == o
    {
      HasIff(id);
      hide LevelMap.Valid, OrderPool.Valid, Apart, Indexed, Filled, View, P.Book.Has;
      var found := orders.Find(id);
      o := if found == None then null else found.value;
    }

    /** The node resting under `id`, or null. */
    method FindOrder(id: OrderId) returns (o: Order?)
      requires Valid()
      ensures o == null <==> !View().Has(id)
      ensures o != null ==> id in orders.m && orders.m[id] == o
      ensures o != null ==> View().Find(id) == o.Value() && View().SideOf(id) == o.side
    {
      if id in orders.m {
        var i, k := Place(id, orders.m[id], ladder.On(orders.m[id].side));
      }
      hide Shape, View, P.Book.Valid, P.Book.Has;
      o := Lookup(id);
    }

    method Cancel(id: OrderId) returns (r: Result)
      requires Valid()
      modifies this`c, ladder.bids, ladder.asks, ladder.bids.levels, ladder.asks.levels, pool, pool.nodes, orders
      ensures Valid() && Grows()
      ensures P.Outcome(View(), r, []) == P.Cancel(old(View()), id)
    {
      hide Valid, P.CancelOpen, P.Book.Has, P.Book.Find, P.Book.SideOf;
      var o := FindOrder(id);
      r := RejectedUnknownId;
      if o == null {
        NothingNew();
      } else {
        CancelKnown(id, o);
        r := Ok;
      }
    }

    method CancelKnown(id: OrderId, o: Order)
      requires Valid() && id in orders.m && orders.m[id] == o
      modifies this`c, ladder.bids, ladder.asks, ladder.bids.levels, ladder.asks.levels, pool, pool.nodes, orders
      ensures Valid() && Grows()
      ensures old(View()).Has(id) && View() == P.CancelOpen(old(View()), id)
    {
      ghost var was := View();
      hide Shape, P.Book.Valid, P.CancelOpen, P.Book.Has, Grows;
      CancelNode(id, o);
      StillValid(was, P.CancelId(id));
    }

    /** What a replace does once it has been checked. */
    static function Replaced(b: P.Book, oldId: OrderId, newId: OrderId, price: Price, qty: Qty): P.Outcome
      requires b.Has(oldId)
    {
      P.AddLimit(P.CancelOpen(b, oldId), b.Find(oldId).participant, newId, b.SideOf(oldId), price, qty)
    }

    /** The checks a replace makes of the new order, before the old one is touched. */
    method CheckNew(oldId: OrderId, newId: OrderId, price: Price, qty: Qty) returns (r: Result)
      requires Shape(null) && View().Has(oldId)
      ensures r != Ok ==> P.Replace(View(), oldId, newId, price, qty) == P.Outcome(View(), r, [])
      ensures r == Ok ==> P.Replace(View(), oldId, newId, price, qty) == Replaced(View(), oldId, newId, price, qty)
    {
      hide Shape, P.AddLimit, P.CancelOpen, P.Book.Has, P.Book.Find, P.Book.SideOf;
      if newId == 0 {
        return RejectedBadId;
      }
      if qty == 0 {
        return RejectedBadQty;
      }
      if !ladder.range.Valid(price) {
        return RejectedBadPrice;
      }
      if newId != oldId {
        var known := Known(newId);
        if known {
          return RejectedDuplicateId;
        }
      }
      return Ok;
    }

    method PrepareReplace(oldId: OrderId, newId: OrderId, price: Price, qty: Qty) returns (r: Result, o: Order?)
      requires Valid()
      ensures r != Ok ==> P.Replace(View(), oldId, newId, price, qty) == P.Outcome(View(), r, [])
      ensures r == Ok ==> o != null && oldId in orders.m && orders.m[oldId] == o && View().Has(oldId)
      ensures r == Ok ==> P.Replace(View(), oldId, newId, price, qty) == Replaced(View(), oldId, newId, price, qty)
    {
      hide Shape, P.Book.Valid, P.AddLimit, P.CancelOpen, Replaced, P.Book.Has;
      assert Shape(null);
      hide Valid;
      o := Lookup(oldId);
      r := RejectedUnknownId;
      if o != null {
        r := CheckNew(oldId, newId, price, qty);
      }
    }

    method CancelThenLimit(o: Order, oldId: OrderId, actor: ParticipantId, newId: OrderId, side: Side, price: Price,
                           qty: Qty)
      returns (r: Result, execs: seq<Execution>)
      requires Valid() && oldId in orders.m && orders.m[oldId] == o
      modifies this`c, ladder.bids, ladder.asks, ladder.bids.levels, ladder.asks.levels, pool, pool.nodes, orders
      ensures Shape(null) && Grows() && old(View()).Has(oldId)
      ensures P.Outcome(View(), r, execs)
           == P.AddLimit(P.CancelOpen(old(View()), oldId), actor, newId, side, price, qty)
    {
      hide Valid, Shape, P.AddLimit, P.CancelOpen, P.Book.Has, View;
      CancelNode(oldId, o);
      r, execs := LimitAs(actor, newId, side, price, qty);
    }

    method ReplaceKnown(o: Order, oldId: OrderId, newId: OrderId, price: Price, qty: Qty)
      returns (r: Result, execs: seq<Execution>)
      requires Valid() && oldId in orders.m && orders.m[oldId] == o
      requires View().Has(oldId)
      modifies this`c, ladder.bids, ladder.asks, ladder.bids.levels, ladder.asks.levels, pool, pool.nodes, orders
      ensures Shape(null) && Grows() && old(View()).Has(oldId)
      ensures P.Outcome(View(), r, execs) == Replaced(old(View()), oldId, newId, price, qty)
    {
      var side, actor := o.side, o.participant;
      ghost var i, k := Place(oldId, o, ladder.On(side));
      hide Valid, Shape, P.AddLimit, P.CancelOpen, P.Book.Has, P.Book.Find, P.Book.SideOf, View, Grows;
      r, execs := CancelThenLimit(o, oldId, actor, newId, side, price, qty);
    }

    method ReplaceChecked(check: Result, o: Order?, oldId: OrderId, newId: OrderId, price: Price, qty: Qty)
      returns (r: Result, execs: seq<Execution>)
      requires Valid()
      requires check == Ok ==> o != null && oldId in orders.m && orders.m[oldId] == o && View().Has(oldId)
      modifies this`c, ladder.bids, ladder.asks, ladder.bids.levels, ladder.asks.levels, pool, pool.nodes, orders
      ensures Shape(null) && Grows()
      ensures check != Ok ==> r == check && execs == [] && View() == old(View())
      ensures check == Ok ==> P.Outcome(View(), r, execs) == Replaced(old(View()), oldId, newId, price, qty)
    {
      hide Shape, P.Book.Valid;
      assert Shape(null);
      hide Valid, Replaced, P.Book.Has, View;
      if check == Ok {
        r, execs := ReplaceKnown(o, oldId, newId, price, qty);
      } else {
        r, execs := check, [];
        NothingNew();
      }
    }

    method ReplaceAs(oldId: OrderId, newId: OrderId, price: Price, qty: Qty) returns (r: Result, execs: seq<Execution>)
      requires Valid()
      modifies this`c, ladder.bids, ladder.asks, ladder.bids.levels, ladder.asks.levels, pool, pool.nodes, orders
      ensures Shape(null) && Grows()
      ensures P.Outcome(View(), r, execs) == P.Replace(old(View()), oldId, newId, price, qty)
    {
      hide Valid, Shape, P.Replace, Replaced, P.Book.Has, View;
      var check, o := PrepareReplace(oldId, newId, price, qty);
      r, execs := ReplaceChecked(check, o, oldId, newId, price, qty);
    }

    /** Replace: the old order is canceled and the new one entered with a new place in time. */
    method Replace(oldId: OrderId, newId: OrderId, price: Price, qty: Qty) returns (r: Result, execs: seq<Execution>)
      requires Valid()
      modifies this`c, ladder.bids, ladder.asks, ladder.bids.levels, ladder.asks.levels, pool, pool.nodes, orders
      ensures Valid() && Grows()
      ensures P.Outcome(View(), r, execs) == P.Replace(old(View()), oldId, newId, price, qty)
    {
      ghost var was := View();
      hide Shape, View, P.Book.Valid, P.Replace, Grows;
      r, execs := ReplaceAs(oldId, newId, price, qty);
      StillValid(was, P.ReplaceId(oldId, newId, price, qty));
    }

    // ----- feed entry points

    method EnterPassive(id: OrderId, s: Side, price: Price, qty: Qty)
      requires Shape(null) && id != 0 && id !in orders.m && ladder.range.Valid(price)
      requires P.Validate(View(), id, price, qty) == Ok
      modifies this`c, ladder.bids, ladder.asks, ladder.bids.levels, ladder.asks.levels, pool, pool.nodes, orders
      ensures Shape(null) && Grows()
      ensures P.Outcome(View(), Ok, []) == P.InsertPassive(old(View()), id, s, price, qty)
    {
      hide Shape, P.Validate, P.Rest;
      Tally(c.(added := c.added + qty), null, ladder.bids, ladder.asks);
      RestOrder(id, s, price, qty, 0);
    }

    method PassiveAs(id: OrderId, s: Side, price: Price, qty: Qty) returns (r: Result)
      requires Shape(null)
      modifies this`c, ladder.bids, ladder.asks, ladder.bids.levels, ladder.asks.levels, pool, pool.nodes, orders
      ensures Shape(null) && Grows()
      ensures P.Outcome(View(), r, []) == P.InsertPassive(old(View()), id, s, price, qty)
    {
      hide Shape, P.Validate, P.Rest;
      r := Validate(id, price, qty);
      if r == Ok {
        EnterPassive(id, s, price, qty);
      } else {
        NothingNew();
      }
    }

    /** Rests an order without matching it, whatever the price implies. */
    method InsertPassive(id: OrderId, s: Side, price: Price, qty: Qty) returns (r: Result)
      requires Valid()
      modifies this`c, ladder.bids, ladder.asks, ladder.bids.levels, ladder.asks.levels, pool, pool.nodes, orders
      ensures Valid() && Grows()
      ensures P.Outcome(View(), r, []) == P.InsertPassive(old(View()), id, s, price, qty)
    {
      ghost var was := View();
      hide Shape, View, P.Book.Valid, P.InsertPassive, Grows;
      r := PassiveAs(id, s, price, qty);
      StillValid(was, P.Passive(id, s, price, qty));
    }

    /** Shrinking or removing the node is shrinking the order in the queue form. */
    lemma ShrinksTo(m: LevelMap, id: OrderId, o: Order, take: Qty, i: nat, k: nat)
      requires View().Has(id) && View().SideOf(id) == o.side && View().Find(id) == o.Value() && take <= o.qty
      requires m == ladder.On(o.side) && i < |m.fifos| && k < |m.fifos[i]| && m.fifos[i][k] == o.Value()
      requires P.IndexOf(Flatten(m.fifos), id) == Offset(m.fifos, i) + k
      ensures take == o.qty ==> P.Shrink(View(), id, take) == View().WithQueue(o.side, Flatten(Removed(m.fifos, i, k)))
      ensures take != o.qty ==>
                P.Shrink(View(), id, take) == View().WithQueue(o.side, Flatten(WithQty(m.fifos, i, k, o.qty - take)))
    {
      FlattenWithout(m.fifos, i, k);
      FlattenUpdate(m.fifos, i, k, m.fifos[i][k].(qty := o.qty - take));
    }

    method ShaveAndTally(m: LevelMap, t: LevelMap, lvl: Level, o: Order, take: Qty, counters: Counters, ghost i: nat,
                         ghost k: nat)
      requires Shape(null) && Sides(m, t) && m == ladder.On(o.side) && take <= o.qty
      requires i < |m.levels| && m.levels[i] == lvl && k < |lvl.queue| && lvl.queue[k] == o
      requires i < |m.fifos| && k < |m.fifos[i]|
      modifies this`c, m, m.levels, o, pool
      ensures Shape(null) && Grows()
      ensures View() ==
              old(View()).WithQueue(old(o.side), Flatten(WithQty(old(m.fifos), i, k, old(o.qty) - take)))
                .(c := counters)
    {
      hide Shape, Flatten, WithQty, Grows;
      Shave(m, t, lvl, o, take, null, i, k);
      Tally(counters, null, m, t);
      NoLevelMoved(m, t);
    }

    twostate lemma NoLevelMoved(m: LevelMap, new t: LevelMap)
      requires old(allocated(t))
      requires Sides(m, t) && m.levels == old(m.levels) && unchanged(t) && pool.nodes == old(pool.nodes)
      ensures Grows()
    {
    }

    /** Takes `take` shares off a known order; the last share takes the order with it. */
    method ConsumeKnown(id: OrderId, o: Order, take: Qty, counters: Counters)
      requires Valid() && id in orders.m && orders.m[id] == o && take <= o.qty
      modifies this`c, ladder.bids, ladder.asks, ladder.bids.levels, ladder.asks.levels, pool, pool.nodes, orders
      ensures Shape(null) && Grows() && old(View()).Has(id) && take <= old(View()).Find(id).qty
      ensures View() == P.Shrink(old(View()), id, take).(c := counters)
    {
      var m, t := ladder.On(o.side), ladder.On(Opposite(o.side));
      ghost var i, k := Place(id, o, m);
      assert Sides(m, t);
      m.NodeAt(i, k);
      ShrinksTo(m, id, o, take, i, k);
      hide Shape, P.Book.Valid, Flatten, Removed, WithQty, Sides, P.Shrink, P.Book.Has, Grows, Offset, Order.Value;
      if take == o.qty {
        RemoveAndTally(m, t, o.level, o, counters, i, k);
      } else {
        ShaveAndTally(m, t, o.level, o, take, counters, i, k);
      }
    }

    /** The checks of a feed event, and how many shares it takes: clamped to what is open. */
    method PrepareConsume(id: OrderId, qty: Qty, isExecution: bool)
      returns (r: Result, o: Order?, taken: Qty, counters: Counters)
      requires Valid()
      ensures r != Ok ==> P.Consume(View(), id, qty, isExecution) == P.Outcome(View(), r, [])
      ensures taken == if r == Ok then P.Taken(View(), id, qty) else 0
      ensures r == Ok ==> o != null && id in orders.m && orders.m[id] == o && taken <= o.qty && View().Has(id)
      ensures r == Ok ==> taken <= View().Find(id).qty
      ensures r == Ok ==>
                P.Consume(View(), id, qty, isExecution)
                == P.Outcome(P.Shrink(View(), id, taken).(c := counters), Ok, [])
    {
      hide Valid, P.Shrink, P.Book.Has, P.Book.Find, P.Book.SideOf;
      o := FindOrder(id);
      taken, counters := 0, c;
      if o == null {
        r := RejectedUnknownId;
      } else if qty == 0 {
        r := RejectedBadQty;
      } else {
        r := Ok;
        taken := Min(qty, o.qty);
        counters := if isExecution then c.(executed := c.executed + taken) else P.Kill(c, taken);
      }
    }

    method ConsumeChecked(check: Result, o: Order?, id: OrderId, take: Qty, counters: Counters)
      requires Valid()
      requires check == Ok ==> o != null && id in orders.m && orders.m[id] == o && take <= o.qty && View().Has(id)
      requires check == Ok ==> take <= View().Find(id).qty
      modifies this`c, ladder.bids, ladder.asks, ladder.bids.levels, ladder.asks.levels, pool, pool.nodes, orders
      ensures Shape(null) && Grows()
      ensures check != Ok ==> View() == old(View())
      ensures check == Ok ==> View() == P.Shrink(old(View()), id, take).(c := counters)
    {
      hide Shape, P.Book.Valid;
      assert Shape(null);
      hide Valid, P.Shrink, P.Book.Has, P.Book.Find, View;
      if check == Ok {
        ConsumeKnown(id, o, take, counters);
      } else {
        NothingNew();
      }
    }

    /** The shared body of the feed's executions and reductions. */
    method Consume(id: OrderId, qty: Qty, isExecution: bool) returns (r: Result, taken: Qty)
      requires Valid()
      modifies this`c, ladder.bids, ladder.asks, ladder.bids.levels, ladder.asks.levels, pool, pool.nodes, orders
      ensures Shape(null) && Grows()
      ensures P.Outcome(View(), r, []) == P.Consume(old(View()), id, qty, isExecution)
      ensures taken == if r == Ok then P.Taken(old(View()), id, qty) else 0
    {
      hide Valid, Shape, P.Consume, P.Shrink, P.Book.Has, P.Book.Find, P.Taken, View;
      var o, counters;
      r, o, taken, counters := PrepareConsume(id, qty, isExecution);
      ConsumeChecked(r, o, id, taken, counters);
    }

    method ExecuteResting(id: OrderId, qty: Qty) returns (r: Result, executed: Qty)
      requires Valid()
      modifies this`c, ladder.bids, ladder.asks, ladder.bids.levels, ladder.asks.levels, pool, pool.nodes, orders
      ensures Valid() && Grows()
      ensures P.Outcome(View(), r, []) == P.Consume(old(View()), id, qty, true)
      ensures executed == if r == Ok then P.Taken(old(View()), id, qty) else 0
    {
      ghost var was := View();
      hide Shape, View, P.Book.Valid, P.Consume, Grows, P.Taken;
      r, executed := Consume(id, qty, true);
      StillValid(was, P.ExecuteResting(id, qty));
    }

    method ReduceResting(id: OrderId, qty: Qty) returns (r: Result, removed: Qty)
      requires Valid()
      modifies this`c, ladder.bids, ladder.asks, ladder.bids.levels, ladder.asks.levels, pool, pool.nodes, orders
      ensures Valid() && Grows()
      ensures P.Outcome(View(), r, []) == P.Consume(old(View()), id, qty, false)
      ensures removed == if r == Ok then P.Taken(old(View()), id, qty) else 0
    {
      ghost var was := View();
      hide Shape, View, P.Book.Valid, P.Consume, Grows, P.Taken;
      r, removed := Consume(id, qty, false);
      StillValid(was, P.ReduceResting(id, qty));
    }

    method SetSelfTradePolicy(p: SelfTradePolicy)
      requires Valid()
      modifies this`stp
      ensures Valid() && View() == P.Apply(old(View()), P.SetPolicy(p)).book
    {
      ghost var was := View();
      hide Shape, P.Book.Valid;
      stp := p;
      StillValid(was, P.SetPolicy(p));
    }

    /** Any one call. */
    method Do(op: P.Op) returns (r: Result, execs: seq<Execution>)
      requires Valid()
      modifies this`stp, this`c, ladder.bids, ladder.asks, ladder.bids.levels
      modifies ladder.asks.levels, pool, pool.nodes, orders
      ensures Valid() && Grows()
      ensures P.Outcome(View(), r, execs) == P.Apply(old(View()), op)
    {
      hide Valid, View, P.AddLimit, P.AddIoc, P.AddFok, P.AddMarket;
      hide P.Cancel, P.Replace, P.InsertPassive, P.Consume, Grows;
      match op
      case SetPolicy(p) =>
        SetSelfTradePolicy(p);
        NothingNew();
        r, execs := Ok, [];
      case Limit(actor, id, s, price, qty) => r, execs := AddLimitAs(actor, id, s, price, qty);
      case Ioc(actor, id, s, price, qty) => r, execs := AddIocAs(actor, id, s, price, qty);
      case Fok(actor, id, s, price, qty) => r, execs := AddFokAs(actor, id, s, price, qty);
      case Market(actor, id, s, qty) => r, execs := AddMarketAs(actor, id, s, qty);
      case CancelId(id) =>
        r := Cancel(id);
        execs := [];
      case ReplaceId(oldId, newId, price, qty) => r, execs := Replace(oldId, newId, price, qty);
      case Passive(id, s, price, qty) =>
        r := InsertPassive(id, s, price, qty);
        execs := [];
      case ExecuteResting(id, qty) =>
        var taken;
        r, taken := ExecuteResting(id, qty);
        execs := [];
      case ReduceResting(id, qty) =>
        var taken;
        r, taken := ReduceResting(id, qty);
        execs := [];
    }

    // ----- the book's structures agree

    /** Level `l` of side `m` is doubly linked in queue order, holds orders, and counts them right. */
    ghost predicate WellKept(m: LevelMap, l: Level)
      reads m, l, l.queue
    {
      && l.queue != [] && l.head == l.queue[0] && l.tail == l.queue[|l.queue| - 1]
      && l.head.prev == null && l.tail.next == null
      && (forall k :: 0 <= k < |l.queue| - 1 ==> l.queue[k].next == l.queue[k + 1] && l.queue[k + 1].prev == l.queue[k])
      && (forall k :: 0 <= k < |l.queue| ==>
            l.queue[k].level == l && l.queue[k].price == l.price && l.queue[k] in m.nodes)
      && |l.vals| == |l.queue| && (forall k :: 0 <= k < |l.queue| ==> l.vals[k] == l.queue[k].Value())
      && l.totalQty == P.TotalQty(l.vals) && l.orderCount == |l.queue|
    }

    /** In every valid book the index, the ladder and the queues name the same orders, no level is
        empty and every level is well kept, nodes in use are not free, and the nodes ever taken from
        the arena are as many as were ever in use at once. */
    lemma StructuresAgree()
      requires Valid()
      ensures forall id :: View().Has(id) <==> id in orders.m
      ensures forall id :: id in orders.m ==> orders.m[id] in pool.out && orders.m[id].id == id
      ensures pool.out == ladder.bids.nodes + ladder.asks.nodes && |orders.m| == |pool.out|
      ensures forall i :: 0 <= i < |ladder.bids.levels| ==> WellKept(ladder.bids, ladder.bids.levels[i])
      ensures forall i :: 0 <= i < |ladder.asks.levels| ==> WellKept(ladder.asks, ladder.asks.levels[i])
      ensures forall n :: n in pool.free ==> n !in pool.out
      ensures pool.total == pool.peak
    {
      forall id
        ensures View().Has(id) <==> id in orders.m
      {
        HasIff(id);
      }
      assert Filled(ladder.bids, null) && Filled(ladder.asks, null);
      LevelsKept(ladder.bids);
      LevelsKept(ladder.asks);
    }

    lemma LevelsKept(m: LevelMap)
      requires m.Valid() && Filled(m, null)
      ensures forall i :: 0 <= i < |m.levels| ==> WellKept(m, m.levels[i])
    {
      forall i | 0 <= i < |m.levels|
        ensures WellKept(m, m.levels[i])
      {
        m.LevelAt(i);
        assert m.Holding(i);
      }
    }
  }
}
