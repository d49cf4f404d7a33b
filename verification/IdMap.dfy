/** The open-addressing id map of include/pricetime/id_map.hpp: linear probing with backward-shift
    deletion. The hash is an arbitrary function, so nothing here depends on its values. */
module IdMap {
  import opened Types
  import opened Arith

  const EMPTY: OrderId := 0
  const INITIAL_CAPACITY: nat := 1024

  datatype Slot<V> = Slot(key: OrderId, value: Option<V>)

  // ----- cyclic positions

  /** `(i + 1) & mask` in a table of `cap` slots. */
  function Next(i: nat, cap: nat): (n: nat)
    requires i < cap
    ensures n < cap
  {
    if i + 1 == cap then 0 else i + 1
  }

  /** `(j - k) & mask`: how far `j` lies past `k`, going round. */
  function Dist(k: nat, j: nat, cap: nat): (d: nat)
    requires k < cap && j < cap
    ensures d < cap
  {
    if k <= j then j - k else j + cap - k
  }

  function Home(h: OrderId -> nat, id: OrderId, cap: nat): (k: nat)
    requires cap > 0
    ensures k < cap
  {
    h(id) % cap
  }

  const WORD: nat := 64

  /** Capacities are powers of two below the word size, so the source's masked sums and wrapped-around
      differences are the successor and the distance going round. */
  lemma MaskIsRemainder(k: nat, i: nat, d: nat)
    requires d <= WORD && i < Pow2(d) && k < Pow2(d)
    ensures var mask := Pow2(d) - 1;
      && Next(i, Pow2(d)) == And(i + 1, mask)
      && Dist(k, i, Pow2(d)) == And((i - k) % Pow2(WORD), mask)
  {
    hide And, Pow2;
    AndMask(i + 1, d);
    NextIsMod(i, Pow2(d));
    AndMask((i - k) % Pow2(WORD), d);
    Pow2Splits(d, WORD);
    ModOfMod(i - k, Pow2(d), Pow2(WORD - d));
    DistIsMod(k, i, Pow2(d));
  }

  lemma NextIsMod(i: nat, cap: nat)
    requires i < cap
    ensures Next(i, cap) == (i + 1) % cap
  {
    ModIs(i + 1, cap, if i + 1 == cap then 1 else 0, Next(i, cap));
  }

  lemma DistIsMod(k: nat, i: nat, cap: nat)
    requires i < cap && k < cap
    ensures Dist(k, i, cap) == (i - k) % cap
  {
    ModIs(i - k, cap, if k > i then -1 else 0, Dist(k, i, cap));
  }

  // ----- the layout linear probing leaves

  ghost predicate DistinctKeys<V>(s: seq<Slot<V>>) {
    forall i, j :: 0 <= i < j < |s| && s[i].key != EMPTY ==> s[i].key != s[j].key
  }

  predicate Holds<V>(s: seq<Slot<V>>, id: OrderId) {
    exists i :: 0 <= i < |s| && s[i].key == id
  }

  /** Slot `m` lies on the probe path of the key held in slot `p`. */
  ghost predicate OnPath<V>(s: seq<Slot<V>>, h: OrderId -> nat, m: nat, p: nat)
    requires m < |s| && p < |s|
  {
    var k := Home(h, s[p].key, |s|);
    s[p].key != EMPTY && Dist(k, m, |s|) < Dist(k, p, |s|)
  }

  /** First come, first served: every slot a key probed past holds a key inserted earlier. `hole`
      is a slot exempt from the rule while a deletion is under way, or -1. */
  ghost predicate Clustered<V>(s: seq<Slot<V>>, h: OrderId -> nat, st: map<OrderId, nat>, hole: int) {
    && (forall i :: 0 <= i < |s| && s[i].key != EMPTY ==> s[i].key in st)
    && forall p, m :: 0 <= p < |s| && 0 <= m < |s| && m != hole && OnPath(s, h, m, p) ==>
         s[m].key != EMPTY && st[s[m].key] < st[s[p].key]
  }

  /** Two first-come-first-served tables of one capacity, over the same keys inserted in the same
      order, hold every key in the same slot. */
  lemma {:induction false} SameSlot<V>(
    s: seq<Slot<V>>, t: seq<Slot<V>>, h: OrderId -> nat, st: map<OrderId, nat>, i: nat)
    requires |s| == |t| && i < |s| && s[i].key != EMPTY
    requires Clustered(s, h, st, -1) && Clustered(t, h, st, -1)
    requires forall id :: id in st ==> Holds(s, id) && Holds(t, id)
    ensures t[i].key == s[i].key
    decreases st[s[i].key]
  {
    var id := s[i].key;
    var k := Home(h, id, |s|);
    var j :| 0 <= j < |t| && t[j].key == id;
    if Dist(k, i, |s|) < Dist(k, j, |s|) {
      assert OnPath(t, h, i, j);
      SameSlot(t, s, h, st, i);
    } else if Dist(k, j, |s|) < Dist(k, i, |s|) {
      assert OnPath(s, h, j, i);
      SameSlot(s, t, h, st, j);
    }
  }

  // ----- inserting, as a function

  function Probe<V>(s: seq<Slot<V>>, i: nat, n: nat): (p: nat)
    requires i < |s|
    ensures p < |s|
    decreases n
  {
    if n == 0 || s[i].key == EMPTY then i else Probe(s, Next(i, |s|), n - 1)
  }

  function Place<V>(h: OrderId -> nat, s: seq<Slot<V>>, e: Slot<V>): seq<Slot<V>>
    requires |s| > 0
  {
    s[Probe(s, Home(h, e.key, |s|), |s|) := e]
  }

  function Blank<V>(cap: nat): seq<Slot<V>> {
    seq(cap, i => Slot(EMPTY, None))
  }

  /** The table that inserting `entries` in order into an empty table of `cap` slots builds. */
  function Fill<V>(h: OrderId -> nat, cap: nat, entries: seq<Slot<V>>): (s: seq<Slot<V>>)
    requires cap > 0
    ensures |s| == cap
  {
    if entries == [] then Blank(cap)
    else Place(h, Fill(h, cap, entries[..|entries| - 1]), entries[|entries| - 1])
  }

  // ----- insertion order

  ghost predicate Distinct(order: seq<OrderId>) {
    forall i, j :: 0 <= i < j < |order| ==> order[i] != order[j]
  }

  ghost function Stamps(order: seq<OrderId>): (st: map<OrderId, nat>)
    requires Distinct(order)
    ensures forall i :: 0 <= i < |order| ==> order[i] in st && st[order[i]] == i
    ensures forall id :: id in st ==> id in order
  {
    map id | id in order :: PlaceOf(order, id)
  }

  ghost function PlaceOf(order: seq<OrderId>, id: OrderId): (i: nat)
    requires id in order
    ensures i < |order| && order[i] == id
  {
    var i: nat :| i < |order| && order[i] == id;
    i
  }

  /** The table `s` holds exactly the mapping `m`, whose keys `order` lists. */
  ghost predicate Stores<V>(s: seq<Slot<V>>, order: seq<OrderId>, m: map<OrderId, V>) {
    && Distinct(order) && EMPTY !in order
    && (forall id :: id in m <==> id in order)
    && DistinctKeys(s)
    && (forall i :: 0 <= i < |s| ==>
          if s[i].key == EMPTY then s[i].value == None
          else s[i].key in m && s[i].value == Some(m[s[i].key]))
    && (forall id :: id in m ==> Holds(s, id))
  }

  /** The table `s` is laid out as inserting the keys of `order`, with the values of `m`, in that
      order would lay it out. */
  ghost predicate Laid<V>(s: seq<Slot<V>>, h: OrderId -> nat, order: seq<OrderId>, m: map<OrderId, V>) {
    Stores(s, order, m) && Clustered(s, h, Stamps(order), -1)
  }

  function Entries<V>(order: seq<OrderId>, m: map<OrderId, V>): (e: seq<Slot<V>>)
    requires forall id :: id in order ==> id in m
    ensures |e| == |order|
  {
    seq(|order|, i requires 0 <= i < |order| => Slot(order[i], Some(m[order[i]])))
  }

  lemma LaidUnique<V>(s: seq<Slot<V>>, t: seq<Slot<V>>, h: OrderId -> nat, order: seq<OrderId>, m: map<OrderId, V>)
    requires |s| == |t| && Laid(s, h, order, m) && Laid(t, h, order, m)
    ensures s == t
  {
    forall i | 0 <= i < |s|
      ensures s[i] == t[i]
    {
      if s[i].key != EMPTY {
        SameSlot(s, t, h, Stamps(order), i);
      } else if t[i].key != EMPTY {
        SameSlot(t, s, h, Stamps(order), i);
      }
    }
  }

  // ----- a table that is not full has room

  ghost function KeySet<V>(s: seq<Slot<V>>, n: nat): set<OrderId>
    requires n <= |s|
  {
    set i | 0 <= i < n && s[i].key != EMPTY :: s[i].key
  }

  lemma {:induction false} FullCount<V>(s: seq<Slot<V>>, n: nat)
    requires n <= |s| && DistinctKeys(s) && forall i :: 0 <= i < n ==> s[i].key != EMPTY
    ensures |KeySet(s, n)| == n
  {
    if n > 0 {
      FullCount(s, n - 1);
      assert KeySet(s, n) == KeySet(s, n - 1) + {s[n - 1].key};
      assert s[n - 1].key !in KeySet(s, n - 1);
    }
  }

  ghost function KeysOf(order: seq<OrderId>): set<OrderId> {
    set id | id in order
  }

  lemma {:induction false} OrderCount(order: seq<OrderId>)
    requires Distinct(order)
    ensures |KeysOf(order)| == |order|
  {
    if order != [] {
      var n := |order| - 1;
      OrderCount(order[..n]);
      assert KeysOf(order) == KeysOf(order[..n]) + {order[n]};
      assert order[n] !in KeysOf(order[..n]);
    }
  }

  lemma HasRoom<V>(s: seq<Slot<V>>, h: OrderId -> nat, order: seq<OrderId>, m: map<OrderId, V>)
    requires Laid(s, h, order, m) && |order| < |s|
    ensures exists e :: 0 <= e < |s| && s[e].key == EMPTY
  {
    if forall e :: 0 <= e < |s| ==> s[e].key != EMPTY {
      FullCount(s, |s|);
      OrderCount(order);
      assert KeySet(s, |s|) <= KeysOf(order);
      SubsetSize(KeySet(s, |s|), KeysOf(order));
    }
  }

  lemma {:induction false} SubsetSize(a: set<OrderId>, b: set<OrderId>)
    requires a <= b
    ensures |a| <= |b|
  {
    if a != {} {
      var x :| x in a;
      SubsetSize(a - {x}, b - {x});
    }
  }

  // ----- probing

  /** All slots probed before reaching `i` from `k` hold other keys than `id`. */
  ghost predicate Passed<V>(s: seq<Slot<V>>, k: nat, i: nat, id: OrderId)
    requires k < |s| && i < |s|
  {
    forall m :: 0 <= m < |s| && Dist(k, m, |s|) < Dist(k, i, |s|) ==> s[m].key != EMPTY && s[m].key != id
  }

  /** The probe loop shared by find, insert, erase and rehash: stops at `id` or at a free slot. */
  method ProbeFor<V>(s: seq<Slot<V>>, h: OrderId -> nat, id: OrderId) returns (i: nat)
    requires exists e :: 0 <= e < |s| && s[e].key == EMPTY
    ensures i < |s| && (s[i].key == id || s[i].key == EMPTY)
    ensures Passed(s, Home(h, id, |s|), i, id)
  {
    ghost var e: nat :| e < |s| && s[e].key == EMPTY;
    i := Home(h, id, |s|);
    while s[i].key != id && s[i].key != EMPTY
      invariant i < |s|
      invariant Passed(s, Home(h, id, |s|), i, id)
      decreases Dist(i, e, |s|)
    {
      PassOne(s, Home(h, id, |s|), i, id, e);
      i := Next(i, |s|);
    }
  }

  lemma PassOne<V>(s: seq<Slot<V>>, k: nat, i: nat, id: OrderId, e: nat)
    requires k < |s| && i < |s| && e < |s| && s[e].key == EMPTY
    requires Passed(s, k, i, id) && s[i].key != EMPTY && s[i].key != id
    ensures Passed(s, k, Next(i, |s|), id)
    ensures Dist(Next(i, |s|), e, |s|) < Dist(i, e, |s|)
  {
    assert Dist(k, i, |s|) < Dist(k, e, |s|);
  }

  /** A probe that ends at a free slot proves the key is absent. */
  lemma AbsentIfFree<V>(s: seq<Slot<V>>, h: OrderId -> nat, order: seq<OrderId>, m: map<OrderId, V>, id: OrderId,
                        i: nat)
    requires Laid(s, h, order, m) && i < |s| && s[i].key == EMPTY && id != EMPTY
    requires Passed(s, Home(h, id, |s|), i, id)
    ensures id !in m
  {
    forall p | 0 <= p < |s|
      ensures s[p].key != id
    {
      var skipped := OnPath(s, h, i, p);
    }
  }

  lemma StampsSnoc(order: seq<OrderId>, id: OrderId)
    requires Distinct(order) && id !in order
    ensures Distinct(order + [id])
    ensures Stamps(order + [id]) == Stamps(order)[id := |order|]
    ensures forall x :: x in order ==> Stamps(order)[x] < |order|
  {
    var st, st' := Stamps(order), Stamps(order + [id]);
    assert (order + [id])[|order|] == id;
    forall x | x in order
      ensures x in st && x in st' && st'[x] == st[x] < |order|
    {
      var i :| 0 <= i < |order| && order[i] == x;
      assert (order + [id])[i] == x;
    }
  }

  lemma ClusteredInsert<V>(s: seq<Slot<V>>, h: OrderId -> nat, st: map<OrderId, nat>, e: Slot<V>, i: nat, n: nat)
    requires Clustered(s, h, st, -1) && i < |s| && s[i].key == EMPTY && e.key != EMPTY && e.key !in st
    requires forall id :: id in st ==> st[id] < n
    requires Passed(s, Home(h, e.key, |s|), i, e.key)
    ensures Clustered(s[i := e], h, st[e.key := n], -1)
  {
    var t := s[i := e];
    forall p, q | 0 <= p < |t| && 0 <= q < |t| && OnPath(t, h, q, p)
      ensures t[q].key != EMPTY && st[e.key := n][t[q].key] < st[e.key := n][t[p].key]
    {
      if p != i {
        assert OnPath(s, h, q, p);
      }
    }
  }

  lemma HoldsInsert<V>(s: seq<Slot<V>>, e: Slot<V>, i: nat, id: OrderId)
    requires i < |s| && s[i].key == EMPTY && id != EMPTY
    ensures Holds(s[i := e], id) <==> e.key == id || Holds(s, id)
  {
    var t := s[i := e];
    assert t[i] == e;
    if Holds(s, id) {
      var p :| 0 <= p < |s| && s[p].key == id;
      assert t[p].key == id;
    }
    if Holds(t, id) && e.key != id {
      var p :| 0 <= p < |t| && t[p].key == id;
      assert s[p].key == id;
    }
  }

  lemma StoresInsert<V>(s: seq<Slot<V>>, order: seq<OrderId>, m: map<OrderId, V>, id: OrderId, v: V, i: nat)
    requires Stores(s, order, m) && i < |s| && s[i].key == EMPTY && id != EMPTY && id !in m
    ensures Stores(s[i := Slot(id, Some(v))], order + [id], m[id := v])
  {
    var n := m[id := v];
    forall x | x in n
      ensures Holds(s[i := Slot(id, Some(v))], x)
    {
      HoldsInsert(s, Slot(id, Some(v)), i, x);
    }
  }

  /** Storing a new key where its probe ended extends the layout by that key. */
  lemma LaidInsert<V>(s: seq<Slot<V>>, h: OrderId -> nat, order: seq<OrderId>, m: map<OrderId, V>,
                      id: OrderId, v: V, i: nat)
    requires Laid(s, h, order, m) && i < |s| && s[i].key == EMPTY && id != EMPTY && id !in m
    requires Passed(s, Home(h, id, |s|), i, id)
    ensures Laid(s[i := Slot(id, Some(v))], h, order + [id], m[id := v])
  {
    StampsSnoc(order, id);
    ClusteredInsert(s, h, Stamps(order), Slot(id, Some(v)), i, |order|);
    StoresInsert(s, order, m, id, v, i);
  }

  // ----- the layout is the one insertion builds

  lemma {:induction false} ProbeEnds<V>(s: seq<Slot<V>>, k: nat, i: nat, id: OrderId, n: nat, e: nat)
    requires k < |s| && i < |s| && e < |s| && s[e].key == EMPTY && Dist(i, e, |s|) <= n
    requires Passed(s, k, i, id) && forall p :: 0 <= p < |s| ==> s[p].key != id
    ensures s[Probe(s, i, n)].key == EMPTY && Passed(s, k, Probe(s, i, n), id)
    decreases n
  {
    if s[i].key != EMPTY {
      PassOne(s, k, i, id, e);
      ProbeEnds(s, k, Next(i, |s|), id, n - 1, e);
    }
  }

  function Restrict<V>(m: map<OrderId, V>, order: seq<OrderId>): map<OrderId, V> {
    map id | id in order && id in m :: m[id]
  }

  /** Entering one key more is one more placement. */
  lemma FillSnoc<V>(h: OrderId -> nat, cap: nat, order: seq<OrderId>, m: map<OrderId, V>)
    requires cap > 0 && order != [] && forall id :: id in order ==> id in m
    ensures var n := |order| - 1;
            Fill(h, cap, Entries(order, m)) ==
              Place(h, Fill(h, cap, Entries(order[..n], Restrict(m, order[..n]))), Slot(order[n], Some(m[order[n]])))
  {
    var n := |order| - 1;
    assert Entries(order, m)[..n] == Entries(order[..n], Restrict(m, order[..n]));
  }

  lemma PlaceIsLaid<V>(h: OrderId -> nat, s: seq<Slot<V>>, order: seq<OrderId>, m: map<OrderId, V>, id: OrderId, v: V)
    requires Laid(s, h, order, m) && |order| < |s| && id != EMPTY && id !in m
    ensures Laid(Place(h, s, Slot(id, Some(v))), h, order + [id], m[id := v])
  {
    HasRoom(s, h, order, m);
    var e: nat :| e < |s| && s[e].key == EMPTY;
    var k := Home(h, id, |s|);
    ProbeEnds(s, k, k, id, |s|, e);
    LaidInsert(s, h, order, m, id, v, Probe(s, k, |s|));
  }

  lemma BlankIsLaid<V>(h: OrderId -> nat, cap: nat)
    ensures Laid<V>(Blank(cap), h, [], map[])
  {
  }

  lemma {:induction false} FillIsLaid<V>(h: OrderId -> nat, cap: nat, order: seq<OrderId>, m: map<OrderId, V>)
    requires Distinct(order) && EMPTY !in order && |order| < cap
    requires forall id :: id in m <==> id in order
    ensures Laid(Fill(h, cap, Entries(order, m)), h, order, m)
  {
    hide Laid, Place, Fill, Entries;
    if order == [] {
      assert m == map[];
      BlankEntries(h, cap, m);
    } else {
      var n := |order| - 1;
      var m' := Restrict(m, order[..n]);
      FillSnoc(h, cap, order, m);
      FillIsLaid(h, cap, order[..n], m');
      PlaceIsLaid(h, Fill(h, cap, Entries(order[..n], m')), order[..n], m', order[n], m[order[n]]);
      assert order[..n] + [order[n]] == order;
      assert m'[order[n] := m[order[n]]] == m;
    }
  }

  lemma BlankEntries<V>(h: OrderId -> nat, cap: nat, m: map<OrderId, V>)
    requires cap > 0 && m == map[]
    ensures Laid(Fill(h, cap, Entries([], m)), h, [], m)
  {
    BlankIsLaid<V>(h, cap);
  }

  /** A laid-out table is, slot for slot, the one built by inserting its keys in their order. */
  lemma LaidIsFill<V>(s: seq<Slot<V>>, h: OrderId -> nat, order: seq<OrderId>, m: map<OrderId, V>)
    requires Laid(s, h, order, m) && |order| < |s|
    ensures s == Fill(h, |s|, Entries(order, m))
  {
    FillIsLaid(h, |s|, order, m);
    LaidUnique(s, Fill(h, |s|, Entries(order, m)), h, order, m);
  }

  // ----- backward-shift deletion

  function Remove(order: seq<OrderId>, id: OrderId): seq<OrderId> {
    if order == [] then []
    else if order[0] == id then order[1..]
    else [order[0]] + Remove(order[1..], id)
  }

  /** Deletion with the hole at `i`, having scanned as far as `j`: only paths through the hole may
      be broken, and no scanned key has the hole on its path. */
  ghost predicate Shifting<V>(s: seq<Slot<V>>, h: OrderId -> nat, st: map<OrderId, nat>, i: nat, j: nat) {
    && i < |s| && j < |s| && s[i].key == EMPTY
    && Clustered(s, h, st, i)
    && forall q :: 0 <= q < |s| && q != i && Dist(i, q, |s|) <= Dist(i, j, |s|) ==>
         s[q].key != EMPTY && !OnPath(s, h, i, q)
  }

  lemma ShiftStart<V>(s: seq<Slot<V>>, h: OrderId -> nat, st: map<OrderId, nat>, i: nat)
    requires Clustered(s, h, st, -1) && i < |s|
    ensures Shifting(s[i := Slot(EMPTY, None)], h, st, i, i)
  {
    var t := s[i := Slot(EMPTY, None)];
    forall p, m | 0 <= p < |t| && 0 <= m < |t| && m != i && OnPath(t, h, m, p)
      ensures t[m].key != EMPTY && st[t[m].key] < st[t[p].key]
    {
      assert OnPath(s, h, m, p);
    }
  }

  lemma ShiftDone<V>(s: seq<Slot<V>>, h: OrderId -> nat, st: map<OrderId, nat>, i: nat, j: nat)
    requires Shifting(s, h, st, i, j) && s[Next(j, |s|)].key == EMPTY
    ensures Clustered(s, h, st, -1)
  {
    var n := Next(j, |s|);
    forall p | 0 <= p < |s|
      ensures !OnPath(s, h, i, p)
    {
      var between := OnPath(s, h, n, p);
    }
  }

  lemma ShiftSkip<V>(s: seq<Slot<V>>, h: OrderId -> nat, st: map<OrderId, nat>, i: nat, j: nat)
    requires Shifting(s, h, st, i, j) && s[Next(j, |s|)].key != EMPTY && !OnPath(s, h, i, Next(j, |s|))
    ensures Shifting(s, h, st, i, Next(j, |s|))
  {
  }

  lemma ShiftMove<V>(s: seq<Slot<V>>, h: OrderId -> nat, st: map<OrderId, nat>, i: nat, j: nat)
    requires Shifting(s, h, st, i, j) && OnPath(s, h, i, Next(j, |s|))
    ensures var n := Next(j, |s|); Shifting(s[i := s[n]][n := Slot(EMPTY, None)], h, st, n, n)
  {
    var n := Next(j, |s|);
    var t := s[i := s[n]][n := Slot(EMPTY, None)];
    forall p, m | 0 <= p < |t| && 0 <= m < |t| && m != n && OnPath(t, h, m, p)
      ensures t[m].key != EMPTY && st[t[m].key] < st[t[p].key]
    {
      if p == i {
        assert OnPath(s, h, m, n);
      } else {
        assert OnPath(s, h, m, p);
        if m == i {
          assert OnPath(s, h, n, p);
        }
      }
    }
  }

  // ----- contents during deletion

  lemma RemoveKeeps(order: seq<OrderId>, id: OrderId)
    requires Distinct(order) && id in order
    ensures var r := Remove(order, id);
            && Distinct(r) && |r| == |order| - 1
            && (forall x :: x in r <==> x in order && x != id)
  {
    var k :| 0 <= k < |order| && order[k] == id;
    RemoveAt(order, k);
    var r := order[..k] + order[k + 1..];
    forall x | x in order && x != id
      ensures x in r
    {
      var i :| 0 <= i < |order| && order[i] == x;
      assert r[if i < k then i else i - 1] == x;
    }
  }

  /** Removing a key leaves the others in the order they came. */
  lemma RemoveKeepsOrder(order: seq<OrderId>, id: OrderId)
    requires Distinct(order) && id in order && Distinct(Remove(order, id))
    ensures var r := Remove(order, id);
            forall x, y :: x in r && y in r ==>
              x in Stamps(order) && y in Stamps(order)
              && (Stamps(order)[x] < Stamps(order)[y] ==> Stamps(r)[x] < Stamps(r)[y])
  {
    var k :| 0 <= k < |order| && order[k] == id;
    RemoveAt(order, k);
    var r := Remove(order, id);
    forall i | 0 <= i < |r|
      ensures r[i] in Stamps(order) && Stamps(order)[r[i]] == if i < k then i else i + 1
    {
      assert r[i] == order[if i < k then i else i + 1];
    }
  }

  lemma {:induction false} RemoveAt(order: seq<OrderId>, k: nat)
    requires Distinct(order) && k < |order|
    ensures Remove(order, order[k]) == order[..k] + order[k + 1..]
  {
    if k > 0 {
      RemoveAt(order[1..], k - 1);
    }
  }

  lemma Restamp<V>(s: seq<Slot<V>>, h: OrderId -> nat, order: seq<OrderId>, id: OrderId)
    requires Distinct(order) && id in order && Clustered(s, h, Stamps(order), -1)
    requires forall i :: 0 <= i < |s| && s[i].key != EMPTY ==> s[i].key in Remove(order, id)
    ensures Distinct(Remove(order, id)) && Clustered(s, h, Stamps(Remove(order, id)), -1)
  {
    RemoveKeeps(order, id);
    RemoveKeepsOrder(order, id);
  }

  lemma StoresErase<V>(s: seq<Slot<V>>, order: seq<OrderId>, m: map<OrderId, V>, i: nat)
    requires Stores(s, order, m) && i < |s| && s[i].key != EMPTY
    ensures Stores(s[i := Slot(EMPTY, None)], Remove(order, s[i].key), m - {s[i].key})
  {
    var id := s[i].key;
    RemoveKeeps(order, id);
    var n := m - {id};
    forall x | x in n
      ensures Holds(s[i := Slot(EMPTY, None)], x)
    {
      var p :| 0 <= p < |s| && s[p].key == x;
      assert s[i := Slot(EMPTY, None)][p].key == x;
    }
  }

  lemma StoresMove<V>(s: seq<Slot<V>>, order: seq<OrderId>, m: map<OrderId, V>, i: nat, j: nat)
    requires Stores(s, order, m) && i < |s| && j < |s| && s[i].key == EMPTY && s[j].key != EMPTY
    ensures Stores(s[i := s[j]][j := Slot(EMPTY, None)], order, m)
  {
    var t := s[i := s[j]][j := Slot(EMPTY, None)];
    forall x | x in m
      ensures Holds(t, x)
    {
      var p :| 0 <= p < |s| && s[p].key == x;
      assert t[if p == j then i else p].key == x;
    }
  }

  lemma ErasedIsLaid<V>(s: seq<Slot<V>>, h: OrderId -> nat, order: seq<OrderId>, id: OrderId, m: map<OrderId, V>)
    requires Distinct(order) && id in order && Clustered(s, h, Stamps(order), -1)
    requires Stores(s, Remove(order, id), m)
    ensures Laid(s, h, Remove(order, id), m)
  {
    Restamp(s, h, order, id);
  }

  lemma EraseStart<V>(s: seq<Slot<V>>, h: OrderId -> nat, order: seq<OrderId>, m: map<OrderId, V>, at: nat)
    returns (st: map<OrderId, nat>, e: nat)
    requires Laid(s, h, order, m) && |order| < |s| && at < |s| && s[at].key != EMPTY
    ensures Distinct(order) && st == Stamps(order) && s[at].key in order
    ensures |Remove(order, s[at].key)| == |order| - 1
    ensures Shifting(s[at := Slot(EMPTY, None)], h, st, at, at)
    ensures Stores(s[at := Slot(EMPTY, None)], Remove(order, s[at].key), m - {s[at].key})
    ensures e < |s| && s[e].key == EMPTY
  {
    st := Stamps(order);
    HasRoom(s, h, order, m);
    e :| e < |s| && s[e].key == EMPTY;
    ShiftStart(s, h, st, at);
    StoresErase(s, order, m, at);
    RemoveKeeps(order, s[at].key);
  }

  /** The comparison of offsets in the source decides whether the hole is on the key's path. */
  lemma OffsetsDecide<V>(s: seq<Slot<V>>, h: OrderId -> nat, st: map<OrderId, nat>, i: nat, last: nat)
    requires Shifting(s, h, st, i, last) && s[Next(last, |s|)].key != EMPTY
    ensures var j := Next(last, |s|); var k := Home(h, s[j].key, |s|);
            OnPath(s, h, i, j) <==> Dist(k, i, |s|) <= Dist(k, j, |s|)
    ensures s[i].key == EMPTY
  {
  }

  // ----- rehash order

  /** The keys of a table in slot order, which is the insertion order a rehash leaves. */
  function SlotOrder<V>(s: seq<Slot<V>>, n: nat): seq<OrderId>
    requires n <= |s|
  {
    if n == 0 then []
    else SlotOrder(s, n - 1) + if s[n - 1].key == EMPTY then [] else [s[n - 1].key]
  }

  lemma {:induction false} SlotOrderHas<V>(s: seq<Slot<V>>, n: nat)
    requires n <= |s|
    ensures forall id :: id in SlotOrder(s, n) <==> exists i :: 0 <= i < n && s[i].key == id && id != EMPTY
  {
    if n > 0 {
      SlotOrderHas(s, n - 1);
    }
  }

  lemma LaidAt<V>(s: seq<Slot<V>>, h: OrderId -> nat, order: seq<OrderId>, m: map<OrderId, V>, i: nat)
    requires Laid(s, h, order, m) && i < |s|
    ensures if s[i].key == EMPTY then s[i].value == None else s[i].key in m && s[i].value == Some(m[s[i].key])
    ensures s[i].key in m <==> s[i].key in order
    ensures Distinct(order) && forall id :: id in m <==> id in order
  {
  }

  /** Reinserting slot `t` of the old table `was` into the new table `s`. */
  lemma RehashOne<V>(was: seq<Slot<V>>, t: nat, h: OrderId -> nat, old_: seq<OrderId>, m: map<OrderId, V>,
                     s: seq<Slot<V>>, order: seq<OrderId>, done: map<OrderId, V>, i: nat)
    requires Laid(was, h, old_, m) && t < |was| && was[t].key != EMPTY
    requires Laid(s, h, order, done) && order == SlotOrder(was, t)
    requires i < |s| && (s[i].key == was[t].key || s[i].key == EMPTY)
    requires Passed(s, Home(h, was[t].key, |s|), i, was[t].key)
    ensures was[t].key in m
    ensures Laid(s[i := was[t]], h, SlotOrder(was, t + 1), done[was[t].key := m[was[t].key]])
  {
    var id := was[t].key;
    SlotOrderHas(was, t);
    assert id !in done by {
      hide Clustered, Passed;
      assert id !in order;
    }
    hide Clustered, Passed;
    assert s[i].key == EMPTY;
    LaidInsert(s, h, order, done, id, m[id], i);
  }

  /** When every slot has been reinserted, nothing is lost. */
  lemma RehashAll<V>(was: seq<Slot<V>>, h: OrderId -> nat, old_: seq<OrderId>, m: map<OrderId, V>,
                     s: seq<Slot<V>>, done: map<OrderId, V>)
    requires Laid(was, h, old_, m) && Laid(s, h, SlotOrder(was, |was|), done)
    requires forall id :: id in done ==> id in m && done[id] == m[id]
    ensures done == m && |SlotOrder(was, |was|)| == |old_|
  {
    hide Laid, Distinct, SlotOrder;
    LaidKeys(was, h, old_, m);
    LaidKeys(s, h, SlotOrder(was, |was|), done);
    assert done.Keys == m.Keys;
    assert done == m;
    OrderCount(SlotOrder(was, |was|));
    OrderCount(old_);
    assert KeysOf(SlotOrder(was, |was|)) == KeysOf(old_);
  }

  lemma LaidKeys<V>(s: seq<Slot<V>>, h: OrderId -> nat, order: seq<OrderId>, m: map<OrderId, V>)
    requires Laid(s, h, order, m)
    ensures Distinct(order) && forall id :: id in m <==> id in order
    ensures forall id :: id in SlotOrder(s, |s|) <==> id in m
  {
    StoresSlotOrder(s, order, m);
  }

  lemma StoresSlotOrder<V>(s: seq<Slot<V>>, order: seq<OrderId>, m: map<OrderId, V>)
    requires Stores(s, order, m)
    ensures forall id :: id in SlotOrder(s, |s|) <==> id in m
  {
    SlotOrderHas(s, |s|);
    forall id | id in m
      ensures id in SlotOrder(s, |s|)
    {
      var i :| 0 <= i < |s| && s[i].key == id;
    }
  }

  // ----- calls on the map

  datatype Call<V> = Put(id: OrderId, v: V) | Take(id: OrderId)

  /** An insertion leaves a key that is already in as it is. */
  function Called<V>(m: map<OrderId, V>, c: Call<V>): map<OrderId, V> {
    match c
    case Put(id, v) => if id in m then m else m[id := v]
    case Take(id) => m - {id}
  }

  function AfterCalls<V>(m: map<OrderId, V>, calls: seq<Call<V>>): map<OrderId, V>
    decreases |calls|
  {
    if calls == [] then m else AfterCalls(Called(m, calls[0]), calls[1..])
  }

  /** Every insertion of the run comes when fewer than `n` keys are in. */
  predicate StaysWithin<V>(m: map<OrderId, V>, calls: seq<Call<V>>, n: nat)
    decreases |calls|
  {
    calls == [] ||
    (calls[0].id != EMPTY && (calls[0].Put? ==> |m| < n) && StaysWithin(Called(m, calls[0]), calls[1..], n))
  }

  /** The first capacity from `cap` on, doubling, that holds `n` keys under the load limit. */
  function RoomFrom(n: nat, cap: nat): (r: nat)
    ensures cap > 0 ==> r * 7 >= n * 10 && (r == cap || r / 2 * 7 < n * 10)
    decreases n * 10 - cap * 7
  {
    if cap == 0 || cap * 7 >= n * 10 then cap else RoomFrom(n, cap * 2)
  }

  function Room(n: nat): nat {
    RoomFrom(n, INITIAL_CAPACITY)
  }

  // ----- the map

  class OpenAddressMap<V> {
    const hash: OrderId -> nat
    var slots: seq<Slot<V>>
    var size: nat

    /** The mapping held, its keys in the order that explains the layout, and how often the table
        has doubled. */
    ghost var m: map<OrderId, V>
    ghost var order: seq<OrderId>
    ghost var doublings: nat

    ghost predicate Valid()
      reads this
    {
      && Laid(slots, hash, order, m)
      && size == |order|
      && size * 10 < |slots| * 7
      && |slots| == INITIAL_CAPACITY * Pow2(doublings)
    }

    lemma Facts()
      requires Valid()
      ensures EMPTY !in m && size == |m|
    {
      hide Clustered, DistinctKeys, Holds;
      OrderCount(order);
      assert m.Keys == KeysOf(order);
    }

    constructor (hash: OrderId -> nat)
      ensures Valid() && m == map[] && order == [] && |slots| == INITIAL_CAPACITY && this.hash == hash
    {
      this.hash := hash;
      slots := Blank(INITIAL_CAPACITY);
      size, m, order, doublings := 0, map[], [], 0;
    }

    method Find(id: OrderId) returns (v: Option<V>)
      requires Valid()
      ensures v == if id in m then Some(m[id]) else None
    {
      HasRoom(slots, hash, order, m);
      var i := ProbeFor(slots, hash, id);
      if slots[i].key == EMPTY && id != EMPTY {
        AbsentIfFree(slots, hash, order, m, id, i);
      }
      v := slots[i].value;
    }

    /** Rebuilds the table with `newCap` slots, reinserting in slot order. */
    method Rehash(newCap: nat, ghost d: nat)
      requires Valid() && newCap == INITIAL_CAPACITY * Pow2(d) && newCap >= |slots|
      modifies this
      ensures Valid() && m == old(m) && size == old(size)
      ensures |slots| == newCap && order == SlotOrder(old(slots), |old(slots)|)
    {
      hide Laid, Passed;
      var was := slots;
      ghost var done: map<OrderId, V> := map[];
      BlankIsLaid<V>(hash, newCap);
      slots := Blank(newCap);
      order := [];
      for t := 0 to |was|
        invariant |slots| == newCap && size == old(size) && m == old(m)
        invariant order == SlotOrder(was, t) && |order| <= t
        invariant Laid(slots, hash, order, done)
        invariant forall id :: id in done ==> id in m && done[id] == m[id]
      {
        if was[t].key == EMPTY {
          continue;
        }
        HasRoom(slots, hash, order, done);
        var i := ProbeFor(slots, hash, was[t].key);
        RehashOne(was, t, hash, old(order), m, slots, order, done, i);
        slots := slots[i := was[t]];
        order := order + [was[t].key];
        done := done[was[t].key := m[was[t].key]];
      }
      RehashAll(was, hash, old(order), m, slots, done);
      doublings := d;
    }

    method Insert(id: OrderId, v: V) returns (fresh': bool)
      requires Valid() && id != EMPTY
      modifies this
      ensures Valid()
      ensures fresh' <==> id !in old(m)
      ensures m == if fresh' then old(m)[id := v] else old(m)
      ensures size == old(size) + if fresh' then 1 else 0
      ensures var grow := (old(size) + 1) * 10 >= |old(slots)| * 7;
              var base := if grow then SlotOrder(old(slots), |old(slots)|) else old(order);
              && |slots| == |old(slots)| * (if grow then 2 else 1)
              && order == if fresh' then base + [id] else base
    {
      hide Laid, Passed;
      if (size + 1) * 10 >= |slots| * 7 {
        Rehash(|slots| * 2, doublings + 1);
      }
      HasRoom(slots, hash, order, m);
      var i := ProbeFor(slots, hash, id);
      LaidAt(slots, hash, order, m, i);
      if slots[i].key == id {
        return false;
      }
      AbsentIfFree(slots, hash, order, m, id, i);
      LaidInsert(slots, hash, order, m, id, v, i);
      slots := slots[i := Slot(id, Some(v))];
      size := size + 1;
      m := m[id := v];
      order := order + [id];
      fresh' := true;
    }

    method Erase(id: OrderId) returns (found: bool)
      requires Valid() && id != EMPTY
      modifies this
      ensures Valid() && |slots| == |old(slots)|
      ensures found <==> id in old(m)
      ensures m == old(m) - {id}
      ensures size == old(size) - if found then 1 else 0
      ensures order == Remove(old(order), id)
      ensures slots == Fill(hash, |slots|, Entries(Remove(old(order), id), old(m) - {id}))
    {
      hide Laid, Passed, Fill;
      HasRoom(slots, hash, order, m);
      var i := ProbeFor(slots, hash, id);
      LaidAt(slots, hash, order, m, i);
      if slots[i].key == EMPTY {
        AbsentIfFree(slots, hash, order, m, id, i);
        RemoveAbsent(order, id);
        assert m - {id} == m;
        LaidIsFill(slots, hash, order, m);
        return false;
      }
      EraseAt(i);
      LaidIsFill(slots, hash, order, m);
      found := true;
    }

    method EraseAt(at: nat)
      requires Valid() && at < |slots| && slots[at].key != EMPTY
      modifies this
      ensures Valid() && |slots| == |old(slots)|
      ensures m == old(m) - {old(slots)[at].key} && order == Remove(old(order), old(slots)[at].key)
      ensures size == old(size) - 1
    {
      hide Laid, Stores, Shifting, Stamps, Remove, Distinct;
      ghost var id := slots[at].key;
      ghost var st, e := EraseStart(slots, hash, order, m, at);
      slots := slots[at := Slot(EMPTY, None)];
      m := m - {id};
      order := Remove(order, id);
      ShiftBack(at, st, e);
      ErasedIsLaid(slots, hash, old(order), id, m);
      size := size - 1;
    }

    /** Pulls later keys back into the hole until the next free slot. */
    method ShiftBack(at: nat, ghost st: map<OrderId, nat>, ghost e: nat)
      requires Shifting(slots, hash, st, at, at) && Stores(slots, order, m)
      requires at < |slots| && e < |slots| && e != at && slots[e].key == EMPTY
      modifies this`slots
      ensures |slots| == |old(slots)| && Clustered(slots, hash, st, -1) && Stores(slots, order, m)
    {
      hide Clustered, Stores, Shifting, OnPath, Home;
      var i: nat, j: nat := at, at;
      while true
        invariant |slots| == |old(slots)| && i < |slots| && j < |slots|
        invariant Shifting(slots, hash, st, i, j) && Stores(slots, order, m)
        invariant e != i && e != j && slots[e].key == EMPTY
        decreases Dist(j, e, |slots|)
      {
        ghost var last := j;
        j := Next(j, |slots|);
        if slots[j].key == EMPTY {
          ShiftDone(slots, hash, st, i, last);
          return;
        }
        OffsetsDecide(slots, hash, st, i, last);
        var k := Home(hash, slots[j].key, |slots|);
        var holeOff := Dist(k, i, |slots|);
        var curOff := Dist(k, j, |slots|);
        if holeOff <= curOff {
          ShiftMove(slots, hash, st, i, last);
          StoresMove(slots, order, m, i, j);
          slots := slots[i := slots[j]];
          i := j;
          slots := slots[i := Slot(EMPTY, None)];
        } else {
          ShiftSkip(slots, hash, st, i, last);
        }
      }
    }

    /** Makes room for `n` keys: the table has the least capacity that holds them under the load limit, or
        the one it had if that was more. */
    method Reserve(n: nat)
      requires Valid()
      modifies this
      ensures Valid() && m == old(m) && size == old(size)
      ensures |slots| == Max(|old(slots)|, Room(n)) && n * 10 < |slots| * 7
      ensures |slots| == |old(slots)| ==> slots == old(slots) && order == old(order)
    {
      var want := INITIAL_CAPACITY;
      ghost var d: nat := 0;
      while want * 7 < n * 10
        invariant want == INITIAL_CAPACITY * Pow2(d) && RoomFrom(n, want) == Room(n)
        decreases n * 10 - want * 7
      {
        want := want * 2;
        d := d + 1;
      }
      LoadNeverExact(d, n);
      if want > |slots| {
        Rehash(want, d);
      }
    }

    /** One call, on a table with room for `n` keys. */
    method MakeCall(c: Call<V>, ghost n: nat)
      requires Valid() && c.id != EMPTY && (c.Put? ==> |m| < n) && n * 10 < |slots| * 7
      modifies this
      ensures Valid() && m == Called(old(m), c) && |slots| == |old(slots)|
    {
      Facts();
      hide Valid, SlotOrder, Remove;
      match c
      case Put(id, v) =>
        var fresh' := Insert(id, v);
      case Take(id) =>
        var found := Erase(id);
    }

    /** Any calls that never insert with `n` keys in, on a table with room for `n`: the table never rehashes,
        and acts as a finite map. */
    method MakeCalls(n: nat, calls: seq<Call<V>>)
      requires Valid() && StaysWithin(m, calls, n) && n * 10 < |slots| * 7
      modifies this
      ensures Valid() && m == AfterCalls(old(m), calls) && |slots| == |old(slots)|
    {
      hide Valid, SlotOrder, Called;
      for i := 0 to |calls|
        invariant Valid() && |slots| == |old(slots)|
        invariant StaysWithin(m, calls[i..], n) && AfterCalls(m, calls[i..]) == AfterCalls(old(m), calls)
      {
        assert calls[i..][0] == calls[i] && calls[i..][1..] == calls[i + 1..];
        MakeCall(calls[i], n);
      }
    }

    /** Reserves room for `n` keys and then makes any such calls: from the reservation on, the table keeps
        the capacity the reservation gave it. */
    method UnderReservation(n: nat, calls: seq<Call<V>>)
      requires Valid() && StaysWithin(m, calls, n)
      modifies this
      ensures Valid() && m == AfterCalls(old(m), calls) && |slots| == Max(|old(slots)|, Room(n))
    {
      hide Valid, SlotOrder, Called;
      Reserve(n);
      MakeCalls(n, calls);
    }
  }

  /** The 70% threshold is never hit exactly: 5 does not divide 7 * 2^k. */
  lemma LoadNeverExact(d: nat, n: nat)
    ensures INITIAL_CAPACITY * Pow2(d) * 7 != n * 10
  {
    FiveNeverDivides(d);
    assert (INITIAL_CAPACITY * Pow2(d) * 7) % 5 == (3 * Pow2(d)) % 5;
  }

  lemma {:induction false} RemoveAbsent(order: seq<OrderId>, id: OrderId)
    requires id !in order
    ensures Remove(order, id) == order
  {
    if order != [] {
      RemoveAbsent(order[1..], id);
    }
  }
}
