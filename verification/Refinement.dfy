/** The priority-queue book and the naive reference book agree: same results, same executions in
    the same order, same counters, and the same orders in the same price-then-arrival order, after
    every call of every run. */
module Refinement {
  import opened Types
  import P = Priority
  import L = BookLaws
  import R = Reference

  // ----- the flat vector, ranked

  function Value(o: R.RefOrder): OpenOrder {
    OpenOrder(o.id, o.price, o.qty, o.participant)
  }

  /** One side of the flat vector, by price and within a price by arrival. */
  function Ranked(live: seq<R.RefOrder>, s: Side): seq<OpenOrder> {
    if live == [] then []
    else
      var o := live[|live| - 1];
      var r := Ranked(live[..|live| - 1], s);
      if o.side == s then P.Insert(s, r, Value(o)) else r
  }

  function Abstract(st: R.RefState): P.Book {
    P.Book(st.range, st.stp, Ranked(st.live, Bid), Ranked(st.live, Ask), st.c)
  }

  ghost predicate ValidLive(live: seq<R.RefOrder>, next: nat) {
    && (forall i, j :: 0 <= i < j < |live| ==> live[i].id != live[j].id)
    && (forall i, j :: 0 <= i < j < |live| ==> live[i].arrival < live[j].arrival)
    && (forall i :: 0 <= i < |live| ==> live[i].arrival < next && live[i].qty > 0 && live[i].id != 0)
  }

  lemma PrefixValid(live: seq<R.RefOrder>, next: nat, n: nat)
    requires ValidLive(live, next) && n <= |live|
    ensures ValidLive(live[..n], next)
  {
  }

  lemma {:induction false} RankedHas(live: seq<R.RefOrder>, s: Side, id: OrderId)
    ensures P.HasId(Ranked(live, s), id) <==>
              exists i :: 0 <= i < |live| && live[i].id == id && live[i].side == s
  {
    if live != [] {
      var n := |live| - 1;
      var o := live[n];
      RankedHas(live[..n], s, id);
      if exists i :: 0 <= i < |live| && live[i].id == id && live[i].side == s {
        var i :| 0 <= i < |live| && live[i].id == id && live[i].side == s;
        if i < n {
          assert live[..n][i] == live[i];
        }
      }
      if o.side == s {
        InsertHas(s, Ranked(live[..n], s), Value(o), id);
      }
    }
  }

  lemma InsertHas(s: Side, q: seq<OpenOrder>, o: OpenOrder, id: OrderId)
    ensures P.HasId(P.Insert(s, q, o), id) <==> o.id == id || P.HasId(q, id)
  {
    var k := P.Slot(s, q, o.price);
    var r := P.Insert(s, q, o);
    assert r[k] == o;
    if P.HasId(q, id) {
      var j :| 0 <= j < |q| && q[j].id == id;
      assert r[if j < k then j else j + 1].id == id;
    }
    if P.HasId(r, id) {
      var j :| 0 <= j < |r| && r[j].id == id;
      assert j != k ==> q[if j < k then j else j - 1].id == id;
    }
  }

  lemma {:induction false} RankedValid(live: seq<R.RefOrder>, s: Side, next: nat)
    requires ValidLive(live, next)
    ensures L.ValidSide(s, Ranked(live, s))
  {
    if live != [] {
      var n := |live| - 1;
      PrefixValid(live, next, n);
      RankedValid(live[..n], s, next);
      RankedHas(live[..n], s, live[n].id);
      if live[n].side == s {
        L.InsertSide(s, Ranked(live[..n], s), Value(live[n]));
      }
    }
  }

  lemma AbstractValid(st: R.RefState)
    requires ValidLive(st.live, st.next)
    ensures Abstract(st).Valid()
    ensures forall id :: Abstract(st).Has(id) <==> R.Position(st.live, id) < |st.live|
  {
    RankedValid(st.live, Bid, st.next);
    RankedValid(st.live, Ask, st.next);
    forall id
      ensures Abstract(st).Has(id) <==> R.Position(st.live, id) < |st.live|
      ensures !(P.HasId(Ranked(st.live, Bid), id) && P.HasId(Ranked(st.live, Ask), id))
    {
      RankedHas(st.live, Bid, id);
      RankedHas(st.live, Ask, id);
    }
    L.ValidSides(Abstract(st));
    var bids := Ranked(st.live, Bid);
    assert forall i :: 0 <= i < |bids| ==> P.HasId(bids, bids[i].id);
  }

  // ----- changing the vector changes the ranking in step

  lemma SpliceBefore<T>(q: seq<T>, i: nat, k: nat, x: T)
    requires i < k <= |q|
    ensures var r := q[..i] + q[i + 1..]; var t := q[..k] + [x] + q[k..];
            r[..k - 1] + [x] + r[k - 1..] == t[..i] + t[i + 1..]
  {
    var r := q[..i] + q[i + 1..];
    assert r[..k - 1] == q[..i] + q[i + 1..k];
    assert r[k - 1..] == q[k..];
  }

  lemma SpliceAfter<T>(q: seq<T>, i: nat, k: nat, x: T)
    requires k <= i < |q|
    ensures var r := q[..i] + q[i + 1..]; var t := q[..k] + [x] + q[k..];
            r[..k] + [x] + r[k..] == t[..i + 1] + t[i + 2..]
  {
    var r := q[..i] + q[i + 1..];
    assert r[..k] == q[..k];
    assert r[k..] == q[k..i] + q[i + 1..];
  }

  lemma SlotWithout(s: Side, q: seq<OpenOrder>, i: nat, price: Price)
    requires P.Sorted(s, q) && i < |q|
    ensures var k := P.Slot(s, q, price);
            P.Slot(s, P.Without(q, i), price) == if i < k then k - 1 else k
  {
    var k := P.Slot(s, q, price);
    P.SlotIs(s, P.Without(q, i), price, if i < k then k - 1 else k);
  }

  lemma InsertWithout(s: Side, q: seq<OpenOrder>, i: nat, o: OpenOrder)
    requires P.Sorted(s, q) && i < |q|
    ensures var k := P.Slot(s, q, o.price);
            P.Insert(s, P.Without(q, i), o) == P.Without(P.Insert(s, q, o), if i < k then i else i + 1)
  {
    hide P.Sorted;
    SlotWithout(s, q, i, o.price);
    var k := P.Slot(s, q, o.price);
    if i < k {
      SpliceBefore(q, i, k, o);
    } else {
      SpliceAfter(q, i, k, o);
    }
  }

  lemma InsertUpdate(s: Side, q: seq<OpenOrder>, i: nat, qty: Qty, o: OpenOrder)
    requires i < |q|
    ensures var k := P.Slot(s, q, o.price);
            var j := if i < k then i else i + 1;
            P.Insert(s, q[i := q[i].(qty := qty)], o) == P.Insert(s, q, o)[j := q[i].(qty := qty)]
  {
    var k := P.Slot(s, q, o.price);
    var x := q[i].(qty := qty);
    P.SlotIs(s, q[i := x], o.price, k);
    if i < k {
      assert q[i := x][..k] == q[..k][i := x];
    } else {
      assert q[i := x][k..] == q[k..][i - k := x];
    }
  }

  lemma IndexIs(q: seq<OpenOrder>, i: nat)
    requires P.DistinctIds(q) && i < |q|
    ensures P.IndexOf(q, q[i].id) == i
  {
    assert P.HasId(q, q[i].id);
  }

  /** The ranked position of the order at vector position `i`. */
  function RankOf(live: seq<R.RefOrder>, i: nat): nat
    requires i < |live|
  {
    P.IndexOf(Ranked(live, live[i].side), live[i].id)
  }

  lemma {:induction false} RankedFind(live: seq<R.RefOrder>, next: nat, i: nat)
    requires ValidLive(live, next) && i < |live|
    ensures var q := Ranked(live, live[i].side); RankOf(live, i) < |q| && q[RankOf(live, i)] == Value(live[i])
  {
    var n := |live| - 1;
    var s := live[i].side;
    var q := Ranked(live[..n], s);
    var o := live[n];
    PrefixValid(live, next, n);
    RankedValid(live, s, next);
    if i == n {
      var k := P.Slot(s, q, o.price);
      assert Ranked(live, s)[k] == Value(o);
      IndexIs(Ranked(live, s), k);
    } else {
      RankedFind(live[..n], next, i);
      var j := RankOf(live[..n], i);
      var k := P.Slot(s, q, o.price);
      var t := if o.side == s && j >= k then j + 1 else j;
      assert Ranked(live, s)[t] == Value(live[i]);
      IndexIs(Ranked(live, s), t);
    }
  }

  lemma {:induction false} RankedWithout(live: seq<R.RefOrder>, next: nat, i: nat)
    requires ValidLive(live, next) && i < |live|
    ensures RankOf(live, i) < |Ranked(live, live[i].side)|
    ensures Ranked(R.Without(live, i), live[i].side) == P.Without(Ranked(live, live[i].side), RankOf(live, i))
    ensures Ranked(R.Without(live, i), Opposite(live[i].side)) == Ranked(live, Opposite(live[i].side))
  {
    hide Ranked, ValidLive, R.Without, P.Sorted, P.DistinctIds, P.IndexOf, P.Slot, P.Without;
    var n := |live| - 1;
    if i == n {
      LastWithout(live, next);
    } else {
      PrefixValid(live, next, n);
      RankedWithout(live[..n], next, i);
      RankedFind(live, next, i);
      InnerRank(live, next, i);
      RankedValid(live[..n], live[i].side, next);
      InnerWithout(live[..n], live[n], i, RankOf(live[..n], i));
      assert live == live[..n] + [live[n]];
    }
  }

  lemma InnerWithout(live: seq<R.RefOrder>, o: R.RefOrder, i: nat, j: nat)
    requires i < |live| && j < |Ranked(live, live[i].side)| && P.Sorted(live[i].side, Ranked(live, live[i].side))
    requires Ranked(R.Without(live, i), live[i].side) == P.Without(Ranked(live, live[i].side), j)
    requires Ranked(R.Without(live, i), Opposite(live[i].side)) == Ranked(live, Opposite(live[i].side))
    ensures var s := live[i].side;
            var k := P.Slot(s, Ranked(live, s), o.price);
            var t := if o.side == s && j >= k then j + 1 else j;
            && t < |Ranked(live + [o], s)|
            && Ranked(R.Without(live + [o], i), s) == P.Without(Ranked(live + [o], s), t)
            && Ranked(R.Without(live + [o], i), Opposite(s)) == Ranked(live + [o], Opposite(s))
  {
    hide Ranked;
    var s := live[i].side;
    assert R.Without(live + [o], i) == R.Without(live, i) + [o];
    RankedSnoc(R.Without(live, i), o);
    RankedSnoc(live, o);
    if o.side == s {
      InsertWithout(s, Ranked(live, s), j, Value(o));
    }
  }

  lemma RankedSnoc(live: seq<R.RefOrder>, o: R.RefOrder)
    ensures Ranked(live + [o], o.side) == P.Insert(o.side, Ranked(live, o.side), Value(o))
    ensures Ranked(live + [o], Opposite(o.side)) == Ranked(live, Opposite(o.side))
  {
    assert (live + [o])[..|live|] == live;
  }

  lemma LastWithout(live: seq<R.RefOrder>, next: nat)
    requires ValidLive(live, next) && live != []
    ensures var i := |live| - 1; var s := live[i].side;
            && RankOf(live, i) < |Ranked(live, s)|
            && RankOf(live, i) == P.Slot(s, Ranked(live[..i], s), live[i].price)
            && Ranked(R.Without(live, i), s) == P.Without(Ranked(live, s), RankOf(live, i))
            && Ranked(R.Without(live, i), Opposite(s)) == Ranked(live, Opposite(s))
  {
    var n := |live| - 1;
    var s := live[n].side;
    RankedValid(live, s, next);
    assert R.Without(live, n) == live[..n];
    var k := P.Slot(s, Ranked(live[..n], s), live[n].price);
    assert Ranked(live, s)[k] == Value(live[n]);
    IndexIs(Ranked(live, s), k);
    assert P.Without(Ranked(live, s), k) == Ranked(live[..n], s);
  }

  /** Ranking one more order moves an earlier one back by a place, or not at all. */
  lemma InnerRank(live: seq<R.RefOrder>, next: nat, i: nat)
    requires ValidLive(live, next) && i < |live| - 1
    ensures var n := |live| - 1; var s := live[i].side;
            var k := P.Slot(s, Ranked(live[..n], s), live[n].price);
            RankOf(live, i) ==
              RankOf(live[..n], i) + if live[n].side == s && RankOf(live[..n], i) >= k then 1 else 0
  {
    var n := |live| - 1;
    var s := live[i].side;
    PrefixValid(live, next, n);
    RankedFind(live[..n], next, i);
    RankedValid(live, s, next);
    var j := RankOf(live[..n], i);
    var k := P.Slot(s, Ranked(live[..n], s), live[n].price);
    var t := if live[n].side == s && j >= k then j + 1 else j;
    assert Ranked(live, s)[t] == Value(live[i]);
    IndexIs(Ranked(live, s), t);
  }

  lemma {:induction false} RankedUpdate(live: seq<R.RefOrder>, next: nat, i: nat, qty: Qty)
    requires ValidLive(live, next) && i < |live|
    ensures RankOf(live, i) < |Ranked(live, live[i].side)|
    ensures var u := live[i := live[i].(qty := qty)];
            && Ranked(u, live[i].side) == Ranked(live, live[i].side)[RankOf(live, i) := Value(live[i]).(qty := qty)]
            && Ranked(u, Opposite(live[i].side)) == Ranked(live, Opposite(live[i].side))
  {
    hide Ranked, ValidLive, R.Without, P.Sorted, P.DistinctIds, P.IndexOf, P.Slot, P.Without;
    var n := |live| - 1;
    RankedFind(live, next, i);
    if i == n {
      LastUpdate(live, next, qty);
    } else {
      PrefixValid(live, next, n);
      RankedUpdate(live[..n], next, i, qty);
      RankedFind(live[..n], next, i);
      InnerRank(live, next, i);
      InnerUpdate(live[..n], live[n], i, RankOf(live[..n], i), qty);
      assert live == live[..n] + [live[n]];
    }
  }

  lemma LastUpdate(live: seq<R.RefOrder>, next: nat, qty: Qty)
    requires ValidLive(live, next) && live != []
    ensures var i := |live| - 1; var s := live[i].side; var u := live[i := live[i].(qty := qty)];
            && RankOf(live, i) < |Ranked(live, s)|
            && Ranked(u, s) == Ranked(live, s)[RankOf(live, i) := Value(live[i]).(qty := qty)]
            && Ranked(u, Opposite(s)) == Ranked(live, Opposite(s))
  {
    var n := |live| - 1;
    LastWithout(live, next);
    assert live[n := live[n].(qty := qty)][..n] == live[..n];
  }

  lemma InnerUpdate(live: seq<R.RefOrder>, o: R.RefOrder, i: nat, j: nat, qty: Qty)
    requires i < |live| && j < |Ranked(live, live[i].side)| && Ranked(live, live[i].side)[j] == Value(live[i])
    requires var u := live[i := live[i].(qty := qty)];
             && Ranked(u, live[i].side) == Ranked(live, live[i].side)[j := Value(live[i]).(qty := qty)]
             && Ranked(u, Opposite(live[i].side)) == Ranked(live, Opposite(live[i].side))
    ensures var s := live[i].side;
            var k := P.Slot(s, Ranked(live, s), o.price);
            var t := if o.side == s && j >= k then j + 1 else j;
            var u := (live + [o])[i := live[i].(qty := qty)];
            && t < |Ranked(live + [o], s)|
            && Ranked(u, s) == Ranked(live + [o], s)[t := Value(live[i]).(qty := qty)]
            && Ranked(u, Opposite(s)) == Ranked(live + [o], Opposite(s))
  {
    hide Ranked;
    var s := live[i].side;
    var u := live[i := live[i].(qty := qty)];
    assert (live + [o])[i := live[i].(qty := qty)] == u + [o];
    RankedSnoc(u, o);
    RankedSnoc(live, o);
    if o.side == s {
      InsertUpdate(s, Ranked(live, s), j, qty, Value(o));
    }
  }

  // ----- the search finds the head of the queue

  lemma {:induction false} BestIsHead(live: seq<R.RefOrder>, next: nat, a: Aggressor, n: nat)
    requires ValidLive(live, next) && n <= |live|
    ensures var b := R.Best(live, a, n);
            var q := Ranked(live[..n], Opposite(a.side));
            && (b == |live| <==> q == [] || !a.Reaches(q[0].price))
            && (b < |live| ==> Value(live[b]) == q[0] && live[b].side == Opposite(a.side))
  {
    if n > 0 {
      BestIsHead(live, next, a, n - 1);
      assert live[..n][..n - 1] == live[..n - 1];
    }
  }

  lemma HeadRank(live: seq<R.RefOrder>, next: nat, a: Aggressor)
    requires ValidLive(live, next)
    ensures var b := R.Best(live, a, |live|);
            b < |live| ==> live[b].side == Opposite(a.side) && RankOf(live, b) == 0
  {
    BestIsHead(live, next, a, |live|);
    assert live[..|live|] == live;
    var b := R.Best(live, a, |live|);
    if b < |live| {
      RankedValid(live, Opposite(a.side), next);
      IndexIs(Ranked(live, live[b].side), 0);
    }
  }

  // ----- matching in step

  function AbstractRun(a: Aggressor, m: R.RefRun): P.Run {
    P.Run(Ranked(m.live, Opposite(a.side)), m.qty, m.c, m.execs)
  }

  lemma WithoutValid(live: seq<R.RefOrder>, next: nat, i: nat)
    requires ValidLive(live, next) && i < |live|
    ensures ValidLive(R.Without(live, i), next)
  {
    var r := R.Without(live, i);
    assert forall k :: 0 <= k < |r| ==> r[k] == live[if k < i then k else k + 1];
  }

  lemma UpdateValid(live: seq<R.RefOrder>, next: nat, i: nat, qty: Qty)
    requires ValidLive(live, next) && i < |live| && qty > 0
    ensures ValidLive(live[i := live[i].(qty := qty)], next)
  {
  }

  lemma StoppedInStep(a: Aggressor, m: R.RefRun, next: nat)
    requires ValidLive(m.live, next)
    ensures R.Stopped(a, m) <==> P.Stopped(a, AbstractRun(a, m))
  {
    BestIsHead(m.live, next, a, |m.live|);
    assert m.live[..|m.live|] == m.live;
  }

  /** Removing or reducing the order the search found removes or reduces the head of the queue. */
  lemma HeadInStep(live: seq<R.RefOrder>, next: nat, a: Aggressor)
    requires ValidLive(live, next) && R.Best(live, a, |live|) < |live|
    ensures var i := R.Best(live, a, |live|); var q := Ranked(live, Opposite(a.side));
            && q != [] && q[0] == Value(live[i])
            && Ranked(R.Without(live, i), Opposite(a.side)) == q[1..]
            && Ranked(R.Without(live, i), a.side) == Ranked(live, a.side)
            && ValidLive(R.Without(live, i), next)
            && (forall qty: Qty :: qty > 0 ==>
                  var u := live[i := live[i].(qty := qty)];
                  && Ranked(u, Opposite(a.side)) == [q[0].(qty := qty)] + q[1..]
                  && Ranked(u, a.side) == Ranked(live, a.side)
                  && ValidLive(u, next))
  {
    var i := R.Best(live, a, |live|);
    BestIsHead(live, next, a, |live|);
    assert live[..|live|] == live;
    HeadRank(live, next, a);
    RankedWithout(live, next, i);
    WithoutValid(live, next, i);
    forall qty: Qty | qty > 0
      ensures var u := live[i := live[i].(qty := qty)]; var q := Ranked(live, Opposite(a.side));
              && Ranked(u, Opposite(a.side)) == [q[0].(qty := qty)] + q[1..]
              && Ranked(u, a.side) == Ranked(live, a.side)
              && ValidLive(u, next)
    {
      RankedUpdate(live, next, i, qty);
      UpdateValid(live, next, i, qty);
    }
  }

  lemma StepInStep(a: Aggressor, m: R.RefRun, next: nat)
    requires ValidLive(m.live, next) && !R.Stopped(a, m)
    ensures !P.Stopped(a, AbstractRun(a, m))
    ensures var n := R.Step(a, m);
            && AbstractRun(a, n) == P.Step(a, AbstractRun(a, m))
            && ValidLive(n.live, next)
            && Ranked(n.live, a.side) == Ranked(m.live, a.side)
  {
    hide Ranked, ValidLive;
    StoppedInStep(a, m, next);
    HeadInStep(m.live, next, a);
    var i := R.Best(m.live, a, |m.live|);
    var r := m.live[i];
    if !a.Owns(r.participant) && m.qty < r.qty {
      assert r.qty - m.qty > 0;
    }
  }

  lemma {:induction false} MatchInStep(a: Aggressor, m: R.RefRun, next: nat)
    requires ValidLive(m.live, next)
    ensures var r := R.Match(a, m);
            && AbstractRun(a, r) == P.Match(a, AbstractRun(a, m))
            && ValidLive(r.live, next)
            && Ranked(r.live, a.side) == Ranked(m.live, a.side)
    decreases |m.live|, m.qty
  {
    hide Ranked, ValidLive, R.Best;
    StoppedInStep(a, m, next);
    if !R.Stopped(a, m) {
      StepInStep(a, m, next);
      MatchInStep(a, R.Step(a, m), next);
    }
  }

  // ----- the fill-or-kill pre-scan in step

  /** `out` lists, as indices into `live`, the reachable front of `q`. */
  ghost predicate ListsFront(live: seq<R.RefOrder>, a: Aggressor, out: seq<nat>, q: seq<OpenOrder>) {
    && |out| <= |q|
    && (forall t :: 0 <= t < |out| ==> out[t] < |live|)
    && (forall t :: 0 <= t < |out| ==> Value(live[out[t]]) == q[t] && a.Reaches(q[t].price))
    && (forall t :: |out| <= t < |q| ==> !a.Reaches(q[t].price))
  }

  lemma ListsOneMore(live: seq<R.RefOrder>, a: Aggressor, out: seq<nat>, q: seq<OpenOrder>, i: nat)
    requires ListsFront(live, a, out, q) && i < |live|
    requires forall t :: 0 <= t < |out| ==> live[out[t]].arrival < live[i].arrival
    requires a.Reaches(live[i].price)
    ensures ListsFront(live, a, R.SortInto(live, a.side, out, i), P.Insert(Opposite(a.side), q, Value(live[i])))
  {
    var k := R.SortedSlot(live, a.side, out, i);
    assert k < |q| ==> Better(Opposite(a.side), live[i].price, q[k].price) by {
      if k < |out| {
        assert q[k] == Value(live[out[k]]);
      }
    }
    forall t | 0 <= t < k
      ensures !Better(Opposite(a.side), live[i].price, q[t].price)
    {
      assert q[t] == Value(live[out[t]]);
    }
    P.SlotIs(Opposite(a.side), q, live[i].price, k);
  }

  lemma ListsPast(live: seq<R.RefOrder>, a: Aggressor, out: seq<nat>, q: seq<OpenOrder>, o: OpenOrder)
    requires ListsFront(live, a, out, q) && !a.Reaches(o.price)
    ensures ListsFront(live, a, out, P.Insert(Opposite(a.side), q, o))
  {
    assert P.Slot(Opposite(a.side), q, o.price) >= |out|;
  }

  lemma {:induction false} SortedBelow(live: seq<R.RefOrder>, s: Side, out: seq<nat>, n: nat)
    requires n <= |live| && forall t :: 0 <= t < |out| ==> out[t] < n
    ensures forall t :: 0 <= t < |out| ==> R.SortAll(live, s, out)[t] < n
  {
    if out != [] {
      SortedBelow(live, s, out[..|out| - 1], n);
    }
  }

  function Scanned(live: seq<R.RefOrder>, a: Aggressor, n: nat): (out: seq<nat>)
    requires n <= |live|
    ensures forall t :: 0 <= t < |out| ==> out[t] < |live|
  {
    R.SortAll(live, a.side, R.Collect(live, a, n))
  }

  lemma ScannedStep(live: seq<R.RefOrder>, next: nat, a: Aggressor, n: nat)
    requires ValidLive(live, next) && 0 < n <= |live|
    ensures var out := Scanned(live, a, n - 1);
            && (forall t :: 0 <= t < |out| ==> live[out[t]].arrival < live[n - 1].arrival)
            && Scanned(live, a, n) == if R.Eligible(a, live[n - 1]) then R.SortInto(live, a.side, out, n - 1) else out
  {
    var found := R.Collect(live, a, n - 1);
    SortedBelow(live, a.side, found, n - 1);
    if R.Eligible(a, live[n - 1]) {
      assert (found + [n - 1])[..|found|] == found;
    } else {
      assert R.Collect(live, a, n) == found;
    }
  }

  lemma NoneScanned(live: seq<R.RefOrder>, a: Aggressor)
    ensures ListsFront(live, a, Scanned(live, a, 0), Ranked(live[..0], Opposite(a.side)))
  {
  }

  /** Sorting the eligible indices lists the reachable front of the ranked queue. */
  lemma {:induction false} SortedIsRanked(live: seq<R.RefOrder>, next: nat, a: Aggressor, n: nat)
    requires ValidLive(live, next) && n <= |live|
    ensures ListsFront(live, a, Scanned(live, a, n), Ranked(live[..n], Opposite(a.side)))
  {
    hide ListsFront, ValidLive, Ranked, Scanned, R.SortInto, P.Insert;
    if n == 0 {
      NoneScanned(live, a);
    } else {
      SortedIsRanked(live, next, a, n - 1);
      ScannedStep(live, next, a, n);
      var o := live[n - 1];
      var out := Scanned(live, a, n - 1);
      assert live[..n] == live[..n - 1] + [o];
      RankedSnoc(live[..n - 1], o);
      var q := Ranked(live[..n - 1], Opposite(a.side));
      if R.Eligible(a, o) {
        ListsOneMore(live, a, out, q, n - 1);
      } else if o.side != a.side {
        ListsPast(live, a, out, q, Value(o));
      }
    }
  }

  lemma {:induction false} WalkReaches(
    live: seq<R.RefOrder>, a: Aggressor, out: seq<nat>, k: nat, sum: nat, need: Qty, q: seq<OpenOrder>)
    requires ListsFront(live, a, out, q) && k <= |out|
    ensures R.Walk(live, a, out, k, sum, need) < need <==> sum + P.Reachable(a, q[k..]) < need
    decreases |out| - k
  {
    if k < |out| {
      assert q[k..][1..] == q[k + 1..];
      assert q[k] == Value(live[out[k]]);
      WalkReaches(live, a, out, k + 1, sum, need, q);
      WalkReaches(live, a, out, k + 1, sum + q[k].qty, need, q);
    }
  }

  lemma PreScanInStep(st: R.RefState, a: Aggressor, need: Qty)
    requires ValidLive(st.live, st.next)
    ensures R.Walk(st.live, a, R.SortAll(st.live, a.side, R.Collect(st.live, a, |st.live|)), 0, 0, need) < need
            <==> P.Reachable(a, Abstract(st).Queue(Opposite(a.side))) < need
  {
    SortedIsRanked(st.live, st.next, a, |st.live|);
    assert st.live[..|st.live|] == st.live;
    var q := Ranked(st.live, Opposite(a.side));
    WalkReaches(st.live, a, R.SortAll(st.live, a.side, R.Collect(st.live, a, |st.live|)), 0, 0, need, q);
    assert q[0..] == q;
  }

  // ----- entry points in step

  ghost predicate Agree(r: R.RefOutcome, p: P.Outcome) {
    && r.result == p.result && r.execs == p.execs
    && Abstract(r.state) == p.book
    && ValidLive(r.state.live, r.state.next)
  }

  lemma ValidateInStep(st: R.RefState, id: OrderId, price: Price, qty: Qty)
    requires ValidLive(st.live, st.next)
    ensures R.Validate(st, id, price, qty) == P.Validate(Abstract(st), id, price, qty)
  {
    AbstractValid(st);
  }

  lemma StartInStep(st: R.RefState, a: Aggressor, qty: Qty)
    requires ValidLive(st.live, st.next)
    ensures var m := R.Match(a, R.Start(st, qty));
            && AbstractRun(a, m) == P.Match(a, P.Start(Abstract(st), a, qty))
            && Abstract(st.(live := m.live, c := m.c)) == P.After(Abstract(st), a, AbstractRun(a, m))
            && ValidLive(m.live, st.next)
  {
    MatchInStep(a, R.Start(st, qty), st.next);
    assert AbstractRun(a, R.Start(st, qty)) == P.Start(Abstract(st), a, qty);
  }

  lemma RestValid(st: R.RefState, id: OrderId)
    requires ValidLive(st.live, st.next) && !Abstract(st).Has(id)
    ensures forall i :: 0 <= i < |st.live| ==> st.live[i].id != id
  {
    AbstractValid(st);
  }

  lemma RestInStep(st: R.RefState, id: OrderId, s: Side, price: Price, qty: Qty, actor: ParticipantId)
    requires ValidLive(st.live, st.next) && id != 0 && qty > 0 && !Abstract(st).Has(id)
    ensures var r := R.Rest(st, id, s, price, qty, actor);
            && Abstract(r) == P.Rest(Abstract(st), s, OpenOrder(id, price, qty, actor))
            && ValidLive(r.live, r.next)
  {
    RankedSnoc(st.live, R.RefOrder(id, price, qty, s, actor, st.next));
    RestValid(st, id);
  }

  lemma LimitInStep(st: R.RefState, actor: ParticipantId, id: OrderId, s: Side, price: Price, qty: Qty)
    requires ValidLive(st.live, st.next)
    ensures Agree(R.AddLimit(st, actor, id, s, price, qty), P.AddLimit(Abstract(st), actor, id, s, price, qty))
  {
    hide ValidLive, Ranked, P.Match, R.Match;
    ValidateInStep(st, id, price, qty);
    if R.Validate(st, id, price, qty) == Ok {
      var a := Aggressor(id, actor, s, Some(price), st.stp);
      StartInStep(st, a, qty);
      AbstractValid(st);
      L.MatchKeeps(Abstract(st), a, qty);
      var m := R.Match(a, R.Start(st, qty));
      if m.qty > 0 {
        RestInStep(st.(live := m.live, c := m.c), id, s, price, m.qty, actor);
      }
    }
  }

  lemma ImmediateInStep(st: R.RefState, a: Aggressor, qty: Qty)
    requires ValidLive(st.live, st.next)
    ensures Agree(R.Immediate(st, a, qty), P.Immediate(Abstract(st), a, qty))
  {
    StartInStep(st, a, qty);
  }

  lemma CancelInStep(st: R.RefState, id: OrderId)
    requires ValidLive(st.live, st.next) && R.Position(st.live, id) < |st.live|
    ensures var i := R.Position(st.live, id); var b := Abstract(st);
            && b.Has(id) && b.SideOf(id) == st.live[i].side && b.Find(id) == Value(st.live[i])
            && Abstract(R.CancelAt(st, i)) == P.CancelOpen(b, id)
            && ValidLive(R.Without(st.live, i), st.next)
  {
    var i := R.Position(st.live, id);
    AbstractValid(st);
    RankedHas(st.live, Bid, id);
    RankedHas(st.live, Ask, id);
    RankedFind(st.live, st.next, i);
    RankedWithout(st.live, st.next, i);
    WithoutValid(st.live, st.next, i);
  }

  lemma ReplaceInStep(st: R.RefState, oldId: OrderId, newId: OrderId, price: Price, qty: Qty)
    requires ValidLive(st.live, st.next)
    ensures Agree(R.Replace(st, oldId, newId, price, qty), P.Replace(Abstract(st), oldId, newId, price, qty))
  {
    hide ValidLive, Ranked, R.AddLimit, P.AddLimit;
    AbstractValid(st);
    var i := R.Position(st.live, oldId);
    if i < |st.live| {
      CancelInStep(st, oldId);
      LimitInStep(R.CancelAt(st, i), st.live[i].participant, newId, st.live[i].side, price, qty);
    }
  }

  lemma IocInStep(st: R.RefState, actor: ParticipantId, id: OrderId, s: Side, price: Price, qty: Qty)
    requires ValidLive(st.live, st.next)
    ensures Agree(R.AddIoc(st, actor, id, s, price, qty), P.AddIoc(Abstract(st), actor, id, s, price, qty))
  {
    hide ValidLive, Ranked, R.Immediate, P.Immediate;
    ValidateInStep(st, id, price, qty);
    ImmediateInStep(st, Aggressor(id, actor, s, Some(price), st.stp), qty);
  }

  lemma FokInStep(st: R.RefState, actor: ParticipantId, id: OrderId, s: Side, price: Price, qty: Qty)
    requires ValidLive(st.live, st.next)
    ensures Agree(R.AddFok(st, actor, id, s, price, qty), P.AddFok(Abstract(st), actor, id, s, price, qty))
  {
    hide ValidLive, Ranked, R.Immediate, P.Immediate, R.Walk, R.SortAll, R.Collect, P.Reachable;
    ValidateInStep(st, id, price, qty);
    PreScanInStep(st, Aggressor(id, actor, s, Some(price), st.stp), qty);
    ImmediateInStep(st, Aggressor(id, actor, s, Some(price), st.stp), qty);
  }

  lemma MarketInStep(st: R.RefState, actor: ParticipantId, id: OrderId, s: Side, qty: Qty)
    requires ValidLive(st.live, st.next)
    ensures Agree(R.AddMarket(st, actor, id, s, qty), P.AddMarket(Abstract(st), actor, id, s, qty))
  {
    hide ValidLive, Ranked, R.Immediate, P.Immediate;
    AbstractValid(st);
    ImmediateInStep(st, Aggressor(id, actor, s, None, st.stp), qty);
  }

  lemma CancelCallInStep(st: R.RefState, id: OrderId)
    requires ValidLive(st.live, st.next)
    ensures Agree(R.Cancel(st, id), P.Cancel(Abstract(st), id))
  {
    hide ValidLive, Ranked;
    AbstractValid(st);
    if R.Position(st.live, id) < |st.live| {
      CancelInStep(st, id);
    }
  }

  lemma ApplyInStep(st: R.RefState, op: P.Op)
    requires ValidLive(st.live, st.next) && R.Offers(op)
    ensures Agree(R.Apply(st, op), P.Apply(Abstract(st), op))
  {
    hide ValidLive, Ranked, R.AddLimit, P.AddLimit, R.Replace, P.Replace, R.AddIoc, P.AddIoc, R.AddFok,
      P.AddFok, R.AddMarket, P.AddMarket, R.Cancel, P.Cancel;
    match op
    case SetPolicy(p) =>
    case Limit(actor, id, s, price, qty) => LimitInStep(st, actor, id, s, price, qty);
    case Ioc(actor, id, s, price, qty) => IocInStep(st, actor, id, s, price, qty);
    case Fok(actor, id, s, price, qty) => FokInStep(st, actor, id, s, price, qty);
    case Market(actor, id, s, qty) => MarketInStep(st, actor, id, s, qty);
    case CancelId(id) => CancelCallInStep(st, id);
    case ReplaceId(oldId, newId, price, qty) => ReplaceInStep(st, oldId, newId, price, qty);
  }

  // ----- whole runs

  lemma {:induction false} RunsAgreeFrom(st: R.RefState, ops: seq<P.Op>)
    requires ValidLive(st.live, st.next) && forall i :: 0 <= i < |ops| ==> R.Offers(ops[i])
    ensures R.Replies(st, ops) == P.Replies(Abstract(st), ops)
    ensures Abstract(R.ApplyAll(st, ops)) == P.ApplyAll(Abstract(st), ops)
    decreases |ops|
  {
    hide ValidLive, Ranked, R.Apply, P.Apply;
    if ops != [] {
      ApplyInStep(st, ops[0]);
      RunsAgreeFrom(R.Apply(st, ops[0]).state, ops[1..]);
    }
  }

  /** Every run of order entry from the empty books, under any policy and any change of policy,
      gets the same replies from both and leaves both holding the same orders in the same
      priority, with the same counters. */
  lemma RunsAgree(range: PriceRange, ops: seq<P.Op>)
    requires forall i :: 0 <= i < |ops| ==> R.Offers(ops[i])
    ensures R.Replies(R.Empty(range), ops) == P.Replies(P.Empty(range), ops)
    ensures Abstract(R.ApplyAll(R.Empty(range), ops)) == P.ApplyAll(P.Empty(range), ops)
  {
    assert Abstract(R.Empty(range)) == P.Empty(range);
    RunsAgreeFrom(R.Empty(range), ops);
  }
}
