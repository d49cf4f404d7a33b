/** Laws of the matching book: conservation of shares, all-or-nothing fills, and a spread that
    order entry never closes. */
module BookLaws {
  import opened Types
  import opened Priority

  // ----- quantities

  lemma {:induction false} TotalOfConcat(p: seq<OpenOrder>, q: seq<OpenOrder>)
    ensures TotalQty(p + q) == TotalQty(p) + TotalQty(q)
  {
    if p == [] {
      assert p + q == q;
    } else {
      assert (p + q)[1..] == p[1..] + q;
      TotalOfConcat(p[1..], q);
    }
  }

  lemma TotalOfSplit(p: seq<OpenOrder>, o: OpenOrder, q: seq<OpenOrder>)
    ensures TotalQty(p + [o] + q) == TotalQty(p) + o.qty + TotalQty(q)
  {
    TotalOfConcat(p + [o], q);
    TotalOfConcat(p, [o]);
  }

  lemma TotalOfInsert(s: Side, q: seq<OpenOrder>, o: OpenOrder)
    ensures TotalQty(Insert(s, q, o)) == TotalQty(q) + o.qty
  {
    var k := Slot(s, q, o.price);
    TotalOfSplit(q[..k], o, q[k..]);
    TotalOfConcat(q[..k], q[k..]);
    assert q[..k] + q[k..] == q;
  }

  lemma TotalOfUpdate(q: seq<OpenOrder>, i: nat, o: OpenOrder)
    requires i < |q|
    ensures TotalQty(q[i := o]) == TotalQty(q) - q[i].qty + o.qty
    ensures TotalQty(Without(q, i)) == TotalQty(q) - q[i].qty
  {
    assert q == q[..i] + [q[i]] + q[i + 1..];
    assert q[i := o] == q[..i] + [o] + q[i + 1..];
    TotalOfSplit(q[..i], q[i], q[i + 1..]);
    TotalOfSplit(q[..i], o, q[i + 1..]);
    TotalOfConcat(q[..i], q[i + 1..]);
  }

  // ----- what a matching run leaves behind

  /** `r` is `q` with a prefix consumed and at most its new head reduced. */
  ghost predicate Consumed(q: seq<OpenOrder>, r: seq<OpenOrder>) {
    && |r| <= |q|
    && (forall i :: 1 <= i < |r| ==> r[i] == q[|q| - |r| + i])
    && (|r| > 0 ==>
          var o := q[|q| - |r|];
          r[0] == o.(qty := r[0].qty) && r[0].qty <= o.qty && (o.qty > 0 ==> r[0].qty > 0))
  }

  lemma ConsumedTransitive(q: seq<OpenOrder>, r: seq<OpenOrder>, t: seq<OpenOrder>)
    requires Consumed(q, r) && Consumed(r, t)
    ensures Consumed(q, t)
  {
    forall i | 1 <= i < |t|
      ensures t[i] == q[|q| - |t| + i]
    {
      assert t[i] == r[|r| - |t| + i];
    }
  }

  lemma {:induction false} MatchConsumes(a: Aggressor, m: Run)
    ensures Consumed(m.q, Match(a, m).q)
    decreases |m.q|, m.qty
  {
    hide Consumed;
    if Stopped(a, m) {
      ConsumedNone(m.q);
    } else {
      StepConsumes(a, m);
      MatchConsumes(a, Step(a, m));
      ConsumedTransitive(m.q, Step(a, m).q, Match(a, m).q);
    }
  }

  lemma ConsumedNone(q: seq<OpenOrder>)
    ensures Consumed(q, q)
  {
  }

  lemma StepConsumes(a: Aggressor, m: Run)
    requires !Stopped(a, m)
    ensures Consumed(m.q, Step(a, m).q)
  {
    hide Consumed;
    var o := m.q[0];
    ConsumedNone(m.q);
    ConsumedTail(m.q);
    if m.qty < o.qty {
      ConsumedCut(m.q, [o.(qty := o.qty - m.qty)] + m.q[1..]);
    }
  }

  lemma ConsumedTail(q: seq<OpenOrder>)
    requires q != []
    ensures Consumed(q, q[1..])
  {
  }

  lemma ConsumedCut(q: seq<OpenOrder>, r: seq<OpenOrder>)
    requires |r| == |q| > 0 && r[1..] == q[1..]
    requires r[0] == q[0].(qty := r[0].qty) && 0 < r[0].qty <= q[0].qty
    ensures Consumed(q, r)
  {
    forall i | 1 <= i < |r|
      ensures r[i] == q[i]
    {
      assert r[1..][i - 1] == q[1..][i - 1];
    }
  }

  /** Shares are neither made nor lost by matching: a fill takes from both sides. */
  lemma {:induction false} MatchConserves(a: Aggressor, m: Run)
    ensures var r := Match(a, m);
            2 * r.c.traded + r.c.canceled + TotalQty(r.q) + r.qty
            == 2 * m.c.traded + m.c.canceled + TotalQty(m.q) + m.qty
    ensures Match(a, m).c.added == m.c.added && Match(a, m).c.executed == m.c.executed
    decreases |m.q|, m.qty
  {
    if !Stopped(a, m) {
      MatchConserves(a, Step(a, m));
    }
  }

  /** What a run trades is exactly what was reachable, capped by what was asked for; and unless
      self-trade prevention killed the aggressor, what is left is what was not traded. */
  lemma {:induction false} MatchFills(a: Aggressor, m: Run)
    ensures Match(a, m).c.traded == m.c.traded + Min(m.qty, Reachable(a, m.q))
    ensures Match(a, m).qty <= m.qty - Min(m.qty, Reachable(a, m.q))
    ensures a.actor == 0 ==> Match(a, m).qty == m.qty - Min(m.qty, Reachable(a, m.q))
    decreases |m.q|, m.qty
  {
    if !Stopped(a, m) {
      MatchFills(a, Step(a, m));
    }
  }

  // ----- fill-or-kill

  /** One price level of the opposite side, seen from an aggressor. */
  lemma {:induction false} ReachableAt(a: Aggressor, f: seq<OpenOrder>, rest: seq<OpenOrder>, price: Price)
    requires forall k :: 0 <= k < |f| ==> f[k].price == price
    ensures !a.Reaches(price) && f != [] ==> Reachable(a, f + rest) == 0
    ensures a.Reaches(price) && (a.actor == 0 || a.stp == NoPrevention) ==>
              Reachable(a, f + rest) == TotalQty(f) + Reachable(a, rest)
  {
    if f == [] {
      assert f + rest == rest;
    } else {
      assert (f + rest)[1..] == f[1..] + rest;
      ReachableAt(a, f[1..], rest, price);
    }
  }

  lemma ReachableNext(a: Aggressor, f: seq<OpenOrder>, k: nat, rest: seq<OpenOrder>)
    requires k < |f| && a.Reaches(f[k].price)
    ensures Reachable(a, f[k..] + rest) ==
            if !a.Owns(f[k].participant) then f[k].qty + Reachable(a, f[k + 1..] + rest)
            else if a.stp == CancelResting then Reachable(a, f[k + 1..] + rest) else 0
  {
    assert (f[k..] + rest)[1..] == f[k + 1..] + rest;
  }

  /** Fill-or-kill succeeds exactly when an immediate-or-cancel on the same book would trade the
      whole quantity; it then does what that order would do, and otherwise does nothing. */
  lemma FillOrKill(b: Book, actor: ParticipantId, id: OrderId, s: Side, price: Price, qty: Qty)
    ensures var fok := AddFok(b, actor, id, s, price, qty);
            var ioc := AddIoc(b, actor, id, s, price, qty);
            && (fok.result == Ok <==> ioc.result == Ok && ioc.book.c.traded == b.c.traded + qty)
            && (fok.result == Ok ==> fok == ioc)
            && (fok.result != Ok ==> fok.book == b && fok.execs == [])
  {
    if Validate(b, id, price, qty) == Ok {
      var a := Aggressor(id, actor, s, Some(price), b.stp);
      MatchFills(a, Start(b, a, qty));
    }
  }

  // ----- well-formed books stay well formed

  /** Every order of `r` comes from an order of `q` with the same id and price. */
  ghost predicate From(q: seq<OpenOrder>, r: seq<OpenOrder>) {
    forall i :: 0 <= i < |r| ==> Offers(q, r[i].id, r[i].price)
  }

  ghost predicate Offers(q: seq<OpenOrder>, id: OrderId, price: Price) {
    exists j :: 0 <= j < |q| && q[j].id == id && q[j].price == price
  }

  ghost predicate ValidSide(s: Side, q: seq<OpenOrder>) {
    && Sorted(s, q) && DistinctIds(q)
    && forall i :: 0 <= i < |q| ==> q[i].qty > 0 && q[i].id != 0
  }

  lemma ConsumedSide(s: Side, q: seq<OpenOrder>, r: seq<OpenOrder>)
    requires ValidSide(s, q) && Consumed(q, r)
    ensures ValidSide(s, r) && From(q, r)
  {
    var d := |q| - |r|;
    forall i | 0 <= i < |r|
      ensures Offers(q, r[i].id, r[i].price)
    {
      assert r[i].id == q[d + i].id && r[i].price == q[d + i].price;
    }
  }

  lemma WithoutSide(s: Side, q: seq<OpenOrder>, k: nat)
    requires ValidSide(s, q) && k < |q|
    ensures ValidSide(s, Without(q, k)) && From(q, Without(q, k)) && !HasId(Without(q, k), q[k].id)
  {
    var r := Without(q, k);
    forall i | 0 <= i < |r|
      ensures Offers(q, r[i].id, r[i].price)
    {
      assert r[i] == q[if i < k then i else i + 1];
    }
  }

  lemma UpdateSide(s: Side, q: seq<OpenOrder>, k: nat, qty: Qty)
    requires ValidSide(s, q) && k < |q| && qty > 0
    ensures var r := q[k := q[k].(qty := qty)]; ValidSide(s, r) && From(q, r)
  {
    var r := q[k := q[k].(qty := qty)];
    forall i | 0 <= i < |r|
      ensures Offers(q, r[i].id, r[i].price)
    {
      assert r[i].id == q[i].id && r[i].price == q[i].price;
    }
  }

  lemma InsertSide(s: Side, q: seq<OpenOrder>, o: OpenOrder)
    requires ValidSide(s, q) && !HasId(q, o.id) && o.qty > 0 && o.id != 0
    ensures ValidSide(s, Insert(s, q, o))
    ensures forall x :: x in Insert(s, q, o) <==> x == o || x in q
  {
    hide Sorted, DistinctIds, Insert, HasId;
    InsertMembers(s, q, o);
    InsertSorted(s, q, o);
    InsertDistinct(s, q, o);
    var r := Insert(s, q, o);
    forall i | 0 <= i < |r|
      ensures r[i].qty > 0 && r[i].id != 0
    {
      assert r[i] in r;
    }
  }

  lemma InsertDistinct(s: Side, q: seq<OpenOrder>, o: OpenOrder)
    requires DistinctIds(q) && !HasId(q, o.id)
    ensures DistinctIds(Insert(s, q, o))
  {
    var k := Slot(s, q, o.price);
    var r := Insert(s, q, o);
    hide Slot;
    assert forall i :: 0 <= i < |r| ==> r[i] == if i < k then q[i] else if i == k then o else q[i - 1];
  }

  lemma InsertSorted(s: Side, q: seq<OpenOrder>, o: OpenOrder)
    requires Sorted(s, q)
    ensures Sorted(s, Insert(s, q, o))
  {
    var k := Slot(s, q, o.price);
    var r := Insert(s, q, o);
    hide Slot;
    assert forall i :: 0 <= i < |r| ==> r[i] == if i < k then q[i] else if i == k then o else q[i - 1];
  }

  lemma InsertMembers(s: Side, q: seq<OpenOrder>, o: OpenOrder)
    ensures forall x :: x in Insert(s, q, o) <==> x == o || x in q
  {
    var k := Slot(s, q, o.price);
    assert q == q[..k] + q[k..];
  }

  lemma ValidSides(b: Book)
    ensures b.Valid() <==>
              && ValidSide(Bid, b.bids) && ValidSide(Ask, b.asks)
              && forall i :: 0 <= i < |b.bids| ==> !HasId(b.asks, b.bids[i].id)
  {
  }

  /** Replacing one side by orders that came from it keeps the book valid and uncrossed. */
  lemma NarrowSide(b: Book, s: Side, r: seq<OpenOrder>)
    requires b.Valid() && ValidSide(s, r) && From(b.Queue(s), r)
    ensures b.WithQueue(s, r).Valid()
    ensures b.Uncrossed() ==> b.WithQueue(s, r).Uncrossed()
    ensures forall id :: !HasId(b.Queue(s), id) ==> !HasId(r, id)
  {
  }

  lemma RestKeeps(b: Book, s: Side, o: OpenOrder)
    requires b.Valid() && !b.Has(o.id) && o.qty > 0 && o.id != 0
    ensures Rest(b, s, o).Valid()
    ensures Rest(b, s, o).Resting() == b.Resting() + o.qty
  {
    InsertSide(s, b.Queue(s), o);
    TotalOfInsert(s, b.Queue(s), o);
    var r := Insert(s, b.Queue(s), o);
    var other := b.Queue(Opposite(s));
    forall i, j | 0 <= i < |r| && 0 <= j < |other|
      ensures r[i].id != other[j].id
    {
      assert r[i] in r;
    }
  }

  /** Resting a new order keeps an uncrossed book uncrossed exactly when it does not reach the
      best order opposite. */
  lemma RestUncrossedIff(b: Book, s: Side, o: OpenOrder)
    requires Sorted(Opposite(s), b.Queue(Opposite(s))) && b.Uncrossed()
    ensures var opp := b.Queue(Opposite(s));
            var a := Aggressor(o.id, 0, s, Some(o.price), b.stp);
            Rest(b, s, o).Uncrossed() <==> opp == [] || !a.Reaches(opp[0].price)
  {
    var q := b.Queue(s);
    var k := Slot(s, q, o.price);
    var r := Insert(s, q, o);
    assert r[k] == o;
    assert forall i :: 0 <= i < |r| ==> r[i] == if i < k then q[i] else if i == k then o else q[i - 1];
    if s == Bid {
      BidApart(q, r, k, b.asks);
    } else {
      AskApart(q, r, k, b.bids);
    }
  }

  lemma BidApart(q: seq<OpenOrder>, r: seq<OpenOrder>, k: nat, asks: seq<OpenOrder>)
    requires Sorted(Ask, asks) && k < |r| == |q| + 1
    requires forall i :: 0 <= i < |r| && i != k ==> r[i] == q[if i < k then i else i - 1]
    requires forall i, j :: 0 <= i < |q| && 0 <= j < |asks| ==> q[i].price < asks[j].price
    ensures (forall i, j :: 0 <= i < |r| && 0 <= j < |asks| ==> r[i].price < asks[j].price) <==>
              asks == [] || r[k].price < asks[0].price
  {
  }

  lemma AskApart(q: seq<OpenOrder>, r: seq<OpenOrder>, k: nat, bids: seq<OpenOrder>)
    requires Sorted(Bid, bids) && k < |r| == |q| + 1
    requires forall i :: 0 <= i < |r| && i != k ==> r[i] == q[if i < k then i else i - 1]
    requires forall i, j :: 0 <= i < |bids| && 0 <= j < |q| ==> bids[i].price < q[j].price
    ensures (forall i, j :: 0 <= i < |bids| && 0 <= j < |r| ==> bids[i].price < r[j].price) <==>
              bids == [] || bids[0].price < r[k].price
  {
  }

  lemma DropKeeps(b: Book, id: OrderId)
    requires b.Valid() && b.Has(id)
    ensures Drop(b, id).Valid() && !Drop(b, id).Has(id)
    ensures b.Uncrossed() ==> Drop(b, id).Uncrossed()
    ensures Drop(b, id).Resting() == b.Resting() - b.Find(id).qty
    ensures forall x :: !b.Has(x) ==> !Drop(b, id).Has(x)
  {
    var s := b.SideOf(id);
    var q := b.Queue(s);
    var k := IndexOf(q, id);
    WithoutSide(s, q, k);
    NarrowSide(b, s, Without(q, k));
    TotalOfUpdate(q, k, q[k]);
  }

  lemma CancelKeeps(b: Book, id: OrderId)
    requires b.Valid() && b.Has(id)
    ensures var r := CancelOpen(b, id);
            r.Valid() && (b.Uncrossed() ==> r.Uncrossed()) && (b.Conserves() ==> r.Conserves())
  {
    DropKeeps(b, id);
  }

  lemma MatchKeeps(b: Book, a: Aggressor, qty: Qty)
    requires b.Valid()
    ensures var m := Match(a, Start(b, a, qty)); var after := After(b, a, m);
            && after.Valid()
            && (b.Uncrossed() ==> after.Uncrossed())
            && (b.Conserves() ==>
                  2 * m.c.traded + m.c.canceled + m.c.executed + after.Resting() + m.qty == m.c.added)
            && (forall id :: !b.Has(id) ==> !after.Has(id))
            && after.Queue(a.side) == b.Queue(a.side)
  {
    var start := Start(b, a, qty);
    var m := Match(a, start);
    MatchConsumes(a, start);
    MatchConserves(a, start);
    ConsumedSide(Opposite(a.side), start.q, m.q);
    NarrowSide(b, Opposite(a.side), m.q);
  }

  lemma AddLimitKeeps(b: Book, actor: ParticipantId, id: OrderId, s: Side, price: Price, qty: Qty)
    requires b.Valid()
    ensures var r := AddLimit(b, actor, id, s, price, qty).book;
            r.Valid() && (b.Uncrossed() ==> r.Uncrossed()) && (b.Conserves() ==> r.Conserves())
  {
    if Validate(b, id, price, qty) == Ok {
      var a := Aggressor(id, actor, s, Some(price), b.stp);
      var m := Match(a, Start(b, a, qty));
      MatchKeeps(b, a, qty);
      var after := After(b, a, m);
      if m.qty > 0 {
        var o := OpenOrder(id, price, m.qty, actor);
        RestKeeps(after, s, o);
        if b.Uncrossed() {
          RestUncrossedIff(after, s, o);
        }
      }
    }
  }

  lemma ImmediateKeeps(b: Book, a: Aggressor, qty: Qty)
    requires b.Valid()
    ensures var r := Immediate(b, a, qty).book;
            r.Valid() && (b.Uncrossed() ==> r.Uncrossed()) && (b.Conserves() ==> r.Conserves())
  {
    MatchKeeps(b, a, qty);
  }

  lemma ReplaceKeeps(b: Book, oldId: OrderId, newId: OrderId, price: Price, qty: Qty)
    requires b.Valid()
    ensures var r := Replace(b, oldId, newId, price, qty).book;
            r.Valid() && (b.Uncrossed() ==> r.Uncrossed()) && (b.Conserves() ==> r.Conserves())
  {
    hide Book.Valid, Book.Uncrossed, Book.Conserves;
    if b.Has(oldId) {
      CancelKeeps(b, oldId);
      AddLimitKeeps(CancelOpen(b, oldId), b.Find(oldId).participant, newId, b.SideOf(oldId), price, qty);
    }
  }

  lemma ShrinkKeeps(b: Book, id: OrderId, take: Qty)
    requires b.Valid() && b.Has(id) && take <= b.Find(id).qty
    ensures var r := Shrink(b, id, take);
            r.Valid() && (b.Uncrossed() ==> r.Uncrossed()) && r.Resting() == b.Resting() - take
  {
    var s := b.SideOf(id);
    var q := b.Queue(s);
    var k := IndexOf(q, id);
    var left := q[k].qty - take;
    if left > 0 {
      UpdateSide(s, q, k, left);
      NarrowSide(b, s, q[k := q[k].(qty := left)]);
      TotalOfUpdate(q, k, q[k].(qty := left));
    } else {
      DropKeeps(b, id);
    }
  }

  lemma ConsumeKeeps(b: Book, id: OrderId, qty: Qty, isExecution: bool)
    requires b.Valid()
    ensures var r := Consume(b, id, qty, isExecution).book;
            r.Valid() && (b.Uncrossed() ==> r.Uncrossed()) && (b.Conserves() ==> r.Conserves())
  {
    if b.Has(id) && qty > 0 {
      ShrinkKeeps(b, id, Taken(b, id, qty));
    }
  }

  lemma PolicyKeeps(b: Book, p: SelfTradePolicy)
    requires b.Valid()
    ensures var r := b.(stp := p);
            r.Valid() && (b.Uncrossed() ==> r.Uncrossed()) && (b.Conserves() ==> r.Conserves())
  {
  }

  lemma PassiveKeeps(b: Book, id: OrderId, s: Side, price: Price, qty: Qty)
    requires b.Valid()
    ensures var r := InsertPassive(b, id, s, price, qty).book;
            r.Valid() && (b.Conserves() ==> r.Conserves())
  {
    if Validate(b, id, price, qty) == Ok {
      RestKeeps(b, s, OpenOrder(id, price, qty, 0));
    }
  }

  /** One call of any kind keeps the book valid and conserves shares; any call but a passive
      insert also keeps the sides apart. */
  lemma ApplyKeeps(b: Book, op: Op)
    requires b.Valid()
    ensures Apply(b, op).book.Valid()
    ensures b.Conserves() ==> Apply(b, op).book.Conserves()
    ensures b.Uncrossed() && !op.Passive? ==> Apply(b, op).book.Uncrossed()
  {
    hide Book.Valid, Book.Uncrossed, Book.Conserves;
    match op
    case SetPolicy(p) => PolicyKeeps(b, p);
    case Limit(actor, id, s, price, qty) => AddLimitKeeps(b, actor, id, s, price, qty);
    case Ioc(actor, id, s, price, qty) => ImmediateKeeps(b, Aggressor(id, actor, s, Some(price), b.stp), qty);
    case Fok(actor, id, s, price, qty) => ImmediateKeeps(b, Aggressor(id, actor, s, Some(price), b.stp), qty);
    case Market(actor, id, s, qty) => ImmediateKeeps(b, Aggressor(id, actor, s, None, b.stp), qty);
    case CancelId(id) => if b.Has(id) { CancelKeeps(b, id); }
    case ReplaceId(oldId, newId, price, qty) => ReplaceKeeps(b, oldId, newId, price, qty);
    case Passive(id, s, price, qty) =>
      PassiveKeeps(b, id, s, price, qty);
    case ExecuteResting(id, qty) => ConsumeKeeps(b, id, qty, true);
    case ReduceResting(id, qty) => ConsumeKeeps(b, id, qty, false);
  }

  /** Shares are conserved over every run of every public call, matching and feed mixed. */
  lemma {:induction false} SharesConserved(b: Book, ops: seq<Op>)
    requires b.Valid() && b.Conserves()
    ensures ApplyAll(b, ops).Valid() && ApplyAll(b, ops).Conserves()
    decreases |ops|
  {
    if ops != [] {
      ApplyKeeps(b, ops[0]);
      SharesConserved(Apply(b, ops[0]).book, ops[1..]);
    }
  }

  /** No run without passive inserts crosses the book, whatever the self-trade policy and however often it
      changes. */
  lemma {:induction false} NeverCrossed(b: Book, ops: seq<Op>)
    requires b.Valid() && b.Uncrossed()
    requires forall i :: 0 <= i < |ops| ==> !ops[i].Passive?
    ensures ApplyAll(b, ops).Valid() && ApplyAll(b, ops).Uncrossed()
    decreases |ops|
  {
    if ops != [] {
      ApplyKeeps(b, ops[0]);
      NeverCrossed(Apply(b, ops[0]).book, ops[1..]);
    }
  }

  /** From the empty book both laws hold with nothing assumed. */
  lemma FromEmpty(range: PriceRange, ops: seq<Op>)
    ensures ApplyAll(Empty(range), ops).Conserves()
    ensures (forall i :: 0 <= i < |ops| ==> !ops[i].Passive?) ==> ApplyAll(Empty(range), ops).Uncrossed()
  {
    SharesConserved(Empty(range), ops);
    if forall i :: 0 <= i < |ops| ==> !ops[i].Passive? {
      NeverCrossed(Empty(range), ops);
    }
  }

  /** A passive insert matches nothing, so it crosses the book exactly when it is accepted at a
      price that reaches the best order opposite. */
  lemma PassiveCrossesIff(b: Book, id: OrderId, s: Side, price: Price, qty: Qty)
    requires b.Valid() && b.Uncrossed()
    ensures var opp := b.Queue(Opposite(s));
            var r := InsertPassive(b, id, s, price, qty);
            !r.book.Uncrossed() <==>
              r.result == Ok && opp != [] && if s == Bid then price >= opp[0].price else price <= opp[0].price
  {
    if Validate(b, id, price, qty) == Ok {
      var c := b.c.(added := b.c.added + qty);
      RestUncrossedIff(b.(c := c), s, OpenOrder(id, price, qty, 0));
    }
  }

  /** A feed that crosses an empty book: a bid at 10, and then an ask at 5. */
  lemma FeedCrosses()
    ensures var b := ApplyAll(Empty(Unbounded), [Passive(1, Bid, 10, 1), Passive(2, Ask, 5, 1)]);
            !b.Uncrossed() && b.bids == [OpenOrder(1, 10, 1, 0)] && b.asks == [OpenOrder(2, 5, 1, 0)]
  {
    var bid, ask := Passive(1, Bid, 10, 1), Passive(2, Ask, 5, 1);
    var b0 := Empty(Unbounded);
    var b1 := Apply(b0, bid).book;
    assert b1.bids == [OpenOrder(1, 10, 1, 0)] && b1.asks == [];
    assert !b1.Has(2);
    var b2 := Apply(b1, ask).book;
    assert b2.bids == [OpenOrder(1, 10, 1, 0)] && b2.asks == [OpenOrder(2, 5, 1, 0)];
    assert b2.bids[0].price == 10 && b2.asks[0].price == 5;
    hide Apply;
    assert [bid, ask][1..] == [ask] && [ask][1..] == [];
    assert ApplyAll(b2, []) == b2 && ApplyAll(b1, [ask]) == ApplyAll(b2, []);
    assert ApplyAll(b0, [bid, ask]) == ApplyAll(b1, [ask]);
  }
}
