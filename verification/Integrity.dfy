/** Feed integrity: the market data that `Engine::handle` of include/pricetime/engine.hpp emits for a
    request rebuilds the engine's book from the book the feed showed before it. */
module Integrity {
  import opened Types
  import opened Itch
  import opened Replay
  import P = Priority
  import L = BookLaws

  // ----- requests and the messages they cause

  datatype Request =
    | Enter(id: OrderId, side: Side, price: Price, qty: Qty)
    | Cancel(id: OrderId)
    | Reduce(id: OrderId, qty: Qty)
    | Replace(id: OrderId, newId: OrderId, price: Price, qty: Qty)

  /** The call a request makes on the book; the wire carries no participant. */
  function OpOf(q: Request): P.Op {
    match q
    case Enter(id, side, price, qty) => P.Limit(0, id, side, price, qty)
    case Cancel(id) => P.CancelId(id)
    case Reduce(id, qty) => P.ReduceResting(id, qty)
    case Replace(id, newId, price, qty) => P.ReplaceId(id, newId, price, qty)
  }

  /** One execution message per fill, numbered on from `matchNumber`. */
  function ExecMsgs(ts: nat, matchNumber: nat, execs: seq<Execution>): (ms: seq<Msg>)
    ensures |ms| == |execs|
    decreases |execs|
  {
    if execs == [] then []
    else [Msg.OrderExecuted(ts, execs[0].restingId, execs[0].qty, matchNumber + 1)]
         + ExecMsgs(ts, matchNumber + 1, execs[1..])
  }

  function Filled(execs: seq<Execution>): nat {
    if execs == [] then 0 else execs[0].qty + Filled(execs[1..])
  }

  /** Quantity of an accepted request that goes on display. */
  function Displayed(q: Request, out: P.Outcome): nat {
    if out.result == Ok && (q.Enter? || q.Replace?) && Filled(out.execs) <= q.qty then q.qty - Filled(out.execs) else 0
  }

  /** The closing message of a request, when it has one. */
  function ShowMsgs(b: P.Book, q: Request, out: P.Outcome, ts: nat, symbol: Symbol): seq<Msg> {
    if out.result != Ok then []
    else
      match q
      case Enter(id, side, price, _) =>
        if Displayed(q, out) > 0 then [Msg.AddOrder(ts, id, side, Displayed(q, out), symbol, price)] else []
      case Cancel(id) => [Msg.OrderDelete(ts, id)]
      case Reduce(id, qty) =>
        if P.Taken(b, id, qty) > 0 then [Msg.OrderCancel(ts, id, P.Taken(b, id, qty))] else []
      case Replace(id, newId, price, _) =>
        if Displayed(q, out) > 0 then [Msg.OrderReplace(ts, id, newId, Displayed(q, out), price)]
        else [Msg.OrderDelete(ts, id)]
  }

  /** Everything the engine says about a request: its fills, then what is left of it. */
  function Emitted(b: P.Book, q: Request, ts: nat, matchNumber: nat, symbol: Symbol): seq<Msg> {
    var out := P.Apply(b, OpOf(q));
    ExecMsgs(ts, matchNumber, out.execs) + ShowMsgs(b, q, out, ts, symbol)
  }

  // ----- what a receiver makes of them

  /** The event a receiver decodes; prices arrive in 32 bits. */
  function EventFor(m: Msg): Event {
    match m
    case AddOrder(ts, ref, side, shares, symbol, price) =>
      Add(AddFields(ts % TIME_WIDTH, ref, side, shares, symbol, Price32(price)))
    case OrderExecuted(ts, ref, shares, matchNumber) =>
      Exec(ExecFields(ts % TIME_WIDTH, ref, shares, matchNumber % ID_WIDTH, false, true, 0))
    case OrderCancel(ts, ref, shares) => Event.Reduce(CancelFields(ts % TIME_WIDTH, ref, shares))
    case OrderDelete(ts, ref) => Remove(DeleteFields(ts % TIME_WIDTH, ref))
    case OrderReplace(ts, ref, newRef, shares, price) =>
      Swap(ReplaceFields(ts % TIME_WIDTH, ref, newRef, shares, Price32(price)))
    case _ => Ignored
  }

  /** What an event does to the one book the feed shows. */
  function Shown(d: P.Book, e: Event): P.Book {
    match e
    case Add(m) => P.InsertPassive(d, m.ref, m.side, m.price, m.shares).book
    case Exec(x) => P.Consume(d, x.ref, x.shares, true).book
    case Reduce(c) => P.Consume(d, c.ref, c.shares, false).book
    case Remove(x) => P.Cancel(d, x.ref).book
    case Swap(r) =>
      if d.Has(r.ref) then
        P.InsertPassive(P.CancelOpen(d, r.ref), r.newRef, d.SideOf(r.ref), r.price, r.shares).book else d
    case Ignored => d
  }

  function ShownAll(d: P.Book, ms: seq<Msg>): P.Book
    decreases |ms|
  {
    if ms == [] then d else ShownAll(Shown(d, EventFor(ms[0])), ms[1..])
  }

  /** The book shown is uncrossed after every single message. */
  ghost predicate NeverShownCrossed(d: P.Book, ms: seq<Msg>)
    decreases |ms|
  {
    ms == [] ||
    var next := Shown(d, EventFor(ms[0])); next.Uncrossed() && NeverShownCrossed(next, ms[1..])
  }

  lemma {:induction false} ShownConcat(d: P.Book, ms: seq<Msg>, ns: seq<Msg>)
    ensures ShownAll(d, ms + ns) == ShownAll(ShownAll(d, ms), ns)
    ensures NeverShownCrossed(d, ms + ns) <==> NeverShownCrossed(d, ms) && NeverShownCrossed(ShownAll(d, ms), ns)
    decreases |ms|
  {
    if ms == [] {
      assert ms + ns == ns;
    } else {
      assert (ms + ns)[1..] == ms[1..] + ns;
      ShownConcat(Shown(d, EventFor(ms[0])), ms[1..], ns);
    }
  }

  // ----- the simulation

  predicate SameOrders(b: P.Book, d: P.Book) {
    b.bids == d.bids && b.asks == d.asks
  }

  /** Orders as the wire can carry them: without a participant, under 64-bit ids. */
  ghost predicate Plain(q: seq<OpenOrder>) {
    forall i :: 0 <= i < |q| ==> q[i].participant == 0 && q[i].id < ID_WIDTH
  }

  /** The ids and quantities of a request have the widths of the wire. */
  predicate WireFits(q: Request) {
    match q
    case Enter(id, _, _, qty) => id < ID_WIDTH && qty < POW_32
    case Cancel(id) => id < ID_WIDTH
    case Reduce(id, qty) => id < ID_WIDTH && qty < POW_32
    case Replace(id, newId, _, qty) => id < ID_WIDTH && newId < ID_WIDTH && qty < POW_32
  }

  /** An engine's book: well formed, uncrossed, over the tree ladder, and of plain orders. */
  ghost predicate EngineBook(b: P.Book) {
    b.Valid() && b.Uncrossed() && b.range.Unbounded? && Plain(b.bids) && Plain(b.asks)
  }

  /** The front order of a side takes one fill of a run as an execution message. */
  lemma FrontConsumed(d: P.Book, s: Side, fill: Qty)
    requires d.Valid() && d.Queue(s) != [] && 0 < fill <= d.Queue(s)[0].qty
    ensures var o := d.Queue(s)[0];
      var after := P.Consume(d, o.id, fill, true).book;
      && after.Queue(s) == (if o.qty == fill then d.Queue(s)[1..] else [o.(qty := o.qty - fill)] + d.Queue(s)[1..])
      && after.Queue(Opposite(s)) == d.Queue(Opposite(s)) && after.range == d.range
  {
    var q := d.Queue(s);
    var o := q[0];
    assert P.HasId(q, o.id);
    assert P.IndexOf(q, o.id) == 0;
    if s == Ask {
      assert forall i :: 0 <= i < |d.bids| ==> d.bids[i].id != o.id;
    }
    assert d.SideOf(o.id) == s;
    assert P.Without(q, 0) == q[1..];
    assert q[0 := o.(qty := o.qty - fill)] == [o.(qty := o.qty - fill)] + q[1..];
  }

  /** What the messages of `execs` must do to the book shown. */
  ghost predicate FollowsRun(a: Aggressor, m: P.Run, d: P.Book, ts: nat, matchNumber: nat, execs: seq<Execution>) {
    var r := P.Match(a, m);
    var ms := ExecMsgs(ts, matchNumber, execs);
    var after := ShownAll(d, ms);
    && r.execs == m.execs + execs && m.qty == r.qty + Filled(execs)
    && after.Queue(Opposite(a.side)) == r.q && after.Queue(a.side) == d.Queue(a.side) && after.range == d.range
    && after.Valid() && after.Uncrossed() && NeverShownCrossed(d, ms)
  }

  ghost predicate Facing(a: Aggressor, m: P.Run, d: P.Book) {
    a.actor == 0 && d.Valid() && d.Uncrossed() && d.Queue(Opposite(a.side)) == m.q
  }

  /** One fill of the run and its message. */
  lemma FillShown(a: Aggressor, m: P.Run, d: P.Book, ts: nat, matchNumber: nat) returns (e: Execution, next: P.Book)
    requires Facing(a, m, d) && !P.Stopped(a, m)
    ensures var n := P.Step(a, m);
      && n.execs == m.execs + [e] && m.qty == n.qty + e.qty && P.Match(a, m) == P.Match(a, n) && n.Below(m)
      && next == Shown(d, EventFor(Msg.OrderExecuted(ts, e.restingId, e.qty, matchNumber + 1)))
      && Facing(a, n, next) && next.Queue(a.side) == d.Queue(a.side) && next.range == d.range
  {
    var o := m.q[0];
    var fill := Min(m.qty, o.qty);
    e := Execution(o.id, a.id, o.price, fill);
    assert o.qty > 0;
    FrontConsumed(d, Opposite(a.side), fill);
    next := P.Consume(d, o.id, fill, true).book;
    L.ConsumeKeeps(d, o.id, fill, true);
    hide P.Consume, P.Book.Valid, P.Book.Uncrossed;
  }

  /** The messages of one more fill and of those that follow it. */
  lemma FollowsOneMore(a: Aggressor, m: P.Run, d: P.Book, ts: nat, matchNumber: nat, e: Execution, next: P.Book,
                       rest: seq<Execution>)
    requires !P.Stopped(a, m)
    requires var n := P.Step(a, m);
      && n.execs == m.execs + [e] && m.qty == n.qty + e.qty && P.Match(a, m) == P.Match(a, n)
      && FollowsRun(a, n, next, ts, matchNumber + 1, rest)
    requires next == Shown(d, EventFor(Msg.OrderExecuted(ts, e.restingId, e.qty, matchNumber + 1)))
    requires next.Uncrossed() && next.Queue(a.side) == d.Queue(a.side) && next.range == d.range
    ensures FollowsRun(a, m, d, ts, matchNumber, [e] + rest)
  {
    hide P.Match, P.Step, Shown, P.Book.Valid, P.Book.Uncrossed, P.Stopped, EventFor, P.Book.Queue;
    var execs := [e] + rest;
    assert execs[1..] == rest && m.execs + [e] + rest == m.execs + execs;
    var ms := ExecMsgs(ts, matchNumber, execs);
    assert ms[0] == Msg.OrderExecuted(ts, e.restingId, e.qty, matchNumber + 1);
    assert ms[1..] == ExecMsgs(ts, matchNumber + 1, rest);
  }

  /** The fills of a run, as messages, do to the book shown what the run did to the side it matched. */
  lemma {:induction false} FillsShown(a: Aggressor, m: P.Run, d: P.Book, ts: nat, matchNumber: nat)
    returns (execs: seq<Execution>)
    requires Facing(a, m, d)
    ensures FollowsRun(a, m, d, ts, matchNumber, execs)
    decreases |m.q|, m.qty
  {
    if P.Stopped(a, m) {
      execs := [];
    } else {
      hide FollowsRun, Facing, P.Step, P.Match, P.Stopped, Shown;
      var e, next := FillShown(a, m, d, ts, matchNumber);
      var rest := FillsShown(a, P.Step(a, m), next, ts, matchNumber + 1);
      execs := [e] + rest;
      assert next.Uncrossed() by {
        assert Facing(a, P.Step(a, m), next);
      }
      FollowsOneMore(a, m, d, ts, matchNumber, e, next, rest);
    }
  }

  // ----- one request

  /** A book shown that holds what the engine's book holds. */
  ghost predicate Mirrors(b: P.Book, d: P.Book) {
    SameOrders(b, d) && d.Valid() && d.range.Unbounded?
  }

  lemma SameMeansSame(b: P.Book, d: P.Book)
    requires SameOrders(b, d)
    ensures forall id :: b.Has(id) <==> d.Has(id)
    ensures forall id :: b.SideOf(id) == d.SideOf(id) && (b.Has(id) ==> b.Find(id) == d.Find(id))
    ensures b.Uncrossed() <==> d.Uncrossed()
    ensures b.Valid() <==> d.Valid()
  {
  }

  lemma {:induction false} MatchPlain(a: Aggressor, m: P.Run)
    requires Plain(m.q)
    ensures Plain(P.Match(a, m).q)
    decreases |m.q|, m.qty
  {
    if !P.Stopped(a, m) {
      MatchPlain(a, P.Step(a, m));
    }
  }

  lemma InsertPlain(s: Side, q: seq<OpenOrder>, o: OpenOrder)
    requires Plain(q) && o.participant == 0 && o.id < ID_WIDTH
    ensures Plain(P.Insert(s, q, o))
  {
    L.InsertMembers(s, q, o);
    var w := P.Insert(s, q, o);
    forall i | 0 <= i < |w|
      ensures w[i].participant == 0 && w[i].id < ID_WIDTH
    {
      assert w[i] in w;
    }
  }

  /** Displaying a price that does not fit 32 bits shows another order. */
  lemma InsertDiffers(s: Side, q: seq<OpenOrder>, o: OpenOrder, p: OpenOrder)
    requires o != p && o.id == p.id && !P.HasId(q, o.id)
    ensures P.Insert(s, q, o) != P.Insert(s, q, p)
  {
    L.InsertMembers(s, q, o);
    L.InsertMembers(s, q, p);
    assert forall i :: 0 <= i < |q| ==> q[i].id != o.id;
    assert o in P.Insert(s, q, o) && o !in P.Insert(s, q, p);
  }

  predicate PriceFits(p: Price) {
    0 <= p < POW_32
  }

  lemma PassiveIs(d: P.Book, id: OrderId, s: Side, price: Price, qty: Qty)
    requires id != 0 && qty > 0 && !d.Has(id) && d.range.Unbounded?
    ensures var after := P.InsertPassive(d, id, s, price, qty).book;
      && after.Queue(s) == P.Insert(s, d.Queue(s), OpenOrder(id, price, qty, 0))
      && after.Queue(Opposite(s)) == d.Queue(Opposite(s)) && after.range == d.range
  {
    hide P.Insert;
  }

  /** The remainder of an order goes on display: the same order on both books when its price fits. */
  lemma RemainderShown(b: P.Book, d: P.Book, id: OrderId, s: Side, price: Price, qty: Qty) returns (after: P.Book)
    requires Mirrors(b, d) && id != 0 && qty > 0 && !b.Has(id)
    ensures after == P.InsertPassive(d, id, s, Price32(price), qty).book
    ensures after.Valid() && after.range.Unbounded?
    ensures SameOrders(P.Rest(b, s, OpenOrder(id, price, qty, 0)), after) <==> PriceFits(price)
  {
    hide P.InsertPassive, P.Insert, P.Book.Valid;
    SameMeansSame(b, d);
    after := P.InsertPassive(d, id, s, Price32(price), qty).book;
    L.PassiveKeeps(d, id, s, Price32(price), qty);
    PassiveIs(d, id, s, Price32(price), qty);
    NotOnSide(b, s, id);
    hide P.Book.Has;
    var o, p := OpenOrder(id, price, qty, 0), OpenOrder(id, Price32(price), qty, 0);
    if o != p {
      InsertDiffers(s, b.Queue(s), o, p);
    }
  }

  lemma NotOnSide(b: P.Book, s: Side, id: OrderId)
    requires !b.Has(id)
    ensures !P.HasId(b.Queue(s), id)
  {
  }

  /** What the request displays, if anything, has a price of 32 bits. */
  predicate FitsOnDisplay(b: P.Book, q: Request) {
    (q.Enter? || q.Replace?) && Displayed(q, P.Apply(b, OpOf(q))) > 0 ==> PriceFits(q.price)
  }

  /** What handling request `q` must do to the books, and what its messages must do to the book shown. */
  ghost predicate Follows(b: P.Book, d: P.Book, q: Request, ms: seq<Msg>) {
    var out := P.Apply(b, OpOf(q));
    && ShownAll(d, ms).Valid() && ShownAll(d, ms).range.Unbounded?
    && (SameOrders(out.book, ShownAll(d, ms)) <==> FitsOnDisplay(b, q))
    && (FitsOnDisplay(b, q) ==> NeverShownCrossed(d, ms))
  }

  /** Matching an order and showing its fills leaves both books with the same orders. */
  lemma MatchShown(b: P.Book, d: P.Book, a: Aggressor, qty: Qty, ts: nat, matchNumber: nat)
    returns (execs: seq<Execution>, mid: P.Book)
    requires a.actor == 0 && b.Valid() && d.Valid() && d.Uncrossed() && d.range.Unbounded?
    requires b.Queue(Opposite(a.side)) == d.Queue(Opposite(a.side))
    ensures var r := P.Match(a, P.Start(b, a, qty)); var ms := ExecMsgs(ts, matchNumber, execs);
      && r.execs == execs && qty == r.qty + Filled(execs)
      && mid == ShownAll(d, ms) && mid.Valid() && mid.Uncrossed() && mid.range.Unbounded? && NeverShownCrossed(d, ms)
      && mid.Queue(Opposite(a.side)) == P.After(b, a, r).Queue(Opposite(a.side))
      && mid.Queue(a.side) == d.Queue(a.side)
  {
    var m := P.Start(b, a, qty);
    assert Facing(a, m, d);
    execs := FillsShown(a, m, d, ts, matchNumber);
    mid := ShownAll(d, ExecMsgs(ts, matchNumber, execs));
    assert [] + execs == execs;
    hide P.Match, ShownAll, NeverShownCrossed, P.Book.Valid, P.Book.Uncrossed;
  }

  /** The add message shows what is left of the order. */
  lemma AddShown(b: P.Book, q: Request, shown: P.Book, mid: P.Book, ts: nat, left: Qty, symbol: Symbol)
    returns (next: P.Book)
    requires q.Enter? && left > 0 && left == Displayed(q, P.Apply(b, OpOf(q))) && q.id != 0 && !mid.Has(q.id)
    requires Mirrors(mid, shown) && P.Apply(b, OpOf(q)).book == P.Rest(mid, q.side, OpenOrder(q.id, q.price, left, 0))
    requires P.Apply(b, OpOf(q)).book.Uncrossed()
    ensures next == Shown(shown, EventFor(Msg.AddOrder(ts, q.id, q.side, left, symbol, q.price)))
    ensures next.Valid() && next.range.Unbounded?
    ensures SameOrders(P.Apply(b, OpOf(q)).book, next) <==> FitsOnDisplay(b, q)
    ensures FitsOnDisplay(b, q) ==> next.Uncrossed()
  {
    hide P.Apply, P.Rest, P.Book.Valid, P.Book.Uncrossed, P.Book.Has, P.InsertPassive;
    next := RemainderShown(mid, shown, q.id, q.side, q.price, left);
    if FitsOnDisplay(b, q) {
      SameMeansSame(P.Apply(b, OpOf(q)).book, next);
    }
  }

  /** What entering an order does to the engine's book once it is accepted, in terms of its parts. */
  lemma EnterIs(b: P.Book, q: Request) returns (a: Aggressor, r: P.Run, mid: P.Book)
    requires q.Enter? && P.Apply(b, OpOf(q)).result == Ok
    ensures q.id != 0 && q.qty > 0 && !b.Has(q.id) && a == Aggressor(q.id, 0, q.side, Some(q.price), b.stp)
    ensures r == P.Match(a, P.Start(b, a, q.qty)) && mid == P.After(b, a, r)
    ensures P.Apply(b, OpOf(q)) ==
              P.Outcome(if r.qty > 0 then P.Rest(mid, a.side, OpenOrder(q.id, q.price, r.qty, 0)) else mid, Ok, r.execs)
  {
    hide P.Match, P.Rest, P.Book.Has;
    a := Aggressor(q.id, 0, q.side, Some(q.price), b.stp);
    r := P.Match(a, P.Start(b, a, q.qty));
    mid := P.After(b, a, r);
  }

  /** An order that has matched, on both books, and its remainder, on both. */
  lemma EnteredShown(b: P.Book, d: P.Book, q: Request, ts: nat, matchNumber: nat, symbol: Symbol)
    requires q.Enter? && EngineBook(b) && Mirrors(b, d) && P.Apply(b, OpOf(q)).result == Ok
    ensures Follows(b, d, q, Emitted(b, q, ts, matchNumber, symbol))
  {
    assert b.Valid() && b.Uncrossed();
    hide P.Apply, P.Match, P.After, P.Start, P.Rest, P.Book.Valid, P.Book.Uncrossed, P.Book.Has, EngineBook;
    hide ShownAll, NeverShownCrossed, ExecMsgs, Follows, FitsOnDisplay;
    var out := P.Apply(b, OpOf(q));
    var a, r, mid := EnterIs(b, q);
    SameMeansSame(b, d);
    var execs, shown := MatchShown(b, d, a, q.qty, ts, matchNumber);
    L.MatchKeeps(b, a, q.qty);
    L.ApplyKeeps(b, OpOf(q));
    assert Mirrors(mid, shown);
    Closing(b, q, out, r.qty);
    if r.qty > 0 {
      var next := AddShown(b, q, shown, mid, ts, r.qty, symbol);
      FollowsThen(b, d, q, ExecMsgs(ts, matchNumber, execs), Msg.AddOrder(ts, q.id, q.side, r.qty, symbol, q.price));
    } else {
      FollowsFills(b, d, q, ExecMsgs(ts, matchNumber, execs));
    }
  }

  /** How much of an accepted order is displayed, and whether that fits. */
  lemma Closing(b: P.Book, q: Request, out: P.Outcome, left: Qty)
    requires (q.Enter? || q.Replace?) && out == P.Apply(b, OpOf(q))
    requires out.result == Ok && q.qty == left + Filled(out.execs)
    ensures Displayed(q, out) == left && (left == 0 ==> FitsOnDisplay(b, q))
  {
    hide P.Apply, Filled;
  }

  /** The fills and nothing else. */
  lemma FollowsFills(b: P.Book, d: P.Book, q: Request, first: seq<Msg>)
    requires FitsOnDisplay(b, q) && NeverShownCrossed(d, first)
    requires var next := ShownAll(d, first);
      next.Valid() && next.range.Unbounded? && SameOrders(P.Apply(b, OpOf(q)).book, next)
    ensures Follows(b, d, q, first + [])
  {
    assert first + [] == first;
    hide P.Apply, ShownAll, NeverShownCrossed;
  }

  lemma EnterShown(b: P.Book, d: P.Book, q: Request, ts: nat, matchNumber: nat, symbol: Symbol)
    requires q.Enter? && EngineBook(b) && Mirrors(b, d)
    ensures Follows(b, d, q, Emitted(b, q, ts, matchNumber, symbol))
  {
    if P.Apply(b, OpOf(q)).result == Ok {
      EnteredShown(b, d, q, ts, matchNumber, symbol);
    } else {
      assert Emitted(b, q, ts, matchNumber, symbol) == [];
      FollowsNone(b, d, q);
    }
  }

  lemma OneShown(d: P.Book, m: Msg)
    ensures ShownAll(d, [m]) == Shown(d, EventFor(m))
    ensures NeverShownCrossed(d, [m]) <==> Shown(d, EventFor(m)).Uncrossed()
    ensures ShownAll(d, []) == d && NeverShownCrossed(d, [])
  {
    assert [m][1..] == [];
  }

  // ----- cancels and reductions

  /** A request that nothing of goes on display, and its only message. */
  lemma FollowsOne(b: P.Book, d: P.Book, q: Request, m: Msg)
    requires q.Cancel? || q.Reduce?
    requires var next := Shown(d, EventFor(m));
      next.Valid() && next.Uncrossed() && next.range.Unbounded? && SameOrders(P.Apply(b, OpOf(q)).book, next)
    ensures Follows(b, d, q, [m])
  {
    hide P.Apply, Shown, P.Book.Valid, P.Book.Uncrossed;
    OneShown(d, m);
  }

  lemma FollowsNone(b: P.Book, d: P.Book, q: Request)
    requires Mirrors(b, d) && P.Apply(b, OpOf(q)).book == b && P.Apply(b, OpOf(q)).result != Ok
    ensures Follows(b, d, q, [])
  {
  }

  lemma CancelsAlike(b: P.Book, d: P.Book, id: OrderId)
    requires SameOrders(b, d) && b.Has(id)
    ensures d.Has(id) && SameOrders(P.CancelOpen(b, id), P.CancelOpen(d, id)) && P.CancelOpen(d, id).range == d.range
  {
  }

  lemma ConsumesAlike(b: P.Book, d: P.Book, id: OrderId, qty: Qty)
    requires SameOrders(b, d) && b.Has(id) && qty > 0 && b.Find(id).qty > 0
    ensures var c := P.Consume(d, id, P.Taken(b, id, qty), false).book;
      P.Taken(b, id, qty) > 0 && SameOrders(P.Consume(b, id, qty, false).book, c) && c.range == d.range
  {
  }

  lemma CancelShown(b: P.Book, d: P.Book, q: Request, ts: nat, matchNumber: nat, symbol: Symbol)
    requires q.Cancel? && EngineBook(b) && Mirrors(b, d)
    ensures Follows(b, d, q, Emitted(b, q, ts, matchNumber, symbol))
  {
    hide Follows, P.CancelOpen, P.Book.Valid, P.Book.Uncrossed, P.Book.Has;
    var ms := Emitted(b, q, ts, matchNumber, symbol);
    SameMeansSame(b, d);
    if b.Has(q.id) {
      L.ApplyKeeps(d, P.CancelId(q.id));
      CancelsAlike(b, d, q.id);
      assert ms == [Msg.OrderDelete(ts, q.id)];
      FollowsOne(b, d, q, ms[0]);
    } else {
      assert ms == [];
      FollowsNone(b, d, q);
    }
  }

  lemma ReduceShown(b: P.Book, d: P.Book, q: Request, ts: nat, matchNumber: nat, symbol: Symbol)
    requires q.Reduce? && EngineBook(b) && Mirrors(b, d)
    ensures Follows(b, d, q, Emitted(b, q, ts, matchNumber, symbol))
  {
    hide Follows, P.Shrink, P.Book.Valid, P.Book.Uncrossed, P.Book.Has, P.Book.Find, P.Book.SideOf;
    var ms := Emitted(b, q, ts, matchNumber, symbol);
    SameMeansSame(b, d);
    if b.Has(q.id) && q.qty > 0 {
      var taken := P.Taken(b, q.id, q.qty);
      OpenQuantity(b, q.id);
      ConsumesAlike(b, d, q.id, q.qty);
      L.ConsumeKeeps(d, q.id, taken, false);
      assert ms == [Msg.OrderCancel(ts, q.id, taken)];
      hide P.Consume, P.Taken;
      FollowsOne(b, d, q, ms[0]);
    } else {
      assert ms == [];
      FollowsNone(b, d, q);
    }
  }

  lemma OpenQuantity(b: P.Book, id: OrderId)
    requires b.Valid() && b.Has(id)
    ensures b.Find(id).qty > 0
  {
  }

  // ----- replaces

  /** The book once `old` has been canceled, and the side that loses it. */
  lemma CanceledIs(b: P.Book, old': OrderId) returns (s: Side, q: seq<OpenOrder>)
    requires b.Valid() && b.Has(old')
    ensures s == b.SideOf(old') && q == P.Without(b.Queue(s), P.IndexOf(b.Queue(s), old'))
    ensures var c := P.CancelOpen(b, old');
      && c.Queue(s) == q && c.Queue(Opposite(s)) == b.Queue(Opposite(s)) && c.range == b.range
      && c.Valid() && !c.Has(old') && (b.Uncrossed() ==> c.Uncrossed()) && c.stp == b.stp
      && forall x :: !b.Has(x) ==> !c.Has(x)
  {
    s := b.SideOf(old');
    q := P.Without(b.Queue(s), P.IndexOf(b.Queue(s), old'));
    L.DropKeeps(b, old');
    L.CancelKeeps(b, old');
    hide P.Book.Valid, P.Book.Uncrossed;
  }

  /** What a replace does to the engine's book once it is accepted, in terms of its parts. */
  lemma ReplaceIs(b: P.Book, q: Request) returns (c: P.Book, a: Aggressor, r: P.Run, mid: P.Book)
    requires q.Replace? && EngineBook(b) && P.Apply(b, OpOf(q)).result == Ok
    ensures b.Has(q.id) && q.newId != 0 && q.qty > 0 && c == P.CancelOpen(b, q.id) && !c.Has(q.newId)
    ensures a == Aggressor(q.newId, 0, b.SideOf(q.id), Some(q.price), b.stp) && r == P.Match(a, P.Start(c, a, q.qty))
    ensures mid == P.After(c, a, r)
    ensures P.Apply(b, OpOf(q)) ==
              P.Outcome(if r.qty > 0 then P.Rest(mid, a.side, OpenOrder(q.newId, q.price, r.qty, 0)) else mid,
                        Ok, r.execs)
  {
    assert b.Find(q.id).participant == 0;
    var s, rest := CanceledIs(b, q.id);
    hide P.Book.Valid, P.Book.Uncrossed, P.Book.Find, P.Book.SideOf, P.CancelOpen, P.Rest, P.Match;
    c := P.CancelOpen(b, q.id);
    a := Aggressor(q.newId, 0, s, Some(q.price), b.stp);
    r := P.Match(a, P.Start(c, a, q.qty));
    mid := P.After(c, a, r);
  }

  lemma ReplaceRejected(b: P.Book, q: Request)
    requires q.Replace? && EngineBook(b) && P.Apply(b, OpOf(q)).result != Ok
    ensures P.Apply(b, OpOf(q)) == P.Outcome(b, P.Apply(b, OpOf(q)).result, [])
  {
    assert b.Valid() && b.range.Unbounded?;
    hide EngineBook, P.Book.Valid, P.Book.Uncrossed, P.Book.Has;
    if b.Has(q.id) && q.newId != 0 && q.qty > 0 && (q.newId == q.id || !b.Has(q.newId)) {
      ReplaceAccepted(b, q);
    } else {
      hide P.AddLimit, P.CancelOpen, P.Book.Find, P.Book.SideOf;
    }
  }

  lemma ReplaceAccepted(b: P.Book, q: Request)
    requires q.Replace? && b.Valid() && b.range.Unbounded? && b.Has(q.id)
    requires q.newId != 0 && q.qty > 0 && (q.newId == q.id || !b.Has(q.newId))
    ensures P.Apply(b, OpOf(q)).result == Ok
  {
    hide P.Book.Valid, P.Book.Uncrossed, P.Book.Has, P.AddLimit, P.CancelOpen, P.Book.Find, P.Book.SideOf;
    var s, rest := CanceledIs(b, q.id);
    EnterAccepted(P.CancelOpen(b, q.id), b.Find(q.id).participant, q.newId, b.SideOf(q.id), q.price, q.qty);
  }

  lemma EnterAccepted(b: P.Book, actor: ParticipantId, id: OrderId, s: Side, price: Price, qty: Qty)
    requires id != 0 && qty > 0 && b.range.Unbounded? && !b.Has(id)
    ensures P.AddLimit(b, actor, id, s, price, qty).result == Ok
  {
    hide P.Match, P.Rest, P.Book.Has;
  }

  /** Both books without the replaced order, after the same fills, hold the same orders. */
  lemma ReplacedAlike(b: P.Book, shown: P.Book, q: Request, c: P.Book, a: Aggressor, mid: P.Book)
    requires b.Valid() && b.Has(q.id) && c == P.CancelOpen(b, q.id) && a.side == b.SideOf(q.id)
    requires shown.Valid() && shown.Uncrossed() && shown.range.Unbounded?
    requires shown.Queue(Opposite(a.side)) == mid.Queue(Opposite(a.side)) && shown.Queue(a.side) == b.Queue(a.side)
    requires mid.Queue(a.side) == c.Queue(a.side)
    ensures shown.Has(q.id) && shown.SideOf(q.id) == a.side
    ensures var e := P.CancelOpen(shown, q.id); Mirrors(mid, e) && e.Uncrossed()
  {
    OtherSide(b, q.id);
    OnSide(shown, a.side, q.id);
    var s, rest := CanceledIs(b, q.id);
    var s', rest' := CanceledIs(shown, q.id);
    hide P.Book.Valid, P.Book.Uncrossed, P.CancelOpen, P.Book.Has, P.Book.SideOf;
  }

  lemma OnSide(b: P.Book, s: Side, id: OrderId)
    requires b.Valid() && P.HasId(b.Queue(s), id)
    ensures b.Has(id) && b.SideOf(id) == s
  {
    if s == Ask {
      var j :| 0 <= j < |b.asks| && b.asks[j].id == id;
      assert forall i :: 0 <= i < |b.bids| ==> b.bids[i].id != id;
    }
  }

  lemma ReplaceShown(b: P.Book, d: P.Book, q: Request, ts: nat, matchNumber: nat, symbol: Symbol)
    requires q.Replace? && EngineBook(b) && Mirrors(b, d)
    ensures Follows(b, d, q, Emitted(b, q, ts, matchNumber, symbol))
  {
    if P.Apply(b, OpOf(q)).result == Ok {
      ReplacedShown(b, d, q, ts, matchNumber, symbol);
    } else {
      ReplaceRejected(b, q);
      hide P.Apply, EngineBook;
      assert Emitted(b, q, ts, matchNumber, symbol) == [];
      FollowsNone(b, d, q);
    }
  }

  /** The fills and then one closing message. */
  lemma FollowsThen(b: P.Book, d: P.Book, q: Request, first: seq<Msg>, m: Msg)
    requires NeverShownCrossed(d, first)
    requires var next := Shown(ShownAll(d, first), EventFor(m));
      && next.Valid() && next.range.Unbounded? && (SameOrders(P.Apply(b, OpOf(q)).book, next) <==> FitsOnDisplay(b, q))
      && (FitsOnDisplay(b, q) ==> next.Uncrossed())
    ensures Follows(b, d, q, first + [m])
  {
    hide P.Apply, Shown, ShownAll, NeverShownCrossed, P.Book.Valid, P.Book.Uncrossed, EventFor;
    ShownConcat(d, first, [m]);
    OneShown(ShownAll(d, first), m);
  }

  /** The replace message shows the new order in the place of the old one. */
  lemma SwapShown(b: P.Book, q: Request, shown: P.Book, mid: P.Book, ts: nat, left: Qty, s: Side) returns (next: P.Book)
    requires q.Replace? && left > 0 && left == Displayed(q, P.Apply(b, OpOf(q))) && q.newId != 0 && !mid.Has(q.newId)
    requires shown.Has(q.id) && shown.SideOf(q.id) == s && Mirrors(mid, P.CancelOpen(shown, q.id))
    requires P.Apply(b, OpOf(q)).book == P.Rest(mid, s, OpenOrder(q.newId, q.price, left, 0))
    requires P.Apply(b, OpOf(q)).book.Uncrossed()
    ensures next == Shown(shown, EventFor(Msg.OrderReplace(ts, q.id, q.newId, left, q.price)))
    ensures next.Valid() && next.range.Unbounded?
    ensures SameOrders(P.Apply(b, OpOf(q)).book, next) <==> FitsOnDisplay(b, q)
    ensures FitsOnDisplay(b, q) ==> next.Uncrossed()
  {
    hide P.Apply, P.CancelOpen, P.Rest, P.Book.Valid, P.Book.Uncrossed, P.Book.Has, P.Book.SideOf, P.InsertPassive;
    next := RemainderShown(mid, P.CancelOpen(shown, q.id), q.newId, s, q.price, left);
    if FitsOnDisplay(b, q) {
      SameMeansSame(P.Apply(b, OpOf(q)).book, next);
    }
  }

  lemma ReplaceMsgs(b: P.Book, q: Request, ts: nat, matchNumber: nat, symbol: Symbol)
    requires q.Replace? && P.Apply(b, OpOf(q)).result == Ok
    ensures var out := P.Apply(b, OpOf(q));
      var left := Displayed(q, out);
      Emitted(b, q, ts, matchNumber, symbol) == ExecMsgs(ts, matchNumber, out.execs) +
        [if left > 0 then Msg.OrderReplace(ts, q.id, q.newId, left, q.price) else Msg.OrderDelete(ts, q.id)]
  {
    hide P.Apply, Displayed, ExecMsgs;
  }

  /** Nothing is left of the new order: the old one leaves the book shown. */
  lemma GoneShown(b: P.Book, q: Request, shown: P.Book, mid: P.Book, ts: nat)
    requires shown.Has(q.id) && Mirrors(mid, P.CancelOpen(shown, q.id)) && P.CancelOpen(shown, q.id).Uncrossed()
    ensures var next := Shown(shown, EventFor(Msg.OrderDelete(ts, q.id)));
      next.Valid() && next.range.Unbounded? && SameOrders(mid, next) && next.Uncrossed()
  {
    hide P.CancelOpen, P.Book.Valid, P.Book.Uncrossed, P.Book.Has;
  }

  /** The fills come first, against the book that still shows the old order; then the replace, or the
      delete of the old order when nothing is left of the new one. */
  lemma ReplacedShown(b: P.Book, d: P.Book, q: Request, ts: nat, matchNumber: nat, symbol: Symbol)
    requires q.Replace? && EngineBook(b) && Mirrors(b, d) && P.Apply(b, OpOf(q)).result == Ok
    ensures Follows(b, d, q, Emitted(b, q, ts, matchNumber, symbol))
  {
    assert b.Valid() && b.Uncrossed();
    hide P.Apply, P.Match, P.After, P.Start, P.CancelOpen, P.Rest;
    hide P.Book.Valid, P.Book.Uncrossed, P.Book.Has, EngineBook;
    hide ShownAll, NeverShownCrossed, P.Book.SideOf, P.Book.Find, ExecMsgs, Follows, FitsOnDisplay, Shown, EventFor;
    var out := P.Apply(b, OpOf(q));
    var c, a, r, mid := ReplaceIs(b, q);
    SameMeansSame(b, d);
    var s, rest := CanceledIs(b, q.id);
    var execs, shown := MatchShown(c, d, a, q.qty, ts, matchNumber);
    L.MatchKeeps(c, a, q.qty);
    L.ApplyKeeps(b, OpOf(q));
    ReplacedAlike(b, shown, q, c, a, mid);
    Closing(b, q, out, r.qty);
    ReplaceMsgs(b, q, ts, matchNumber, symbol);
    hide Emitted;
    if r.qty > 0 {
      var next := SwapShown(b, q, shown, mid, ts, r.qty, a.side);
      FollowsThen(b, d, q, ExecMsgs(ts, matchNumber, execs), Msg.OrderReplace(ts, q.id, q.newId, r.qty, q.price));
    } else {
      GoneShown(b, q, shown, mid, ts);
      FollowsThen(b, d, q, ExecMsgs(ts, matchNumber, execs), Msg.OrderDelete(ts, q.id));
    }
  }

  // ----- every request, and every run of them

  /** The messages of any request follow it. */
  lemma RequestShown(b: P.Book, d: P.Book, q: Request, ts: nat, matchNumber: nat, symbol: Symbol)
    requires EngineBook(b) && Mirrors(b, d) && WireFits(q)
    ensures Follows(b, d, q, Emitted(b, q, ts, matchNumber, symbol)) && EngineBook(P.Apply(b, OpOf(q)).book)
  {
    hide Follows, Emitted, Mirrors;
    EngineBookKept(b, q);
    hide EngineBook;
    match q
    case Enter(_, _, _, _) => EnterShown(b, d, q, ts, matchNumber, symbol);
    case Cancel(_) => CancelShown(b, d, q, ts, matchNumber, symbol);
    case Reduce(_, _) => ReduceShown(b, d, q, ts, matchNumber, symbol);
    case Replace(_, _, _, _) => ReplaceShown(b, d, q, ts, matchNumber, symbol);
  }

  /** Some of the request goes on display: it will be accepted, and the orders it reaches on the other
      side hold less than it asks for. */
  predicate Displays(b: P.Book, q: Request) {
    match q
    case Enter(id, side, price, qty) =>
      && id != 0 && qty > 0 && !b.Has(id)
      && P.Reachable(Aggressor(id, 0, side, Some(price), b.stp), b.Queue(Opposite(side))) < qty
    case Replace(id, newId, price, qty) =>
      && b.Has(id) && newId != 0 && qty > 0 && (newId == id || !b.Has(newId))
      && var side := b.SideOf(id);
         P.Reachable(Aggressor(newId, 0, side, Some(price), b.stp), b.Queue(Opposite(side))) < qty
    case _ => false
  }

  /** What the request puts on display, if anything, has a price of 32 bits. */
  predicate Fits(b: P.Book, q: Request) {
    Displays(b, q) ==> PriceFits(q.price)
  }

  lemma LeftOver(b: P.Book, a: Aggressor, qty: Qty)
    requires a.actor == 0 && b.Valid() && b.Uncrossed() && b.range.Unbounded?
    ensures var r := P.Match(a, P.Start(b, a, qty));
      && qty == r.qty + Filled(r.execs) && (r.qty > 0 <==> P.Reachable(a, b.Queue(Opposite(a.side))) < qty)
  {
    var execs, mid := MatchShown(b, b, a, qty, 0, 0);
    L.MatchFills(a, P.Start(b, a, qty));
    hide P.Match, P.Reachable, Filled;
  }

  lemma EnterDisplays(b: P.Book, q: Request)
    requires EngineBook(b) && q.Enter?
    ensures Displays(b, q) <==> Displayed(q, P.Apply(b, OpOf(q))) > 0
  {
    hide P.Match, P.Reachable, Filled, P.Book.Has, P.Rest;
    if P.Apply(b, OpOf(q)).result == Ok {
      var a, r, mid := EnterIs(b, q);
      LeftOver(b, a, q.qty);
    } else if q.id != 0 && q.qty > 0 && !b.Has(q.id) {
      EnterAccepted(b, 0, q.id, q.side, q.price, q.qty);
    }
  }

  lemma ReplaceDisplays(b: P.Book, q: Request)
    requires EngineBook(b) && q.Replace?
    ensures Displays(b, q) <==> Displayed(q, P.Apply(b, OpOf(q))) > 0
  {
    hide P.Match, P.Reachable, Filled, P.Book.Has, P.Rest, P.CancelOpen, P.Book.Find, P.Book.SideOf, P.AddLimit;
    if P.Apply(b, OpOf(q)).result == Ok {
      var c, a, r, mid := ReplaceIs(b, q);
      var s, rest := CanceledIs(b, q.id);
      NewIdFree(b, q);
      LeftOver(c, a, q.qty);
    } else if b.Has(q.id) && q.newId != 0 && q.qty > 0 && (q.newId == q.id || !b.Has(q.newId)) {
      ReplaceAccepted(b, q);
    }
  }

  lemma NewIdFree(b: P.Book, q: Request)
    requires q.Replace? && P.Apply(b, OpOf(q)).result == Ok
    ensures q.newId == q.id || !b.Has(q.newId)
  {
    hide P.Book.Has, P.AddLimit, P.CancelOpen, P.Book.Find, P.Book.SideOf;
  }

  /** What the book before a request says about what the request will display. */
  lemma FitsIff(b: P.Book, q: Request)
    requires EngineBook(b)
    ensures Fits(b, q) <==> FitsOnDisplay(b, q)
  {
    hide EngineBook, Displays, Displayed, P.Apply;
    match q
    case Enter(_, _, _, _) => EnterDisplays(b, q);
    case Replace(_, _, _, _) => ReplaceDisplays(b, q);
    case _ => NoneDisplayed(b, q);
  }

  lemma NoneDisplayed(b: P.Book, q: Request)
    requires q.Cancel? || q.Reduce?
    ensures !Displays(b, q)
  {
  }

  /** Handling any request keeps an engine's book what it is; its messages do to the book shown what the
      request did to the engine's own exactly when what it will display, if anything, has a 32-bit price;
      and then no book shown on the way is crossed. */
  lemma HandleShown(b: P.Book, d: P.Book, q: Request, ts: nat, matchNumber: nat, symbol: Symbol)
    requires EngineBook(b) && Mirrors(b, d) && WireFits(q)
    ensures var after := P.Apply(b, OpOf(q)).book; var ms := Emitted(b, q, ts, matchNumber, symbol);
      && EngineBook(after) && ShownAll(d, ms).Valid() && ShownAll(d, ms).range.Unbounded?
      && (SameOrders(after, ShownAll(d, ms)) <==> Fits(b, q))
      && (Fits(b, q) ==> NeverShownCrossed(d, ms))
  {
    hide EngineBook, P.Apply, Emitted, NeverShownCrossed, Fits, FitsOnDisplay;
    hide Mirrors, ShownAll, SameOrders, P.Book.Valid;
    RequestShown(b, d, q, ts, matchNumber, symbol);
    FitsIff(b, q);
  }

  lemma WithoutPlain(q: seq<OpenOrder>, k: nat, qty: Qty)
    requires Plain(q) && k < |q|
    ensures Plain(P.Without(q, k)) && Plain(q[k := q[k].(qty := qty)])
  {
  }

  lemma EnteredPlain(b: P.Book, a: Aggressor, qty: Qty, o: OpenOrder)
    requires Plain(b.bids) && Plain(b.asks) && o.participant == 0 && o.id < ID_WIDTH
    ensures var r := P.Match(a, P.Start(b, a, qty));
      var mid := P.After(b, a, r); var rested := P.Rest(mid, a.side, o);
      Plain(mid.bids) && Plain(mid.asks) && Plain(rested.bids) && Plain(rested.asks)
  {
    MatchPlain(a, P.Start(b, a, qty));
    hide P.Match, Plain;
    var mid := P.After(b, a, P.Match(a, P.Start(b, a, qty)));
    InsertPlain(a.side, mid.Queue(a.side), o);
  }

  lemma EngineBookKept(b: P.Book, q: Request)
    requires EngineBook(b) && WireFits(q)
    ensures EngineBook(P.Apply(b, OpOf(q)).book)
  {
    L.ApplyKeeps(b, OpOf(q));
    RangeKept(b, OpOf(q));
    PlainKept(b, q);
    hide P.Apply;
  }

  lemma RangeKept(b: P.Book, op: P.Op)
    ensures P.Apply(b, op).book.range == b.range
  {
    hide P.Match, P.Insert, P.Book.Has, P.Book.Find, P.Book.SideOf, P.Without;
  }

  lemma PlainKept(b: P.Book, q: Request)
    requires EngineBook(b) && WireFits(q)
    ensures var r := P.Apply(b, OpOf(q)).book; Plain(r.bids) && Plain(r.asks)
  {
    match q
    case Enter(id, side, price, qty) =>
      if P.Validate(b, id, price, qty) == Ok {
        var a := Aggressor(id, 0, side, Some(price), b.stp);
        var r := P.Match(a, P.Start(b, a, qty));
        EnteredPlain(b, a, qty, OpenOrder(id, price, r.qty, 0));
        hide Plain, P.Match, P.Rest, P.After;
      }
    case Cancel(id) =>
      if b.Has(id) {
        CanceledPlain(b, id);
      }
    case Reduce(id, qty) =>
      if b.Has(id) && qty > 0 {
        var k := P.IndexOf(b.Queue(b.SideOf(id)), id);
        WithoutPlain(b.Queue(b.SideOf(id)), k, b.Find(id).qty - P.Taken(b, id, qty));
        hide Plain;
      }
    case Replace(id, newId, price, qty) =>
      if P.Apply(b, OpOf(q)).result == Ok {
        var c, a, r, mid := ReplaceIs(b, q);
        CanceledPlain(b, id);
        hide P.Apply, P.CancelOpen;
        EnteredPlain(c, a, qty, OpenOrder(newId, price, r.qty, 0));
      } else {
        ReplaceRejected(b, q);
      }
  }

  lemma CanceledPlain(b: P.Book, id: OrderId)
    requires EngineBook(b) && b.Has(id)
    ensures Plain(P.CancelOpen(b, id).bids) && Plain(P.CancelOpen(b, id).asks)
  {
    var s, rest := CanceledIs(b, id);
    WithoutPlain(b.Queue(s), P.IndexOf(b.Queue(s), id), 0);
    hide Plain, P.CancelOpen;
  }

  /** The engine's book after a run of requests. */
  function Handled(b: P.Book, qs: seq<Request>): P.Book
    decreases |qs|
  {
    if qs == [] then b else Handled(P.Apply(b, OpOf(qs[0])).book, qs[1..])
  }

  /** Everything the engine says about a run; `stamps` are the times it read. */
  function EmittedAll(b: P.Book, qs: seq<Request>, stamps: seq<nat>, matchNumber: nat, symbol: Symbol): seq<Msg>
    requires |stamps| == |qs|
    decreases |qs|
  {
    if qs == [] then []
    else
      var out := P.Apply(b, OpOf(qs[0]));
      Emitted(b, qs[0], stamps[0], matchNumber, symbol)
      + EmittedAll(out.book, qs[1..], stamps[1..], matchNumber + |out.execs|, symbol)
  }

  /** The run's requests have the widths of the wire, and every price it puts on display fits 32 bits. */
  predicate AllFit(b: P.Book, qs: seq<Request>)
    decreases |qs|
  {
    qs == [] || (WireFits(qs[0]) && Fits(b, qs[0]) && AllFit(P.Apply(b, OpOf(qs[0])).book, qs[1..]))
  }

  /** Feed integrity over a run: the book rebuilt from the messages alone is the engine's book, and it was
      uncrossed after every single message. */
  ghost predicate Intact(b: P.Book, d: P.Book, qs: seq<Request>, ms: seq<Msg>) {
    EngineBook(Handled(b, qs)) && Mirrors(Handled(b, qs), ShownAll(d, ms)) && NeverShownCrossed(d, ms)
  }

  lemma IntactFirst(b: P.Book, d: P.Book, qs: seq<Request>, first: seq<Msg>, rest: seq<Msg>)
    requires qs != [] && NeverShownCrossed(d, first)
    requires Intact(P.Apply(b, OpOf(qs[0])).book, ShownAll(d, first), qs[1..], rest)
    ensures Intact(b, d, qs, first + rest)
  {
    hide EngineBook, P.Apply, ShownAll, NeverShownCrossed, Mirrors;
    ShownConcat(d, first, rest);
  }

  lemma {:induction false} RunShown(b: P.Book, d: P.Book, qs: seq<Request>, stamps: seq<nat>, matchNumber: nat,
                                    symbol: Symbol)
    requires EngineBook(b) && Mirrors(b, d) && |stamps| == |qs| && AllFit(b, qs)
    ensures Intact(b, d, qs, EmittedAll(b, qs, stamps, matchNumber, symbol))
    decreases |qs|
  {
    hide EngineBook, P.Apply, Emitted, NeverShownCrossed, Fits, P.Book.Valid, SameOrders;
    if qs == [] {
      OneShown(d, Msg.OrderDelete(0, 0));
    } else {
      hide Intact;
      var out := P.Apply(b, OpOf(qs[0]));
      var first := Emitted(b, qs[0], stamps[0], matchNumber, symbol);
      HandleShown(b, d, qs[0], stamps[0], matchNumber, symbol);
      RunShown(out.book, ShownAll(d, first), qs[1..], stamps[1..], matchNumber + |out.execs|, symbol);
      IntactFirst(b, d, qs, first, EmittedAll(out.book, qs[1..], stamps[1..], matchNumber + |out.execs|, symbol));
    }
  }

  /** Every request has the widths of the wire. */
  predicate AllWire(qs: seq<Request>) {
    forall i :: 0 <= i < |qs| ==> WireFits(qs[i])
  }

  /** The book shown holds the engine's orders after every request of the run. */
  ghost predicate ShownThroughout(b: P.Book, d: P.Book, qs: seq<Request>, stamps: seq<nat>, matchNumber: nat,
                                  symbol: Symbol)
    requires |stamps| == |qs|
    decreases |qs|
  {
    qs == [] ||
    var out := P.Apply(b, OpOf(qs[0]));
    var next := ShownAll(d, Emitted(b, qs[0], stamps[0], matchNumber, symbol));
    SameOrders(out.book, next)
    && ShownThroughout(out.book, next, qs[1..], stamps[1..], matchNumber + |out.execs|, symbol)
  }

  /** Over any run of requests of the wire's widths, the book rebuilt is the engine's after every request if
      and only if every price the run puts on display fits 32 bits. */
  lemma {:induction false} RunShownIff(b: P.Book, d: P.Book, qs: seq<Request>, stamps: seq<nat>, matchNumber: nat,
                                       symbol: Symbol)
    requires EngineBook(b) && Mirrors(b, d) && |stamps| == |qs| && AllWire(qs)
    ensures ShownThroughout(b, d, qs, stamps, matchNumber, symbol) <==> AllFit(b, qs)
    decreases |qs|
  {
    hide EngineBook, P.Apply, Emitted, NeverShownCrossed, Fits, P.Book.Valid, SameOrders, WireFits, ShownAll;
    if qs != [] {
      assert WireFits(qs[0]) && AllWire(qs[1..]);
      HandleShown(b, d, qs[0], stamps[0], matchNumber, symbol);
      if Fits(b, qs[0]) {
        var out := P.Apply(b, OpOf(qs[0]));
        var next := ShownAll(d, Emitted(b, qs[0], stamps[0], matchNumber, symbol));
        hide Mirrors, AllWire;
        RunShownIff(out.book, next, qs[1..], stamps[1..], matchNumber + |out.execs|, symbol);
      }
    }
  }

  /** A request whose own price, if it has one, has 32 bits. */
  predicate PriceIn32(q: Request) {
    q.Enter? || q.Replace? ==> PriceFits(q.price)
  }

  /** Requests of the wire's widths with prices in 32 bits always fit, on any book. */
  lemma {:induction false} WidthsFit(b: P.Book, qs: seq<Request>)
    requires AllWire(qs) && forall i :: 0 <= i < |qs| ==> PriceIn32(qs[i])
    ensures AllFit(b, qs)
    decreases |qs|
  {
    hide P.Apply, WireFits;
    if qs != [] {
      assert WireFits(qs[0]) && PriceIn32(qs[0]);
      DisplayHasPrice(b, qs[0]);
      WidthsFit(P.Apply(b, OpOf(qs[0])).book, qs[1..]);
    }
  }

  lemma DisplayHasPrice(b: P.Book, q: Request)
    requires PriceIn32(q)
    ensures Fits(b, q)
  {
    hide P.Book.Has, P.Reachable;
  }

  /** The one request after which the feed shows another book: its displayed price needs more than 32 bits. */
  lemma WidePriceDiverges(ts: nat, symbol: Symbol)
    ensures var b := P.Empty(Unbounded); var q := Enter(1, Bid, POW_32, 1);
      && EngineBook(b) && Mirrors(b, b)
      && !SameOrders(Handled(b, [q]), ShownAll(b, EmittedAll(b, [q], [ts], 0, symbol)))
  {
    hide P.Apply, ShownAll, Emitted, EmittedAll, Handled, Fits;
    hide NeverShownCrossed, EngineBook, Mirrors, SameOrders, P.Empty;
    var b, q := P.Empty(Unbounded), Enter(1, Bid, POW_32, 1);
    NothingShown();
    OneRequest(b, q, ts, symbol);
    HandleShown(b, b, q, ts, 0, symbol);
  }

  lemma NothingShown()
    ensures var b := P.Empty(Unbounded); EngineBook(b) && Mirrors(b, b) && !Fits(b, Enter(1, Bid, POW_32, 1))
  {
  }

  lemma OneRequest(b: P.Book, q: Request, ts: nat, symbol: Symbol)
    ensures Handled(b, [q]) == P.Apply(b, OpOf(q)).book
    ensures EmittedAll(b, [q], [ts], 0, symbol) == Emitted(b, q, ts, 0, symbol)
  {
    hide P.Apply, Emitted;
    assert [q][1..] == [] && [ts][1..] == [];
    assert Emitted(b, q, ts, 0, symbol) + [] == Emitted(b, q, ts, 0, symbol);
  }

  // ----- the same over the feed's own state, and over bytes

  /** The feed tracks one symbol's book, and nothing else. */
  ghost predicate Shows(f: Feed, symbol: Symbol, d: P.Book) {
    Indexed(f) && f.Tracked(symbol) && f.books.Keys <= {symbol} && f.BookFor(symbol) == d
  }

  lemma OneOwner(f: Feed, symbol: Symbol, d: P.Book)
    requires Shows(f, symbol, d)
    ensures forall id :: id in f.owner <==> d.Has(id)
    ensures forall id :: id in f.owner ==> f.owner[id] == symbol
  {
    BookForHas(f, symbol);
    hide P.Book.Has, P.Book.Valid;
  }

  lemma AddShows(f: Feed, symbol: Symbol, d: P.Book, m: AddFields)
    requires Shows(f, symbol, d) && m.symbol == symbol
    ensures Shows(OnAdd(f, m), symbol, Shown(d, Add(m)))
  {
    hide Indexed, P.InsertPassive, P.Book.Has;
    OneOwner(f, symbol, d);
    AddIndexedIff(f, m);
  }

  lemma ConsumeShows(f: Feed, symbol: Symbol, d: P.Book, id: OrderId, shares: Qty, isExecution: bool)
    requires Shows(f, symbol, d)
    ensures Shows(OnConsumed(f, id, shares, isExecution), symbol, P.Consume(d, id, shares, isExecution).book)
  {
    OneOwner(f, symbol, d);
    ConsumeIndexed(f, id, shares, isExecution);
    ConsumeUnknown(d, id, shares, isExecution);
    hide Indexed, P.Consume, P.Book.Has;
  }

  lemma DeleteShows(f: Feed, symbol: Symbol, d: P.Book, id: OrderId)
    requires Shows(f, symbol, d)
    ensures Shows(OnDelete(f, id), symbol, P.Cancel(d, id).book)
  {
    OneOwner(f, symbol, d);
    DeleteIndexed(f, id);
    hide Indexed, P.CancelOpen, P.Book.Has;
  }

  lemma ReplaceShows(f: Feed, symbol: Symbol, d: P.Book, r: ReplaceFields)
    requires Shows(f, symbol, d)
    ensures Shows(OnReplace(f, r), symbol, Shown(d, Swap(r)))
  {
    hide Indexed, P.CancelOpen, P.InsertPassive, P.Book.Has, P.Book.SideOf, P.Book.Valid;
    OneOwner(f, symbol, d);
    ReplaceIndexedIff(f, r);
  }

  /** One event moves the feed's book as `Shown` says. */
  lemma StepShows(f: Feed, symbol: Symbol, d: P.Book, e: Event)
    requires Shows(f, symbol, d) && (e.Add? ==> e.m.symbol == symbol)
    ensures Shows(Step(f, e), symbol, Shown(d, e))
  {
    hide Shows, OnAdd, OnConsumed, OnDelete, OnReplace, P.Consume, P.Cancel;
    match e
    case Add(m) => AddShows(f, symbol, d, m);
    case Exec(x) => ConsumeShows(f, symbol, d, x.ref, x.shares, true);
    case Reduce(c) => ConsumeShows(f, symbol, d, c.ref, c.shares, false);
    case Remove(x) => DeleteShows(f, symbol, d, x.ref);
    case Swap(r) => ReplaceShows(f, symbol, d, r);
    case Ignored =>
  }

  lemma ConsumeUnknown(d: P.Book, id: OrderId, shares: Qty, isExecution: bool)
    ensures !d.Has(id) ==> P.Consume(d, id, shares, isExecution).book == d
  {
  }

  /** The references and quantities of a message fit their fields. */
  predicate FieldsFit(m: Msg) {
    match m
    case AddOrder(_, ref, _, shares, _, _) => ref < ID_WIDTH && shares < POW_32
    case OrderExecuted(_, ref, shares, _) => ref < ID_WIDTH && shares < POW_32
    case OrderCancel(_, ref, shares) => ref < ID_WIDTH && shares < POW_32
    case OrderDelete(_, ref) => ref < ID_WIDTH
    case OrderReplace(_, ref, newRef, shares, _) => ref < ID_WIDTH && newRef < ID_WIDTH && shares < POW_32
    case _ => false
  }

  /** Decoding the bytes of an emitted message gives the event it stands for. */
  lemma BytesShow(m: Msg)
    requires FieldsFit(m)
    ensures WellSized(Body(m)) && EventOf(Body(m)) == EventFor(m)
  {
    hide Body, DecodeAddOrder, DecodeOrderExecuted, DecodeOrderCancel;
    hide DecodeOrderDelete, DecodeOrderReplace, MessageLength;
    BodyShape(m);
    match m
    case AddOrder(_, _, _, _, _, _) => AddReadsBack(m);
    case OrderExecuted(_, _, _, _) => ExecutedReadsBack(m);
    case OrderCancel(_, _, _) => RemovalReadsBack(m);
    case OrderDelete(_, _) => RemovalReadsBack(m);
    case OrderReplace(_, _, _, _, _) => ReplaceReadsBack(m);
  }

  /** A message that its bytes carry exactly, about the feed's symbol. */
  predicate Sent(m: Msg, symbol: Symbol) {
    FieldsFit(m) && (m.AddOrder? ==> m.symbol == symbol)
  }

  predicate AllSent(ms: seq<Msg>, symbol: Symbol) {
    forall i :: 0 <= i < |ms| ==> Sent(ms[i], symbol)
  }

  predicate WireExecs(execs: seq<Execution>) {
    forall i :: 0 <= i < |execs| ==> execs[i].restingId < ID_WIDTH && execs[i].qty < POW_32
  }

  lemma StepFits(a: Aggressor, m: P.Run)
    requires a.actor == 0 && Plain(m.q) && m.qty < POW_32 && WireExecs(m.execs) && !P.Stopped(a, m)
    ensures var n := P.Step(a, m); Plain(n.q) && n.qty < POW_32 && WireExecs(n.execs)
  {
  }

  /** The fills of a run name plain orders and fit the wire. */
  lemma {:induction false} FillsFit(a: Aggressor, m: P.Run)
    requires a.actor == 0 && Plain(m.q) && m.qty < POW_32 && WireExecs(m.execs)
    ensures WireExecs(P.Match(a, m).execs)
    decreases |m.q|, m.qty
  {
    if !P.Stopped(a, m) {
      StepFits(a, m);
      hide Plain, WireExecs;
      FillsFit(a, P.Step(a, m));
    }
  }

  lemma {:induction false} ExecMsgsSent(ts: nat, matchNumber: nat, execs: seq<Execution>, symbol: Symbol)
    requires WireExecs(execs)
    ensures AllSent(ExecMsgs(ts, matchNumber, execs), symbol)
    decreases |execs|
  {
    if execs != [] {
      ExecMsgsSent(ts, matchNumber + 1, execs[1..], symbol);
    }
  }

  /** What the engine emits for a request of the wire's widths, its bytes carry exactly; and it never
      fills more than was asked for. */
  lemma EmittedSent(b: P.Book, q: Request, ts: nat, matchNumber: nat, symbol: Symbol)
    requires EngineBook(b) && WireFits(q)
    ensures var out := P.Apply(b, OpOf(q));
      && (out.result == Ok && (q.Enter? || q.Replace?) ==> Filled(out.execs) <= q.qty)
      && AllSent(Emitted(b, q, ts, matchNumber, symbol), symbol)
  {
    hide EngineBook, P.Apply, ExecMsgs, Filled, WireExecs;
    var out := P.Apply(b, OpOf(q));
    ExecsFit(b, q);
    ExecMsgsSent(ts, matchNumber, out.execs, symbol);
    ShowMsgsSent(b, q, out, ts, symbol);
    hide Sent, ShowMsgs;
  }

  lemma ShowMsgsSent(b: P.Book, q: Request, out: P.Outcome, ts: nat, symbol: Symbol)
    requires WireFits(q)
    ensures AllSent(ShowMsgs(b, q, out, ts, symbol), symbol)
  {
    hide Filled, P.Book.Has, P.Book.Find;
  }

  lemma ExecsFit(b: P.Book, q: Request)
    requires EngineBook(b) && WireFits(q)
    ensures var out := P.Apply(b, OpOf(q));
      && (out.result == Ok && (q.Enter? || q.Replace?) ==> Filled(out.execs) <= q.qty)
      && WireExecs(out.execs)
  {
    var out := P.Apply(b, OpOf(q));
    if q.Enter? && out.result == Ok {
      var a, r, mid := EnterIs(b, q);
      FillsFit(a, P.Start(b, a, q.qty));
      var execs, shown := MatchShown(b, b, a, q.qty, 0, 0);
      hide P.Apply, P.Match;
    } else if q.Replace? && out.result == Ok {
      var c, a, r, mid := ReplaceIs(b, q);
      var s, rest := CanceledIs(b, q.id);
      CanceledPlain(b, q.id);
      hide P.Apply, P.Match, P.CancelOpen;
      FillsFit(a, P.Start(c, a, q.qty));
      var execs, shown := MatchShown(c, c, a, q.qty, 0, 0);
    } else {
      assert out.execs == [];
    }
  }
}
