/** The message loop of tools/mm_sandbox.cpp: a replayed feed, and two simulated quotes waiting in the
    queues of the book it rebuilds. The strategy that names the prices is a parameter. */
module Sandbox {
  import opened Types
  import opened Itch
  import opened QueuePosition
  import Arith
  import P = Priority
  import R = Replay
  import IdMap
  import I = Integrity
  import C = Calls

  datatype Fill = Fill(side: Side, price: Price, qty: Qty)

  /** Prices a strategy wants to quote at a mid price; none on a side it does not want to be on. */
  type Strategy = Price -> (Option<Price>, Option<Price>)

  // ----- the price grid

  /** The remainder of a division that rounds toward zero. */
  function Rem(p: Price, tick: nat): int
    requires tick > 0
  {
    if p >= 0 then p % tick else -((-p) % tick)
  }

  function SnapBid(p: Price, tick: nat): Price
    requires tick > 0
  {
    p - (Rem(p, tick) + tick) % tick
  }

  function SnapAsk(p: Price, tick: nat): Price
    requires tick > 0
  {
    var r := (Rem(p, tick) + tick) % tick;
    if r == 0 then p else p + (tick - r)
  }

  /** Snapping lands on the grid, on the passive side of the price and less than a tick away. */
  lemma SnapsToGrid(p: Price, tick: nat)
    requires tick > 0
    ensures SnapBid(p, tick) % tick == 0 && p - tick < SnapBid(p, tick) <= p
    ensures SnapAsk(p, tick) % tick == 0 && p <= SnapAsk(p, tick) < p + tick
  {
    GridRemainder(p, tick);
    var q, r := p / tick, p % tick;
    assert p == q * tick + r;
    OnGrid(q, tick);
    OnGrid(q + 1, tick);
    assert p - r == q * tick && p + (tick - r) == (q + 1) * tick;
  }

  lemma OnGrid(q: int, tick: nat)
    requires tick > 0
    ensures q * tick % tick == 0 && (q + 1) * tick == q * tick + tick
  {
    Arith.ModIs(q * tick, tick, q, 0);
  }

  lemma GridRemainder(p: Price, tick: nat)
    requires tick > 0
    ensures (Rem(p, tick) + tick) % tick == p % tick
  {
    if p >= 0 {
      Arith.ModIs(p % tick + tick, tick, 1, p % tick);
    } else {
      var q, r := (-p) / tick, (-p) % tick;
      assert -p == q * tick + r;
      if r == 0 {
        Arith.ModIs(p, tick, -q, 0);
        Arith.ModIs(tick, tick, 1, 0);
      } else {
        Arith.ModIs(p, tick, -q - 1, tick - r);
        Arith.ModIs(tick - r, tick, 0, tick - r);
      }
    }
  }

  /** Half of a sum of prices, rounded toward zero. */
  function Half(x: int): Price {
    if x >= 0 then x / 2 else -((-x) / 2)
  }

  // ----- the queue to join

  predicate Past(s: Side, price: Price, p: Price) {
    if s == Bid then price < p else price > p
  }

  /** Walks a side from best to worst up to price `p` and notes what is open of every order there. */
  method OrdersAtLevel(q: seq<OpenOrder>, s: Side, p: Price) returns (out: map<OrderId, Qty>)
    requires P.Sorted(s, q) && P.DistinctIds(q)
    ensures Lists(out, LevelAt(q, p))
  {
    hide Lists, LevelAt, P.HasId;
    out := map[];
    NothingListed(p);
    var i := 0;
    while i < |q| && !Past(s, q[i].price, p)
      invariant i <= |q| && Lists(out, LevelAt(q[..i], p))
    {
      OneMore(q, i, p, out);
      if q[i].price == p && q[i].id !in out {
        out := out[q[i].id := q[i].qty];
      }
      i := i + 1;
    }
    RestPassed(s, q, i, p);
    if i == |q| {
      assert q[..i] == q;
    }
  }

  lemma NothingListed(p: Price)
    ensures Lists(map[], LevelAt([], p))
  {
  }

  lemma OneMore(q: seq<OpenOrder>, i: nat, p: Price, out: map<OrderId, Qty>)
    requires i < |q| && P.DistinctIds(q) && Lists(out, LevelAt(q[..i], p))
    ensures q[i].price == p ==> q[i].id !in out && Lists(out[q[i].id := q[i].qty], LevelAt(q[..i + 1], p))
    ensures q[i].price != p ==> Lists(out, LevelAt(q[..i + 1], p))
  {
    LevelSplit(q[..i], q[i], [], p);
    assert q[..i + 1] == q[..i] + [q[i]] + [];
    var was := LevelAt(q[..i], p);
    LevelMembers(q[..i], p);
    assert LevelAt([], p) == [];
    hide LevelAt;
    if q[i].price == p {
      forall j | 0 <= j < |was|
        ensures was[j].id != q[i].id
      {
        assert was[j] in q[..i];
      }
      ListsOneMore(out, was, q[i]);
      assert was + [q[i]] + [] == was + [q[i]];
    } else {
      assert was + [] + [] == was;
    }
  }

  lemma ListsOneMore(ahead: map<OrderId, Qty>, queue: seq<OpenOrder>, o: OpenOrder)
    requires Lists(ahead, queue) && !P.HasId(queue, o.id)
    ensures o.id !in ahead && Lists(ahead[o.id := o.qty], queue + [o])
  {
    var w := queue + [o];
    assert w[|queue|] == o;
    forall id
      ensures P.HasId(w, id) <==> P.HasId(queue, id) || id == o.id
    {
      if P.HasId(queue, id) {
        var i :| 0 <= i < |queue| && queue[i].id == id;
        assert w[i].id == id;
      }
    }
    hide P.HasId;
  }

  /** Once past the price, the side holds nothing more at it. */
  lemma RestPassed(s: Side, q: seq<OpenOrder>, i: nat, p: Price)
    requires P.Sorted(s, q) && i <= |q| && (i < |q| ==> Past(s, q[i].price, p))
    ensures LevelAt(q[..i], p) == LevelAt(q, p)
  {
    assert q == q[..i] + q[i..];
    LevelConcat(q[..i], q[i..], p);
    forall j | 0 <= j < |q[i..]|
      ensures q[i..][j].price != p
    {
      assert q[i..][j] == q[i + j];
    }
    NoneThere(q[i..], p);
    hide LevelAt;
  }

  // ----- one book out of the feed

  /** An event as the tracked symbol's book sees it. */
  function Own(e: R.Event, symbol: Symbol): R.Event {
    if e.Add? && e.m.symbol != symbol then R.Ignored else e
  }

  lemma OwnStep(f: R.Feed, symbol: Symbol, e: R.Event)
    requires I.Shows(f, symbol, f.BookFor(symbol)) && f.filter == {symbol}
    ensures I.Shows(R.Step(f, e), symbol, R.Step(f, e).BookFor(symbol)) && R.Step(f, e).filter == {symbol}
    ensures R.Step(f, e).BookFor(symbol) == I.Shown(f.BookFor(symbol), Own(e, symbol))
  {
    hide P.InsertPassive, P.Consume, P.Cancel, P.CancelOpen, P.Book.Has, P.Book.Valid, R.Indexed, P.Book.SideOf;
    if !e.Add? || e.m.symbol == symbol {
      I.StepShows(f, symbol, f.BookFor(symbol), e);
    }
  }

  lemma ShownBook(f: R.Feed, symbol: Symbol)
    requires I.Shows(f, symbol, f.BookFor(symbol))
    ensures f.BookFor(symbol).Valid() && forall id :: id in f.owner <==> f.BookFor(symbol).Has(id)
    ensures forall id :: id in f.owner ==> f.owner[id] == symbol && symbol in f.books
  {
    I.OneOwner(f, symbol, f.BookFor(symbol));
    R.BookForHas(f, symbol);
    hide P.Book.Has, P.Book.Valid;
  }

  /** What a quote is after the chance to move it: a fresh order behind everyone at its new price, or what it was. */
  ghost predicate Requoted(was: Quote, now: Quote, s: Side, want: Option<Price>, size: Qty, b: P.Book) {
    if want.Some? && (!was.active || was.price != want.value) then
      && now.active && now.side == s && now.price == want.value && now.remaining == size
      && Lists(now.ahead, LevelAt(b.Queue(s), want.value))
      && now.sharesAhead == P.TotalQty(LevelAt(b.Queue(s), want.value))
    else now == was
  }

  /** Nobody has joined since. */
  function Fresh(n: nat): (since: seq<bool>)
    ensures |since| == n && forall i :: 0 <= i < n ==> !since[i]
  {
    seq(n, i => false)
  }

  ghost function SinceRequote(was: Quote, s: Side, want: Option<Price>, b: P.Book, since: seq<bool>): seq<bool> {
    if want.Some? && (!was.active || was.price != want.value) then Fresh(|LevelAt(b.Queue(s), want.value)|) else since
  }

  lemma RequotedStands(was: Quote, now: Quote, s: Side, want: Option<Price>, size: Qty, b: P.Book, since: seq<bool>)
    requires Stands(was, s, b, since) && Requoted(was, now, s, want, size, b)
    ensures Stands(now, s, b, SinceRequote(was, s, want, b, since))
  {
    hide LevelAt, Lists;
    if want.Some? && (!was.active || was.price != want.value) {
      var lvl := LevelAt(b.Queue(s), want.value);
      BeforeIs(Fresh(|lvl|), |lvl|);
      assert lvl[..|lvl|] == lvl;
    }
  }

  /** The snapped prices to quote, given the book; none while it has no two sides. */
  function Wanted(b: P.Book, strategy: Strategy, tick: nat): (Option<Price>, Option<Price>)
    requires tick > 0
  {
    if b.bids == [] || b.asks == [] then (None, None)
    else
      var (bid, ask) := strategy(Half(b.bids[0].price + b.asks[0].price));
      (if bid.Some? then Some(SnapBid(bid.value, tick)) else None,
       if ask.Some? then Some(SnapAsk(ask.value, tick)) else None)
  }

  /** What becomes of the quotes `qs` through event `e` on book `b`. */
  function Absorbed(qs: Quotes, b: P.Book, e: R.Event, haveMid: bool): Quotes {
    if Peek(b, e).Some? && haveMid then QuotesAfter(qs, Peek(b, e).value) else qs
  }

  /** The fill that event causes, if it reaches a quote. */
  function Printed(qs: Quotes, b: P.Book, e: R.Event, haveMid: bool): seq<Fill> {
    if Peek(b, e).Some? && haveMid then FillsOf(qs, Peek(b, e).value) else []
  }

  function FillsOf(qs: Quotes, ev: OrderEvent): seq<Fill> {
    var n := Min(ev.shares, qs.On(ev.side).remaining);
    if qs.Reached(ev) && n > 0 then [Fill(ev.side, ev.price, n)] else []
  }

  // ----- what may be expected of fills and prices

  /** The event executes order `i` of side `s`, and our quote there is in the market at that order's price with
      nobody ahead. */
  ghost predicate Struck(b: P.Book, e: R.Event, qs: Quotes, haveMid: bool, s: Side, i: nat) {
    && haveMid && e.Exec? && i < |C.On(b, s)| && C.On(b, s)[i].id == e.e.ref
    && var q := if s == Bid then qs.bid else qs.ask;
       q.active && q.ahead == map[] && q.price == C.On(b, s)[i].price
  }

  /** The quote `q` was filled by a print of `shares`: it is smaller by what it took, and gone when that was all. */
  predicate FilledBy(q: Quote, shares: Qty, s: Side, now: Quote, added: seq<Fill>) {
    var n := if shares < q.remaining then shares else q.remaining;
    && now == q.(remaining := q.remaining - n, active := q.remaining > n)
    && added == if n > 0 then [Fill(s, q.price, n)] else []
  }

  predicate Unfilled(q: Quote, now: Quote) {
    now.price == q.price && now.side == q.side && now.remaining == q.remaining && now.active == q.active
  }

  /** There is a fill exactly when a quote is struck: of that quote, at its own price, for the shares of the print or
      all that is left of the quote; otherwise neither quote gets smaller. */
  ghost predicate FillsFair(b: P.Book, e: R.Event, qs: Quotes, haveMid: bool, after: Quotes, added: seq<Fill>) {
    && (forall s: Side, i: nat :: Struck(b, e, qs, haveMid, s, i) ==>
          if s == Bid then FilledBy(qs.bid, e.e.shares, Bid, after.bid, added) && after.ask == qs.ask
          else FilledBy(qs.ask, e.e.shares, Ask, after.ask, added) && after.bid == qs.bid)
    && ((forall s: Side, i: nat :: !Struck(b, e, qs, haveMid, s, i)) ==>
          added == [] && Unfilled(qs.bid, after.bid) && Unfilled(qs.ask, after.ask))
  }

  lemma FillsAreFair(b: P.Book, e: R.Event, qs: Quotes, haveMid: bool)
    requires b.Valid()
    ensures FillsFair(b, e, qs, haveMid, Absorbed(qs, b, e, haveMid), Printed(qs, b, e, haveMid))
  {
    hide P.Book.Valid, P.Book.Has, P.Book.SideOf, P.HasId;
    forall s: Side, i: nat | Struck(b, e, qs, haveMid, s, i)
      ensures e.Exec? && b.Has(e.e.ref) && b.SideOf(e.e.ref) == s && b.Find(e.e.ref) == C.On(b, s)[i]
    {
      C.FoundAt(b, s, i);
    }
    if e.Exec? && b.Has(e.e.ref) {
      var s, i := StandsAt(b, e.e.ref);
      assert haveMid && qs.Reached(Peek(b, e).value) ==> Struck(b, e, qs, haveMid, s, i);
    }
  }

  lemma StandsAt(b: P.Book, id: OrderId) returns (s: Side, i: nat)
    requires b.Valid() && b.Has(id)
    ensures s == b.SideOf(id) && i < |C.On(b, s)| && C.On(b, s)[i].id == id && b.Find(id) == C.On(b, s)[i]
  {
    s := b.SideOf(id);
    i := P.IndexOf(b.Queue(s), id);
  }

  /** What a quote is after its side has been asked for a price: in the market there, left as it was if it was there
      already, and otherwise of full size behind exactly the orders that rest at that price, for what is open of
      each. */
  lemma QuoteFollows(was: Quote, now: Quote, s: Side, want: Option<Price>, size: Qty, b: P.Book)
    requires Requoted(was, now, s, want, size, b) && (was.active ==> was.side == s)
    ensures want.None? ==> now == was
    ensures want.Some? ==> now.active && now.side == s && now.price == want.value
    ensures want.Some? && was.active && was.price == want.value ==> now == was
    ensures want.Some? && !(was.active && was.price == want.value) ==>
              && now.remaining == size
              && (forall o :: o in C.On(b, s) && o.price == want.value ==>
                    o.id in now.ahead && now.ahead[o.id] == o.qty)
              && forall id :: id in now.ahead ==>
                   exists o :: o in C.On(b, s) && o.price == want.value && o.id == id
  {
    if want.Some? && !(was.active && was.price == want.value) {
      var lvl := LevelAt(b.Queue(s), want.value);
      LevelMembers(b.Queue(s), want.value);
      hide LevelAt;
      forall o | o in lvl
        ensures o.id in now.ahead && now.ahead[o.id] == o.qty
      {
        var i :| 0 <= i < |lvl| && lvl[i] == o;
      }
      forall id | id in now.ahead
        ensures exists o :: o in C.On(b, s) && o.price == want.value && o.id == id
      {
        var i :| 0 <= i < |lvl| && lvl[i].id == id;
        assert lvl[i] in lvl;
      }
    }
  }

  /** Half of the sum, rounded toward zero, is between two prices. */
  lemma MidBetween(bid: Price, ask: Price)
    requires bid <= ask
    ensures bid <= Half(bid + ask) <= ask
    ensures bid + ask >= 0 ==> 0 <= bid + ask - 2 * Half(bid + ask) <= 1
    ensures bid + ask <= 0 ==> -1 <= bid + ask - 2 * Half(bid + ask) <= 0
  {
  }

  /** With both sides in the market the strategy is asked at a mid between the best prices, and what it wants is
      snapped to the grid, a bid down and an ask up by less than a tick; with one side missing nothing is wanted. */
  lemma WantedIs(b: P.Book, strategy: Strategy, tick: nat) returns (mid: Price)
    requires tick > 0
    ensures var (bid, ask) := Wanted(b, strategy, tick);
            if b.bids == [] || b.asks == [] then bid == None && ask == None
            else
              var (x, y) := strategy(mid);
              && 2 * mid - b.bids[0].price - b.asks[0].price in [-1, 0, 1]
              && (b.bids[0].price <= b.asks[0].price ==> b.bids[0].price <= mid <= b.asks[0].price)
              && (bid.Some? <==> x.Some?) && (ask.Some? <==> y.Some?)
              && (bid.Some? ==> bid.value % tick == 0 && x.value - tick < bid.value <= x.value)
              && (ask.Some? ==> ask.value % tick == 0 && y.value <= ask.value < y.value + tick)
  {
    mid := 0;
    if b.bids != [] && b.asks != [] {
      mid := Half(b.bids[0].price + b.asks[0].price);
      var (x, y) := strategy(mid);
      if x.Some? {
        SnapsToGrid(x.value, tick);
      }
      if y.Some? {
        SnapsToGrid(y.value, tick);
      }
    }
    hide SnapBid, SnapAsk;
  }

  class Sandbox {
    const replayer: R.Replayer
    const symbol: Symbol
    const tick: nat
    const size: Qty
    const ourBid: Tracker
    const ourAsk: Tracker
    var haveMid: bool
    var lastMid: Price
    var fills: seq<Fill>

    /** For each order of the queues the quotes wait in, whether it joined after the quote did. */
    ghost var bidSince: seq<bool>
    ghost var askSince: seq<bool>

    ghost function Book(): P.Book
      reads replayer, replayer.books, replayer.books.owner
    {
      replayer.State().BookFor(symbol)
    }

    function Both(): Quotes
      reads ourBid, ourAsk
    {
      Quotes(ourBid.Value(), ourAsk.Value())
    }

    ghost predicate Feeding()
      reads replayer, replayer.books, replayer.books.owner
    {
      replayer.Valid() && replayer.filter == {symbol} && I.Shows(replayer.State(), symbol, Book())
    }

    /** Both quotes are in line in the book rebuilt so far. */
    ghost predicate InLines()
      reads this, ourBid, ourAsk, replayer, replayer.books, replayer.books.owner
    {
      && Stands(Both().bid, Bid, Book(), bidSince) && Stands(Both().ask, Ask, Book(), askSince)
      && (ourBid.active || ourAsk.active ==> haveMid)
    }

    ghost predicate Valid()
      reads this, ourBid, ourAsk, replayer, replayer.books, replayer.books.owner
    {
      tick > 0 && ourBid != ourAsk && Feeding() && InLines()
    }

    constructor (symbol: Symbol, tick: nat, size: Qty, hash: OrderId -> nat)
      requires tick > 0
      ensures Valid() && !haveMid && !ourBid.active && !ourAsk.active && fills == []
      ensures Book() == P.Empty(Unbounded)
    {
      this.symbol, this.tick, this.size := symbol, tick, size;
      var books := new R.MultiBook(Unbounded, hash);
      var rep := new R.Replayer(books);
      rep.TrackOnly([symbol]);
      replayer := rep;
      ourBid := new Tracker();
      ourAsk := new Tracker();
      haveMid, lastMid, fills, bidSince, askSince := false, 0, [], [], [];
      new;
      assert replayer.filter == {symbol};
      EmptyFeeds();
    }

    lemma EmptyFeeds()
      requires replayer.Valid() && replayer.filter == {symbol} && replayer.books.range == Unbounded
      requires replayer.books.books == map[] && replayer.books.owner.m == map[]
      ensures Feeding() && Book() == P.Empty(Unbounded)
    {
    }

    method PeekEvent(msg: Bytes) returns (ev: Option<OrderEvent>)
      requires Feeding() && R.WellSized(msg)
      ensures ev == Peek(Book(), R.EventOf(msg))
    {
      hide R.Indexed, P.Book.Has, P.Book.Find, P.Book.SideOf, R.EventOf, I.Shows;
      ShownBook(replayer.State(), symbol);
      match R.EventOf(msg)
      case Exec(x) => ev := Find(x.ref, true, Some(x.shares));
      case Reduce(c) => ev := Find(c.ref, false, Some(c.shares));
      case Remove(d) => ev := Find(d.ref, false, None);
      case Swap(r) => ev := Find(r.ref, false, None);
      case _ => ev := None;
    }

    /** The displayed order `id`, with the shares of the message, or all that is open when it leaves whole. */
    method Find(id: OrderId, isExecution: bool, shares: Option<Qty>) returns (ev: Option<OrderEvent>)
      requires Feeding()
      ensures ev == PeekAt(Book(), id, isExecution,
                           if shares.Some? then shares.value else if Book().Has(id) then Book().Find(id).qty else 0)
    {
      hide R.Indexed, P.Book.Has, P.Book.Find, P.Book.SideOf, I.Shows, IdMap.OpenAddressMap.Valid;
      ShownBook(replayer.State(), symbol);
      var s := replayer.books.BookForOrder(id);
      if s == None {
        return None;
      }
      var book := replayer.books.books[s.value];
      if !book.Has(id) {
        return None;
      }
      var o := book.Find(id);
      ev := Some(OrderEvent(isExecution, id, o.price, book.SideOf(id), if shares.Some? then shares.value else o.qty));
    }

    /** A print at the front fills the quote it reaches; any other event takes its shares out of both queues. */
    method UpdateQuotes(ev: OrderEvent)
      requires ourBid != ourAsk
      modifies ourBid, ourAsk, `fills
      ensures Both() == QuotesAfter(old(Both()), ev)
      ensures fills == old(fills) + FillsOf(old(Both()), ev)
    {
      var q := if ev.side == Bid then ourBid else ourAsk;
      if ev.isExecution && q.active && q.price == ev.price && q.ahead == map[] {
        var fill := q.TakeFill(ev.shares);
        if fill > 0 {
          fills := fills + [Fill(ev.side, ev.price, fill)];
        }
      } else {
        ourBid.OnSharesRemoved(ev.id, ev.shares);
        ourAsk.OnSharesRemoved(ev.id, ev.shares);
      }
    }

    /** Places or moves one quote: moving gives the old place up and joins the back of the new queue. */
    method Requote(t: Tracker, s: Side, want: Option<Price>, b: P.Book)
      requires b.Valid()
      modifies t
      ensures Requoted(old(t.Value()), t.Value(), s, want, size, b)
    {
      if want.Some? && (!t.active || t.price != want.value) {
        SideOrdered(b, s, want.value);
        t.Cancel();
        var joining := OrdersAtLevel(b.Queue(s), s, want.value);
        t.Place(want.value, s, size, joining, LevelAt(b.Queue(s), want.value));
      }
    }

    lemma SideOrdered(b: P.Book, s: Side, p: Price)
      requires b.Valid()
      ensures P.Sorted(s, b.Queue(s)) && P.DistinctIds(b.Queue(s)) && P.DistinctIds(LevelAt(b.Queue(s), p))
    {
      LevelDistinct(b.Queue(s), p);
    }

    /** The replayer takes the message, and the queues move with it. */
    method Absorb(msg: Bytes)
      requires Valid() && R.WellSized(msg)
      modifies replayer.books, replayer.books.owner, ourBid, ourAsk, `fills, `bidSince, `askSince
      ensures Valid() && Book() == I.Shown(old(Book()), Own(R.EventOf(msg), symbol))
      ensures var b := old(Book()); var e := Own(R.EventOf(msg), symbol);
        && Both() == Absorbed(old(Both()), b, e, haveMid) && fills == old(fills) + Printed(old(Both()), b, e, haveMid)
        && bidSince == SinceAfter(b, e, Bid, old(Both()).bid.price, old(bidSince))
        && askSince == SinceAfter(b, e, Ask, old(Both()).ask.price, old(askSince))
    {
      hide R.Indexed, I.Shows, I.Shown, Peek, QuotesAfter, SinceAfter;
      hide Stands, R.Step, FillsOf, R.EventOf, R.Replayer.Valid;
      ghost var b, e, qs := Book(), Own(R.EventOf(msg), symbol), Both();
      ShownBook(replayer.State(), symbol);
      OwnStep(replayer.State(), symbol, R.EventOf(msg));
      OwnPeek(b, R.EventOf(msg));
      StandThrough(b, e, qs);
      var ev := PeekEvent(msg);
      replayer.Apply(msg);
      if ev.Some? && haveMid {
        UpdateQuotes(ev.value);
      }
      bidSince, askSince := SinceAfter(b, e, Bid, qs.bid.price, bidSince),
                            SinceAfter(b, e, Ask, qs.ask.price, askSince);
    }

    lemma OwnPeek(b: P.Book, e: R.Event)
      ensures Peek(b, e) == Peek(b, Own(e, symbol))
    {
    }

    lemma StandThrough(b: P.Book, e: R.Event, qs: Quotes)
      requires b.Valid() && Stands(qs.bid, Bid, b, bidSince) && Stands(qs.ask, Ask, b, askSince)
      requires qs.bid.active || qs.ask.active ==> haveMid
      ensures var after := Absorbed(qs, b, e, haveMid);
        && Stands(after.bid, Bid, I.Shown(b, e), SinceAfter(b, e, Bid, qs.bid.price, bidSince))
        && Stands(after.ask, Ask, I.Shown(b, e), SinceAfter(b, e, Ask, qs.ask.price, askSince))
        && (after.bid.active || after.ask.active ==> haveMid)
    {
      QuotesStand(b, e, qs, Bid, bidSince);
      QuotesStand(b, e, qs, Ask, askSince);
      hide I.Shown, Peek, SinceAfter, InLine;
    }

    /** Moves the quotes to the prices wanted now. */
    method RequoteBoth(b: P.Book, strategy: Strategy)
      requires Valid() && b == Book() && b.Valid()
      modifies this, ourBid, ourAsk
      ensures Valid()
      ensures var wants := Wanted(b, strategy, tick);
        && Requoted(old(Both()).bid, Both().bid, Bid, wants.0, size, b)
        && Requoted(old(Both()).ask, Both().ask, Ask, wants.1, size, b)
        && bidSince == SinceRequote(old(Both()).bid, Bid, wants.0, b, old(bidSince))
        && askSince == SinceRequote(old(Both()).ask, Ask, wants.1, b, old(askSince))
      ensures haveMid == (old(haveMid) || (b.bids != [] && b.asks != [])) && fills == old(fills)
    {
      hide Feeding, Stands, Requoted;
      ghost var was := Both();
      var wantBid, wantAsk := None, None;
      if b.bids != [] && b.asks != [] {
        lastMid := Half(b.bids[0].price + b.asks[0].price);
        haveMid := true;
        var (bid, ask) := strategy(lastMid);
        wantBid := if bid.Some? then Some(SnapBid(bid.value, tick)) else None;
        wantAsk := if ask.Some? then Some(SnapAsk(ask.value, tick)) else None;
      }
      Requote(ourBid, Bid, wantBid, b);
      Requote(ourAsk, Ask, wantAsk, b);
      RequotedStands(was.bid, ourBid.Value(), Bid, wantBid, size, b, bidSince);
      RequotedStands(was.ask, ourAsk.Value(), Ask, wantAsk, size, b, askSince);
      bidSince := SinceRequote(was.bid, Bid, wantBid, b, bidSince);
      askSince := SinceRequote(was.ask, Ask, wantAsk, b, askSince);
    }

    /** One message of the feed: after it, each quote in the market is behind exactly those orders of its
        queue that were there before it, as they are now. */
    method OnMessage(msg: Bytes, strategy: Strategy)
      requires Valid() && R.WellSized(msg)
      modifies this, replayer.books, replayer.books.owner, ourBid, ourAsk
      ensures Valid() && Book() == I.Shown(old(Book()), Own(R.EventOf(msg), symbol))
      ensures var b := old(Book()); var e := Own(R.EventOf(msg), symbol);
        var mid := Absorbed(old(Both()), b, e, old(haveMid)); var wants := Wanted(Book(), strategy, tick);
        && Requoted(mid.bid, Both().bid, Bid, wants.0, size, Book())
        && Requoted(mid.ask, Both().ask, Ask, wants.1, size, Book())
        && bidSince == SinceRequote(mid.bid, Bid, wants.0, Book(),
                                    SinceAfter(b, e, Bid, old(Both()).bid.price, old(bidSince)))
        && fills == old(fills) + Printed(old(Both()), b, e, old(haveMid))
        && haveMid == (old(haveMid) || (Book().bids != [] && Book().asks != []))
        && askSince == SinceRequote(mid.ask, Ask, wants.1, Book(),
                                    SinceAfter(b, e, Ask, old(Both()).ask.price, old(askSince)))
        && FillsFair(b, e, old(Both()), old(haveMid), mid, fills[|old(fills)|..])
    {
      hide R.Indexed, I.Shows, I.Shown, Stands, R.EventOf, R.Replayer.Valid;
      hide Requoted, Absorbed, SinceAfter, SinceRequote, Printed, FillsFair;
      ghost var printed := PrintedFairly(msg);
      Absorb(msg);
      assert fills[|old(fills)|..] == printed;
      ShownBook(replayer.State(), symbol);
      if symbol in replayer.books.books {
        RequoteBoth(replayer.books.books[symbol], strategy);
      } else {
        NotQuoted();
      }
    }

    lemma PrintedFairly(msg: Bytes) returns (printed: seq<Fill>)
      requires Valid() && R.WellSized(msg)
      ensures var e := Own(R.EventOf(msg), symbol);
              && printed == Printed(Both(), Book(), e, haveMid)
              && FillsFair(Book(), e, Both(), haveMid, Absorbed(Both(), Book(), e, haveMid), printed)
    {
      var e := Own(R.EventOf(msg), symbol);
      ShownBook(replayer.State(), symbol);
      FillsAreFair(Book(), e, Both(), haveMid);
      printed := Printed(Both(), Book(), e, haveMid);
    }

    /** Before the symbol's book exists there is nothing to quote. */
    lemma NotQuoted()
      requires symbol !in replayer.books.books
      ensures forall strategy: Strategy | tick > 0 :: Wanted(Book(), strategy, tick) == (None, None)
      ensures Book().bids == []
      ensures forall q: Quote, s, n :: Requoted(q, q, s, None, n, Book())
      ensures forall q: Quote, s, since :: SinceRequote(q, s, None, Book(), since) == since
    {
    }
  }
}
