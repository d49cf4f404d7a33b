/** What the bytes of each message do to the rebuilt books and the order index, in so many words, through the
    replayer of include/pricetime/itch_replay.hpp. */
module FeedLaws {
  import opened Types
  import opened Itch
  import opened Replay
  import P = Priority
  import C = Calls

  // ----- the event of the bytes

  /** The bytes of every message the writer writes, as an event: each field modulo its width. */
  lemma EventOfBody(m: Msg)
    ensures WellSized(Body(m))
    ensures EventOf(Body(m)) ==
            match m
            case AddOrder(ts, ref, side, shares, symbol, price) =>
              Add(AddFields(ts % TIME_WIDTH, ref % ID_WIDTH, side, shares % POW_32, symbol, price % POW_32))
            case AddOrderMpid(ts, ref, side, shares, symbol, price, _) =>
              Add(AddFields(ts % TIME_WIDTH, ref % ID_WIDTH, side, shares % POW_32, symbol, price % POW_32))
            case OrderExecuted(ts, ref, shares, matchNumber) =>
              Exec(ExecFields(ts % TIME_WIDTH, ref % ID_WIDTH, shares % POW_32, matchNumber % ID_WIDTH, false, true, 0))
            case ExecutedWithPrice(ts, ref, shares, matchNumber, printable, price) =>
              Exec(ExecFields(ts % TIME_WIDTH, ref % ID_WIDTH, shares % POW_32, matchNumber % ID_WIDTH, true, printable,
                              price % POW_32))
            case OrderCancel(ts, ref, shares) =>
              Event.Reduce(CancelFields(ts % TIME_WIDTH, ref % ID_WIDTH, shares % POW_32))
            case OrderDelete(ts, ref) => Remove(DeleteFields(ts % TIME_WIDTH, ref % ID_WIDTH))
            case OrderReplace(ts, ref, newRef, shares, price) =>
              Swap(ReplaceFields(ts % TIME_WIDTH, ref % ID_WIDTH, newRef % ID_WIDTH, shares % POW_32, price % POW_32))
            case SystemEvent(_, _) => Ignored
            case StockDirectory(_, _, _) => Ignored
            case TradeNonCross(_, _, _, _, _, _, _) => Ignored
            case TradingAction(_, _, _) => Ignored
  {
    hide Body, DecodeAddOrder, DecodeOrderExecuted, DecodeOrderCancel;
    hide DecodeOrderDelete, DecodeOrderReplace, MessageLength;
    BodyShape(m);
    match m
    case AddOrder(_, _, _, _, _, _) => AddReadsBack(m);
    case AddOrderMpid(_, _, _, _, _, _, _) => AddReadsBack(m);
    case OrderExecuted(_, _, _, _) => ExecutedReadsBack(m);
    case ExecutedWithPrice(_, _, _, _, _, _) => ExecutedReadsBack(m);
    case OrderCancel(_, _, _) => RemovalReadsBack(m);
    case OrderDelete(_, _) => RemovalReadsBack(m);
    case OrderReplace(_, _, _, _, _) => ReplaceReadsBack(m);
    case _ =>
  }

  /** The message types that carry book state: A, F, E, C, X, D and U. */
  lemma OrderTypes(msg: Bytes)
    requires WellSized(msg)
    ensures EventOf(msg) == Ignored <==> msg[0] !in [65, 70, 69, 67, 88, 68, 85]
  {
  }

  // ----- what a message does

  function BookIn(f: Feed, s: Symbol): P.Book {
    if s in f.books then f.books[s] else P.Empty(f.range)
  }

  /** One book and the index have changed. */
  predicate Became(f: Feed, g: Feed, s: Symbol, b: P.Book, owner: map<OrderId, Symbol>) {
    g == Feed(f.range, f.filter, f.books[s := b], owner)
  }

  /** A new order of a symbol that is followed rests where it is accepted, and is indexed unless its reference
      already is. */
  predicate Added(f: Feed, g: Feed, id: OrderId, side: Side, shares: Qty, s: Symbol, price: Price) {
    if f.filter != {} && s !in f.filter then g == f
    else
      var out := P.Apply(BookIn(f, s), P.Passive(id, side, price, shares));
      Became(f, g, s, out.book, if out.result == Ok && id !in f.owner then f.owner[id := s] else f.owner)
  }

  /** An order that is indexed is executed or reduced in its book, and forgotten once it is not there. */
  ghost predicate Took(f: Feed, g: Feed, id: OrderId, op: P.Op) {
    if id !in f.owner then g == f
    else
      var s := f.owner[id];
      var b := P.Apply(BookIn(f, s), op).book;
      Became(f, g, s, b, if C.Present(b, id) then f.owner else f.owner - {id})
  }

  /** An order that is indexed is canceled in its book and forgotten. */
  predicate Removed(f: Feed, g: Feed, id: OrderId) {
    if id !in f.owner then g == f
    else
      var s := f.owner[id];
      Became(f, g, s, P.Apply(BookIn(f, s), P.CancelId(id)).book, f.owner - {id})
  }

  /** An order that is indexed, and in its book, makes way for one of another reference on the same side. */
  ghost predicate Replaced(f: Feed, g: Feed, id: OrderId, newId: OrderId, shares: Qty, price: Price) {
    if id !in f.owner || !C.Present(BookIn(f, f.owner[id]), id) then g == f
    else
      var s := f.owner[id];
      var b := BookIn(f, s);
      var side := if exists o :: o in b.bids && o.id == id then Bid else Ask;
      var out := P.Apply(P.Apply(b, P.CancelId(id)).book, P.Passive(newId, side, price, shares));
      var owner := f.owner - {id};
      Became(f, g, s, out.book, if out.result == Ok && newId !in owner then owner[newId := s] else owner)
  }

  /** What a message does to books and index; both kinds of add, and both kinds of execution, do the same. */
  ghost predicate Did(f: Feed, m: Msg, g: Feed) {
    match m
    case AddOrder(_, ref, side, shares, symbol, price) =>
      Added(f, g, ref % ID_WIDTH, side, shares % POW_32, symbol, price % POW_32)
    case AddOrderMpid(_, ref, side, shares, symbol, price, _) =>
      Added(f, g, ref % ID_WIDTH, side, shares % POW_32, symbol, price % POW_32)
    case OrderExecuted(_, ref, shares, _) =>
      Took(f, g, ref % ID_WIDTH, P.ExecuteResting(ref % ID_WIDTH, shares % POW_32))
    case ExecutedWithPrice(_, ref, shares, _, _, _) =>
      Took(f, g, ref % ID_WIDTH, P.ExecuteResting(ref % ID_WIDTH, shares % POW_32))
    case OrderCancel(_, ref, shares) => Took(f, g, ref % ID_WIDTH, P.ReduceResting(ref % ID_WIDTH, shares % POW_32))
    case OrderDelete(_, ref) => Removed(f, g, ref % ID_WIDTH)
    case OrderReplace(_, ref, newRef, shares, price) =>
      Replaced(f, g, ref % ID_WIDTH, newRef % ID_WIDTH, shares % POW_32, price % POW_32)
    case _ => g == f
  }

  lemma AddDid(f: Feed, m: AddFields)
    ensures Added(f, OnAdd(f, m), m.ref, m.side, m.shares, m.symbol, m.price)
  {
    hide P.InsertPassive;
  }

  lemma ConsumeDid(f: Feed, id: OrderId, shares: Qty, isExecution: bool)
    ensures Took(f, OnConsumed(f, id, shares, isExecution), id,
                 if isExecution then P.ExecuteResting(id, shares) else P.ReduceResting(id, shares))
  {
    if id in f.owner {
      C.PresentIff(P.Consume(BookIn(f, f.owner[id]), id, shares, isExecution).book, id);
    }
    hide P.Consume, C.Present, P.Book.Has;
  }

  lemma DeleteDid(f: Feed, id: OrderId)
    ensures Removed(f, OnDelete(f, id), id)
  {
    hide P.Cancel;
  }

  lemma ReplaceDid(f: Feed, r: ReplaceFields)
    ensures Replaced(f, OnReplace(f, r), r.ref, r.newRef, r.shares, r.price)
  {
    if r.ref in f.owner {
      var b := BookIn(f, f.owner[r.ref]);
      C.PresentIff(b, r.ref);
      BidIff(b.bids, r.ref);
    }
    hide P.InsertPassive, P.CancelOpen, C.Present, P.Book.Has, P.HasId;
  }

  lemma BidIff(q: seq<OpenOrder>, id: OrderId)
    ensures (exists o :: o in q && o.id == id) <==> P.HasId(q, id)
  {
    if P.HasId(q, id) {
      var i :| 0 <= i < |q| && q[i].id == id;
      assert q[i] in q;
    }
  }

  lemma StepDid(f: Feed, m: Msg)
    ensures WellSized(Body(m)) && Did(f, m, Step(f, EventOf(Body(m))))
  {
    hide Body, EventOf, OnAdd, OnConsumed, OnDelete, OnReplace, Added, Took, Removed, Replaced, WellSized;
    EventOfBody(m);
    match EventOf(Body(m))
    case Add(a) => AddDid(f, a);
    case Exec(x) => ConsumeDid(f, x.ref, x.shares, true);
    case Reduce(c) => ConsumeDid(f, c.ref, c.shares, false);
    case Remove(d) => DeleteDid(f, d.ref);
    case Swap(r) => ReplaceDid(f, r);
    case Ignored =>
  }

  /** The bytes of one message through the replayer, in place. */
  method ApplyBody(replayer: Replayer, m: Msg)
    requires replayer.Valid()
    modifies replayer.books, replayer.books.owner
    ensures replayer.Valid() && Did(old(replayer.State()), m, replayer.State())
  {
    hide Replayer.Valid, Replayer.State, Body, EventOf, Step, Did, WellSized;
    StepDid(replayer.State(), m);
    replayer.Apply(Body(m));
  }

  /** An add of either kind, for a symbol that is followed, under a reference that is not live and at a price its
      book takes, leaves the order resting in that book and indexed under that symbol. */
  lemma AddRests(f: Feed, m: Msg)
    requires Indexed(f) && (m.AddOrder? || m.AddOrderMpid?) && (f.filter == {} || m.symbol in f.filter)
    requires m.ref % ID_WIDTH != 0 && m.ref % ID_WIDTH !in f.owner && m.shares % POW_32 > 0
    requires !C.Outside(BookIn(f, m.symbol).range, m.price % POW_32)
    ensures var g := Step(f, EventOf(Body(m)));
            var b := BookIn(f, m.symbol);
            var id := m.ref % ID_WIDTH;
            && g.owner == f.owner[id := m.symbol] && m.symbol in g.books
            && C.Rested(m.side, C.On(b, m.side), OpenOrder(id, m.price % POW_32, m.shares % POW_32, 0),
                        C.On(g.books[m.symbol], m.side))
  {
    var b, id := BookIn(f, m.symbol), m.ref % ID_WIDTH;
    StepDid(f, m);
    C.PresentIff(b, id);
    C.PassiveRefused(b, id, m.side, m.price % POW_32, m.shares % POW_32);
    C.PassiveIs(b, id, m.side, m.price % POW_32, m.shares % POW_32);
    hide Body, EventOf, Step, P.Apply, C.Rested, C.Present;
  }
}
