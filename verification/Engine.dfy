/** The matching stage of include/pricetime/engine.hpp: one request in, replies and framed market data
    out. */
module Engine {
  import opened Types
  import opened Itch
  import opened Integrity
  import P = Priority
  import B = OrderBook
  import W = ItchWriter
  import C = Calls
  import L = BookLaws
  import F = Waterfall

  datatype ReplyKind = Accepted | Rejected | Executed | Canceled | Reduced

  datatype Reply = Reply(
    kind: ReplyKind, code: Result, qty: Qty, price: Price, id: OrderId, peer: OrderId, clientTs: nat)

  /** The acknowledgement of a request. */
  function Ack(b: P.Book, q: Request, r: Result, clientTs: nat): Reply {
    match q
    case Enter(id, _, price, qty) => Reply(if r == Ok then Accepted else Rejected, r, qty, price, id, 0, clientTs)
    case Cancel(id) => Reply(if r == Ok then Canceled else Rejected, r, 0, 0, id, 0, clientTs)
    case Reduce(id, qty) =>
      Reply(if r == Ok then Reduced else Rejected, r, if r == Ok then P.Taken(b, id, qty) else 0, 0, id, 0, clientTs)
    case Replace(_, newId, price, qty) =>
      Reply(if r == Ok then Accepted else Rejected, r, qty, price, newId, 0, clientTs)
  }

  function BothOwners(e: Execution, clientTs: nat): seq<Reply> {
    [Reply(Executed, Ok, e.qty, e.price, e.aggressorId, e.restingId, clientTs),
     Reply(Executed, Ok, e.qty, e.price, e.restingId, e.aggressorId, clientTs)]
  }

  /** Both owners of every execution are told, the aggressor's first. */
  function FillReplies(execs: seq<Execution>, clientTs: nat): seq<Reply> {
    if execs == [] then [] else BothOwners(execs[0], clientTs) + FillReplies(execs[1..], clientTs)
  }

  function Replies(b: P.Book, q: Request, clientTs: nat): seq<Reply> {
    var out := P.Apply(b, OpOf(q));
    [Ack(b, q, out.result, clientTs)] + FillReplies(out.execs, clientTs)
  }

  // ----- what a request is owed

  /** The request made its own call on the book, as an order of no participant. */
  predicate Asked(b: P.Book, q: Request, out: P.Outcome) {
    match q
    case Enter(id, side, price, qty) => out == P.Apply(b, P.Limit(0, id, side, price, qty))
    case Cancel(id) => out == P.Apply(b, P.CancelId(id))
    case Reduce(id, qty) => out == P.Apply(b, P.ReduceResting(id, qty))
    case Replace(id, newId, price, qty) => out == P.Apply(b, P.ReplaceId(id, newId, price, qty))
  }

  /** First an acknowledgement with the book's result: a rejection exactly when that is not Ok, for the order asked
      for, with its quantity and price, or for a reduction with the shares that left the book. */
  predicate Acknowledges(b: P.Book, q: Request, out: P.Outcome, clientTs: nat, a: Reply) {
    && a.code == out.result && a.peer == 0 && a.clientTs == clientTs
    && (a.kind == Rejected <==> out.result != Ok)
    && (out.result == Ok && (q.Enter? || q.Replace?) ==> a.kind == Accepted)
    && (out.result == Ok && q.Cancel? ==> a.kind == Canceled)
    && (out.result == Ok && q.Reduce? ==> a.kind == Reduced)
    && a.id == (if q.Replace? then q.newId else q.id)
    && a.price == (if q.Enter? || q.Replace? then q.price else 0)
    && (q.Enter? || q.Replace? ==> a.qty == q.qty)
    && (q.Cancel? ==> a.qty == 0)
    && (q.Reduce? ==> a.qty == b.Resting() - out.book.Resting())
  }

  /** Then two replies for every execution, to its aggressor and to its resting order, each naming the other. */
  ghost predicate Answered(b: P.Book, q: Request, out: P.Outcome, clientTs: nat, rs: seq<Reply>) {
    && |rs| == 1 + 2 * |out.execs| && Acknowledges(b, q, out, clientTs, rs[0])
    && forall k :: 0 <= k < |out.execs| ==>
         var e := out.execs[k];
         && rs[1 + 2 * k] == Reply(Executed, Ok, e.qty, e.price, e.aggressorId, e.restingId, clientTs)
         && rs[2 + 2 * k] == Reply(Executed, Ok, e.qty, e.price, e.restingId, e.aggressorId, clientTs)
  }

  lemma {:induction false} FillRepliesAre(execs: seq<Execution>, clientTs: nat)
    ensures var rs := FillReplies(execs, clientTs);
            && |rs| == 2 * |execs|
            && forall k :: 0 <= k < |execs| ==>
                 var e := execs[k];
                 && rs[2 * k] == Reply(Executed, Ok, e.qty, e.price, e.aggressorId, e.restingId, clientTs)
                 && rs[1 + 2 * k] == Reply(Executed, Ok, e.qty, e.price, e.restingId, e.aggressorId, clientTs)
  {
    if execs != [] {
      var rest := FillReplies(execs[1..], clientTs);
      FillRepliesAre(execs[1..], clientTs);
      forall k | 0 <= k < |execs|
        ensures var rs, e := FillReplies(execs, clientTs), execs[k];
                && rs[2 * k] == Reply(Executed, Ok, e.qty, e.price, e.aggressorId, e.restingId, clientTs)
                && rs[1 + 2 * k] == Reply(Executed, Ok, e.qty, e.price, e.restingId, e.aggressorId, clientTs)
      {
        assert k > 0 ==> execs[k] == execs[1..][k - 1];
      }
    }
  }

  lemma AckAnswers(b: P.Book, q: Request, clientTs: nat)
    requires b.Valid()
    ensures var out := P.Apply(b, OpOf(q)); Acknowledges(b, q, out, clientTs, Ack(b, q, out.result, clientTs))
  {
    if q.Reduce? {
      ReduceFalls(b, q.id, q.qty);
    }
    hide P.Apply, P.Book.Resting, P.Taken;
  }

  /** A reduction takes out of the book what it is clamped to. */
  lemma ReduceFalls(b: P.Book, id: OrderId, qty: Qty)
    requires b.Valid()
    ensures var out := P.Apply(b, P.ReduceResting(id, qty));
            && b.Resting() - out.book.Resting() == (if out.result == Ok then P.Taken(b, id, qty) else 0)
            && (out.result == Ok ==> P.Taken(b, id, qty) > 0)
  {
    C.NamedRefused(b, id, qty);
    C.PresentIff(b, id);
    if b.Has(id) && qty > 0 {
      L.ShrinkKeeps(b, id, P.Taken(b, id, qty));
      assert b.Find(id).qty > 0;
    }
    hide P.Book.Has, P.Book.Valid, P.Shrink, P.Book.Find;
  }

  lemma RepliesAnswer(b: P.Book, q: Request, clientTs: nat)
    requires b.Valid()
    ensures Answered(b, q, P.Apply(b, OpOf(q)), clientTs, Replies(b, q, clientTs))
  {
    var out := P.Apply(b, OpOf(q));
    FillRepliesAre(out.execs, clientTs);
    AckAnswers(b, q, clientTs);
    hide P.Apply, Acknowledges, Ack, FillReplies;
  }

  // ----- what a request puts on the feed

  /** What is left of the request goes on display, or what it took away is taken off. `filled` is the shares it
      traded and `fell` those by which the book's resting total fell. */
  predicate PutsOut(q: Request, filled: int, fell: int, ts: nat, symbol: Symbol, shown: seq<Msg>) {
    match q
    case Enter(id, side, price, qty) =>
      shown == if filled < qty then [Msg.AddOrder(ts, id, side, qty - filled, symbol, price)] else []
    case Cancel(id) => shown == [Msg.OrderDelete(ts, id)]
    case Reduce(id, _) => fell > 0 && shown == [Msg.OrderCancel(ts, id, fell)]
    case Replace(id, newId, price, qty) =>
      shown == [if filled < qty then Msg.OrderReplace(ts, id, newId, qty - filled, price) else Msg.OrderDelete(ts, id)]
  }

  /** Every execution is reported against its resting order, under match numbers that go up by one; then comes what
      is displayed, if the request was accepted. All carry the time of the request. */
  ghost predicate Reported(b: P.Book, q: Request, out: P.Outcome, ts: nat, matchNumber: nat, symbol: Symbol,
                           ms: seq<Msg>) {
    && |out.execs| <= |ms|
    && (forall k :: 0 <= k < |out.execs| ==>
          ms[k] == Msg.OrderExecuted(ts, out.execs[k].restingId, out.execs[k].qty, matchNumber + k + 1))
    && (out.result != Ok ==> ms == [])
    && (out.result == Ok ==>
          PutsOut(q, out.book.c.traded - b.c.traded, b.Resting() - out.book.Resting(), ts, symbol, ms[|out.execs|..]))
  }

  lemma {:induction false} ExecMsgsAre(ts: nat, matchNumber: nat, execs: seq<Execution>)
    ensures forall k :: 0 <= k < |execs| ==>
              ExecMsgs(ts, matchNumber, execs)[k]
              == Msg.OrderExecuted(ts, execs[k].restingId, execs[k].qty, matchNumber + k + 1)
    decreases |execs|
  {
    if execs != [] {
      ExecMsgsAre(ts, matchNumber + 1, execs[1..]);
      assert forall k :: 0 < k < |execs| ==> execs[k] == execs[1..][k - 1];
    }
  }

  lemma {:induction false} FilledOfTape(x: F.Incoming, q: seq<OpenOrder>, i: nat)
    requires i <= |q|
    ensures Filled(x.Tape(q, i)) == x.Traded(q, i)
    decreases |q| - i
  {
    hide F.Incoming.Gives;
    if i < |q| {
      FilledOfTape(x, q, i + 1);
      var g, rest := x.Gives(q, i), x.Tape(q, i + 1);
      var e := Execution(q[i].id, x.id, q[i].price, g);
      assert ([e] + rest)[1..] == rest && [] + rest == rest;
    }
  }

  lemma LimitFills(b: P.Book, op: P.Op)
    requires b.Valid() && op.Limit? && P.Apply(b, op).result == Ok
    ensures Filled(P.Apply(b, op).execs) == P.Apply(b, op).book.c.traded - b.c.traded <= op.qty
  {
    hide P.Apply, C.Rested, F.Incoming.Left, F.Incoming.Tape, F.Incoming.Traded, F.Incoming.Dropped, F.Incoming.Fired;
    C.EntryIs(b, op);
    FilledOfTape(C.IncomingOf(b, op), C.Facing(b, op), 0);
  }

  /** The executions of an accepted request add up to what the traded counter rose by. */
  lemma RequestFills(b: P.Book, q: Request)
    requires b.Valid() && P.Apply(b, OpOf(q)).result == Ok && (q.Enter? || q.Replace?)
    ensures var out := P.Apply(b, OpOf(q)); Filled(out.execs) == out.book.c.traded - b.c.traded <= q.qty
  {
    hide P.Apply;
    if q.Enter? {
      LimitFills(b, OpOf(q));
    } else {
      C.ReplaceRefused(b, q.id, q.newId, q.price, q.qty);
      var s, i := Standing(b, q.id);
      C.ReplaceIs(b, s, i, q.newId, q.price, q.qty);
      C.CancelIs(b, s, i);
      L.ApplyKeeps(b, P.CancelId(q.id));
      LimitFills(P.Apply(b, P.CancelId(q.id)).book, P.Limit(C.On(b, s)[i].participant, q.newId, s, q.price, q.qty));
    }
  }

  lemma ShowMsgsAre(b: P.Book, q: Request, ts: nat, symbol: Symbol)
    requires b.Valid() && P.Apply(b, OpOf(q)).result == Ok
    ensures var out := P.Apply(b, OpOf(q));
            PutsOut(q, out.book.c.traded - b.c.traded, b.Resting() - out.book.Resting(), ts, symbol,
                    ShowMsgs(b, q, out, ts, symbol))
  {
    if q.Reduce? {
      ReduceFalls(b, q.id, q.qty);
    } else if !q.Cancel? {
      RequestFills(b, q);
    }
    hide P.Apply, P.Book.Resting, P.Taken, Filled, P.Book.Valid;
  }

  lemma EmittedReports(b: P.Book, q: Request, ts: nat, matchNumber: nat, symbol: Symbol)
    requires b.Valid()
    ensures Reported(b, q, P.Apply(b, OpOf(q)), ts, matchNumber, symbol, Emitted(b, q, ts, matchNumber, symbol))
  {
    var out := P.Apply(b, OpOf(q));
    ExecMsgsAre(ts, matchNumber, out.execs);
    if out.result == Ok {
      ShowMsgsAre(b, q, ts, symbol);
    } else {
      RefusedQuietly(b, q);
    }
    hide P.Apply, PutsOut, ExecMsgs, P.Book.Resting, P.Book.Valid;
    assert ExecMsgs(ts, matchNumber, []) == [] by {
      assert |ExecMsgs(ts, matchNumber, [])| == 0;
    }
  }

  lemma RefusedQuietly(b: P.Book, q: Request)
    requires b.Valid() && P.Apply(b, OpOf(q)).result != Ok
    ensures P.Apply(b, OpOf(q)).execs == []
  {
    hide P.Apply;
    match q
    case Enter(_, _, _, _) => C.EntryRefused(b, OpOf(q));
    case Cancel(id) => C.NamedRefused(b, id, 0);
    case Reduce(id, qty) => C.NamedRefused(b, id, qty);
    case Replace(id, newId, price, qty) => C.ReplaceRefused(b, id, newId, price, qty);
  }

  /** What the model says and puts on the feed for a request is what it is owed. */
  lemma Owed(b: P.Book, q: Request, clientTs: nat, ts: nat, matchNumber: nat, symbol: Symbol)
    requires EngineBook(b)
    ensures var out := P.Apply(b, OpOf(q));
            && Asked(b, q, out) && Answered(b, q, out, clientTs, Replies(b, q, clientTs))
            && Reported(b, q, out, ts, matchNumber, symbol, Emitted(b, q, ts, matchNumber, symbol))
  {
    hide P.Apply, Answered, Reported, Replies, Emitted, P.Book.Valid;
    AskedIs(b, q);
    RepliesAnswer(b, q, clientTs);
    EmittedReports(b, q, ts, matchNumber, symbol);
  }

  lemma AskedIs(b: P.Book, q: Request)
    ensures Asked(b, q, P.Apply(b, OpOf(q)))
  {
    hide P.Apply;
  }

  lemma Standing(b: P.Book, id: OrderId) returns (s: Side, i: nat)
    requires C.Present(b, id)
    ensures i < |C.On(b, s)| && C.On(b, s)[i].id == id
  {
    if o: OpenOrder :| o in b.bids && o.id == id {
      s := Bid;
      i :| 0 <= i < |b.bids| && b.bids[i] == o;
    } else {
      var p: OpenOrder :| p in b.asks && p.id == id;
      s := Ask;
      i :| 0 <= i < |b.asks| && b.asks[i] == p;
    }
  }

  function Frames(ms: seq<Msg>): (f: seq<Bytes>)
    ensures |f| == |ms| && forall i :: 0 <= i < |ms| ==> f[i] == Frame(ms[i])
  {
    if ms == [] then [] else [Frame(ms[0])] + Frames(ms[1..])
  }

  lemma FramesConcat(ms: seq<Msg>, ns: seq<Msg>)
    ensures Frames(ms + ns) == Frames(ms) + Frames(ns)
  {
  }

  /** The acknowledgement and then the fills, behind what was there. */
  lemma RepliesInOrder(replies: seq<Reply>, b: P.Book, q: Request, clientTs: nat)
    ensures var out := P.Apply(b, OpOf(q));
      replies + [Ack(b, q, out.result, clientTs)] + FillReplies(out.execs, clientTs)
      == replies + Replies(b, q, clientTs)
  {
    hide P.Apply, Ack, FillReplies;
  }

  /** The fills and then what is left, behind what was there. */
  lemma EmittedInOrder(queue: seq<Bytes>, b: P.Book, q: Request, ts: nat, matchNumber: nat, symbol: Symbol)
    ensures var out := P.Apply(b, OpOf(q));
      queue + Frames(ExecMsgs(ts, matchNumber, out.execs)) + Frames(ShowMsgs(b, q, out, ts, symbol))
      == queue + Frames(Emitted(b, q, ts, matchNumber, symbol))
  {
    hide P.Apply, Frames, ExecMsgs, ShowMsgs;
    var out := P.Apply(b, OpOf(q));
    FramesConcat(ExecMsgs(ts, matchNumber, out.execs), ShowMsgs(b, q, out, ts, symbol));
  }

  lemma FrameSize(m: Msg)
    ensures 14 <= |Frame(m)| <= 46
  {
    BodyShape(m);
    hide Body, PutBE;
  }

  lemma NothingResting()
    ensures EngineBook(P.Empty(Unbounded))
  {
  }

  class Engine {
    const symbol: Symbol
    const book: B.Book
    const md: W.Writer
    var matchNumber: nat
    var replies: seq<Reply>
    var queue: seq<Bytes>

    ghost predicate Valid()
      reads book, book.ladder.bids, book.ladder.asks, book.ladder.bids.levels, book.ladder.asks.levels
      reads book.pool, book.pool.nodes, book.orders
    {
      book.Valid() && EngineBook(book.View())
    }

    constructor (symbol: Symbol, hash: OrderId -> nat)
      ensures Valid() && book.View() == P.Empty(Unbounded) && this.symbol == symbol
      ensures matchNumber == 0 && replies == [] && queue == []
      ensures fresh({md, book, book.ladder.bids, book.ladder.asks, book.pool, book.orders}) && book.pool.nodes == {}
      ensures book.ladder.bids.levels == [] && book.ladder.asks.levels == []
    {
      hide B.Book.Valid, B.Book.View, EngineBook, P.Empty, B.Book.Grows;
      this.symbol := symbol;
      book := new B.Book(Unbounded, hash);
      md := new W.Writer();
      matchNumber, replies, queue := 0, [], [];
      new;
      NothingResting();
    }

    /** Handles one request, at time `ts` of the engine's clock. */
    method Handle(q: Request, clientTs: nat, ts: nat)
      requires Valid() && WireFits(q)
      modifies `matchNumber, `replies, `queue, md, book`c, book.ladder.bids, book.ladder.asks
      modifies book.ladder.bids.levels, book.ladder.asks.levels, book.pool, book.pool.nodes, book.orders
      ensures Valid() && book.Grows() && book.View() == P.Apply(old(book.View()), OpOf(q)).book
      ensures replies == old(replies) + Replies(old(book.View()), q, clientTs)
      ensures queue == old(queue) + Frames(Emitted(old(book.View()), q, ts, old(matchNumber), symbol))
      ensures matchNumber == old(matchNumber) + |P.Apply(old(book.View()), OpOf(q)).execs|
      ensures var b := old(book.View());
              var out := P.Apply(b, OpOf(q));
              && Asked(b, q, out) && Answered(b, q, out, clientTs, replies[|old(replies)|..])
              && Reported(b, q, out, ts, old(matchNumber), symbol, Emitted(b, q, ts, old(matchNumber), symbol))
    {
      hide B.Book.Valid, B.Book.View, B.Book.Grows, P.Apply, EngineBook, AllSent, Replies, Frames, Emitted;
      hide Asked, Answered, Reported;
      ghost var was := book.View();
      Owed(was, q, clientTs, ts, matchNumber, symbol);
      EmittedSent(was, q, ts, matchNumber, symbol);
      EngineBookKept(was, q);
      var r, execs, removed := Call(q);
      Report(was, q, r, execs, removed, clientTs, ts);
      assert replies[|old(replies)|..] == Replies(was, q, clientTs);
    }

    /** Everything said about the request once the book has dealt with it. */
    method Report(ghost was: P.Book, q: Request, r: Result, execs: seq<Execution>, removed: Qty, clientTs: nat, ts: nat)
      requires r == P.Apply(was, OpOf(q)).result && execs == P.Apply(was, OpOf(q)).execs
      requires r == Ok && (q.Enter? || q.Replace?) ==> Filled(execs) <= q.qty
      requires removed == if q.Reduce? && r == Ok then P.Taken(was, q.id, q.qty) else 0
      modifies `matchNumber, `replies, `queue, md
      ensures matchNumber == old(matchNumber) + |execs|
      ensures replies == old(replies) + Replies(was, q, clientTs)
      ensures queue == old(queue) + Frames(Emitted(was, q, ts, old(matchNumber), symbol))
    {
      hide P.Apply, Frames, ExecMsgs, ShowMsgs, Filled, FillReplies, Ack, P.Taken, BothOwners, OpOf, Emitted, Replies;
      RepliesInOrder(replies, was, q, clientTs);
      EmittedInOrder(queue, was, q, ts, matchNumber, symbol);
      Acknowledge(was, q, r, removed, clientTs);
      var filled := ReportFills(execs, clientTs, ts);
      Show(was, q, r, removed, filled, ts);
    }

    /** The request's call on the book. */
    method Call(q: Request) returns (r: Result, execs: seq<Execution>, removed: Qty)
      requires book.Valid()
      modifies book`c, book.ladder.bids, book.ladder.asks
      modifies book.ladder.bids.levels, book.ladder.asks.levels, book.pool, book.pool.nodes, book.orders
      ensures book.Valid() && book.Grows()
      ensures P.Outcome(book.View(), r, execs) == P.Apply(old(book.View()), OpOf(q))
      ensures removed == if q.Reduce? && r == Ok then P.Taken(old(book.View()), q.id, q.qty) else 0
    {
      hide B.Book.Valid, B.Book.View, B.Book.Grows, P.AddLimit, P.Cancel, P.Consume, P.Replace, P.Taken;
      execs, removed := [], 0;
      match q
      case Enter(id, side, price, qty) => r, execs := book.AddLimitAs(0, id, side, price, qty);
      case Cancel(id) => r := book.Cancel(id);
      case Reduce(id, qty) => r, removed := book.ReduceResting(id, qty);
      case Replace(id, newId, price, qty) => r, execs := book.Replace(id, newId, price, qty);
    }

    method Respond(kind: ReplyKind, code: Result, clientTs: nat, id: OrderId, qty: Qty, price: Price)
      modifies `replies
      ensures replies == old(replies) + [Reply(kind, code, qty, price, id, 0, clientTs)]
    {
      replies := replies + [Reply(kind, code, qty, price, id, 0, clientTs)];
    }

    method Acknowledge(ghost was: P.Book, q: Request, r: Result, removed: Qty, clientTs: nat)
      requires removed == if q.Reduce? && r == Ok then P.Taken(was, q.id, q.qty) else 0
      modifies `replies
      ensures replies == old(replies) + [Ack(was, q, r, clientTs)]
    {
      match q
      case Enter(id, _, price, qty) => Respond(if r == Ok then Accepted else Rejected, r, clientTs, id, qty, price);
      case Cancel(id) => Respond(if r == Ok then Canceled else Rejected, r, clientTs, id, 0, 0);
      case Reduce(id, _) => Respond(if r == Ok then Reduced else Rejected, r, clientTs, id, removed, 0);
      case Replace(_, newId, price, qty) =>
        Respond(if r == Ok then Accepted else Rejected, r, clientTs, newId, qty, price);
    }

    /** Queues what the writer holds. */
    method MdPush(ghost m: Msg)
      requires md.buf == Frame(m)
      modifies `queue
      ensures queue == old(queue) + [Frame(m)]
    {
      FrameSize(m);
      if |md.buf| > 64 {
        return;
      }
      queue := queue + [md.buf];
    }

    method MdExecute(ts: nat, e: Execution)
      modifies `queue, `matchNumber, md
      ensures matchNumber == old(matchNumber) + 1
      ensures queue == old(queue) + [Frame(Msg.OrderExecuted(ts, e.restingId, e.qty, matchNumber))]
    {
      hide Frame;
      md.Clear();
      matchNumber := matchNumber + 1;
      md.OrderExecuted(ts, e.restingId, e.qty, matchNumber);
      MdPush(Msg.OrderExecuted(ts, e.restingId, e.qty, matchNumber));
    }

    method MdDelete(ts: nat, id: OrderId)
      modifies `queue, md
      ensures queue == old(queue) + [Frame(Msg.OrderDelete(ts, id))]
    {
      hide Frame;
      md.Clear();
      md.OrderDelete(ts, id);
      MdPush(Msg.OrderDelete(ts, id));
    }

    method MdCancel(ts: nat, id: OrderId, shares: Qty)
      modifies `queue, md
      ensures queue == old(queue) + [Frame(Msg.OrderCancel(ts, id, shares))]
    {
      hide Frame;
      md.Clear();
      md.OrderCancel(ts, id, shares);
      MdPush(Msg.OrderCancel(ts, id, shares));
    }

    method MdAdd(ts: nat, id: OrderId, side: Side, left: Qty, price: Price)
      modifies `queue, md
      ensures queue == old(queue) + [Frame(Msg.AddOrder(ts, id, side, left, symbol, price))]
    {
      hide Frame;
      md.Clear();
      md.AddOrder(ts, id, side, left, symbol, price);
      MdPush(Msg.AddOrder(ts, id, side, left, symbol, price));
    }

    method MdReplace(ts: nat, id: OrderId, newId: OrderId, left: Qty, price: Price)
      modifies `queue, md
      ensures queue == old(queue) + [Frame(Msg.OrderReplace(ts, id, newId, left, price))]
    {
      hide Frame;
      md.Clear();
      md.OrderReplace(ts, id, newId, left, price);
      MdPush(Msg.OrderReplace(ts, id, newId, left, price));
    }

    /** Reports every execution to both owners and to the feed. */
    method ReportFills(execs: seq<Execution>, clientTs: nat, ts: nat) returns (filled: nat)
      modifies `replies, `queue, `matchNumber, md
      ensures filled == Filled(execs) && matchNumber == old(matchNumber) + |execs|
      ensures replies == old(replies) + FillReplies(execs, clientTs)
      ensures queue == old(queue) + Frames(ExecMsgs(ts, old(matchNumber), execs))
    {
      hide Frame, Frames, ExecMsgs, FillReplies, Filled;
      filled := 0;
      for i := 0 to |execs|
        invariant filled + Filled(execs[i..]) == Filled(execs) && matchNumber == old(matchNumber) + i
        invariant replies + FillReplies(execs[i..], clientTs) == old(replies) + FillReplies(execs, clientTs)
        invariant queue + Frames(ExecMsgs(ts, matchNumber, execs[i..]))
               == old(queue) + Frames(ExecMsgs(ts, old(matchNumber), execs))
      {
        assert execs[i..][0] == execs[i] && execs[i..][1..] == execs[i + 1..];
        FillFirst(execs[i..], ts, matchNumber, clientTs);
        filled := filled + execs[i].qty;
        ReportFill(execs[i], clientTs, ts);
      }
      NoFills(ts, matchNumber, clientTs);
    }

    method ReportFill(e: Execution, clientTs: nat, ts: nat)
      modifies `replies, `queue, `matchNumber, md
      ensures replies == old(replies) + BothOwners(e, clientTs) && matchNumber == old(matchNumber) + 1
      ensures queue == old(queue) + [Frame(Msg.OrderExecuted(ts, e.restingId, e.qty, matchNumber))]
    {
      hide Frame;
      replies := replies + [Reply(Executed, Ok, e.qty, e.price, e.aggressorId, e.restingId, clientTs)];
      replies := replies + [Reply(Executed, Ok, e.qty, e.price, e.restingId, e.aggressorId, clientTs)];
      MdExecute(ts, e);
    }

    /** Puts on the feed what is left of the request: displayed quantity only. */
    method Show(ghost was: P.Book, q: Request, r: Result, removed: Qty, filled: nat, ts: nat)
      requires r == P.Apply(was, OpOf(q)).result && filled == Filled(P.Apply(was, OpOf(q)).execs)
      requires r == Ok && (q.Enter? || q.Replace?) ==> filled <= q.qty
      requires removed == if q.Reduce? && r == Ok then P.Taken(was, q.id, q.qty) else 0
      modifies `queue, md
      ensures queue == old(queue) + Frames(ShowMsgs(was, q, P.Apply(was, OpOf(q)), ts, symbol))
    {
      hide P.Apply, P.Taken, Filled, Frame;
      if r == Ok {
        match q
        case Enter(id, side, price, qty) =>
          if qty - filled > 0 {
            MdAdd(ts, id, side, qty - filled, price);
          }
        case Cancel(id) => MdDelete(ts, id);
        case Reduce(id, _) =>
          if removed > 0 {
            MdCancel(ts, id, removed);
          }
        case Replace(id, newId, price, qty) =>
          if qty - filled > 0 {
            MdReplace(ts, id, newId, qty - filled, price);
          } else {
            MdDelete(ts, id);
          }
      }
    }
  }

  lemma FillFirst(execs: seq<Execution>, ts: nat, matchNumber: nat, clientTs: nat)
    requires execs != []
    ensures Filled(execs) == execs[0].qty + Filled(execs[1..])
    ensures FillReplies(execs, clientTs) == BothOwners(execs[0], clientTs) + FillReplies(execs[1..], clientTs)
    ensures Frames(ExecMsgs(ts, matchNumber, execs))
         == [Frame(Msg.OrderExecuted(ts, execs[0].restingId, execs[0].qty, matchNumber + 1))]
            + Frames(ExecMsgs(ts, matchNumber + 1, execs[1..]))
  {
    hide Frame;
  }

  lemma NoFills(ts: nat, matchNumber: nat, clientTs: nat)
    ensures Filled([]) == 0 && FillReplies([], clientTs) == [] && Frames(ExecMsgs(ts, matchNumber, [])) == []
  {
  }
}
