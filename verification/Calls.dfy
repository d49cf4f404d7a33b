/** What each public call of the book does, in so many words: which calls are refused and how, what an accepted
    one takes and leaves, and where its shares are counted. Nothing here is told through the checks, the
    matching loop or the counters' bookkeeping of the model of the calls themselves. */
module Calls {
  import opened Types
  import opened Waterfall
  import P = Priority
  import L = BookLaws

  // ----- refusals

  ghost predicate Present(b: P.Book, id: OrderId) {
    exists o: OpenOrder :: (o in b.bids || o in b.asks) && o.id == id
  }

  predicate Outside(range: PriceRange, price: Price) {
    range.Within? && (price < range.lo || range.hi < price)
  }

  /** The first thing wrong with a new order: its id, its quantity, its price, and then an id in use. */
  ghost function FirstFault(b: P.Book, id: OrderId, price: Option<Price>, qty: Qty): Result {
    if id == 0 then RejectedBadId
    else if qty == 0 then RejectedBadQty
    else if price.Some? && Outside(b.range, price.value) then RejectedBadPrice
    else if Present(b, id) then RejectedDuplicateId
    else Ok
  }

  lemma PresentIff(b: P.Book, id: OrderId)
    ensures Present(b, id) <==> b.Has(id)
  {
    if b.Has(id) {
      if i: nat :| i < |b.bids| && b.bids[i].id == id {
        assert b.bids[i] in b.bids;
      } else {
        var j: nat :| j < |b.asks| && b.asks[j].id == id;
        assert b.asks[j] in b.asks;
      }
    }
  }

  predicate Enters(op: P.Op) {
    op.Limit? || op.Ioc? || op.Fok? || op.Market?
  }

  function IncomingOf(b: P.Book, op: P.Op): Incoming
    requires Enters(op)
  {
    Incoming(op.actor, op.id, op.side, if op.Market? then None else Some(op.price), op.qty, b.stp)
  }

  function Facing(b: P.Book, op: P.Op): seq<OpenOrder>
    requires Enters(op)
  {
    if op.side == Bid then b.asks else b.bids
  }

  /** The matching loop's run is the waterfall. */
  ghost predicate RunIs(b: P.Book, x: Incoming, q: seq<OpenOrder>, m: P.Run) {
    var traded, killed := x.Traded(q, 0), x.Killed(q);
    && traded <= x.qty && m.q == x.Left(q, 0) && m.execs == x.Tape(q, 0)
    && m.qty == (if killed then 0 else x.qty - traded)
    && m.c == b.c.(added := b.c.added + x.qty,
                   traded := b.c.traded + traded,
                   canceled := b.c.canceled + x.Dropped(q, 0) + if killed then x.qty - traded else 0,
                   prevented := b.c.prevented + x.Fired(q, 0))
  }

  lemma MatchIs(b: P.Book, x: Incoming)
    requires b.Valid() && x.stp == b.stp
    ensures var q := if x.side == Bid then b.asks else b.bids;
            RunIs(b, x, q, P.Match(x.Aggressive(), P.Start(b, x.Aggressive(), x.qty)))
  {
    var q := if x.side == Bid then b.asks else b.bids;
    var start := P.Start(b, x.Aggressive(), x.qty);
    assert q[0..] == q;
    MatchFrom(x, q, start, 0);
    var m := P.Match(x.Aggressive(), start);
    assert m.execs == [] + x.Tape(q, 0);
    hide P.Match, Incoming.Tape, Incoming.Left, Incoming.Traded, Incoming.Dropped, Incoming.Fired, Incoming.Meets;
  }

  ghost predicate RefusedAs(b: P.Book, out: P.Outcome, fault: Result) {
    out.result == fault && (fault != Ok ==> out.book == b && out.execs == [])
  }

  lemma FaultIs(b: P.Book, id: OrderId, price: Price, qty: Qty)
    ensures P.Validate(b, id, price, qty) == FirstFault(b, id, Some(price), qty)
  {
    PresentIff(b, id);
  }

  /** Whether a new order is accepted, and that one refused leaves no trace. */
  lemma EntryRefused(b: P.Book, op: P.Op)
    requires b.Valid() && Enters(op)
    ensures var fault := FirstFault(b, op.id, if op.Market? then None else Some(op.price), op.qty);
            var x := IncomingOf(b, op);
            RefusedAs(b, P.Apply(b, op),
                      if fault == Ok && op.Fok? && x.Traded(Facing(b, op), 0) < op.qty then RejectedNoLiquidity
                      else fault)
  {
    PresentIff(b, op.id);
    if !op.Market? {
      FaultIs(b, op.id, op.price, op.qty);
    }
    if op.Fok? {
      var x := IncomingOf(b, op);
      MatchIs(b, x);
      L.MatchFills(x.Aggressive(), P.Start(b, x.Aggressive(), x.qty));
    }
    hide P.Match, P.Reachable, P.Insert, P.Validate, P.Book.Valid, FirstFault, Incoming.Traded;
  }

  /** A replace is refused for its old id first; the new id may be the old one. */
  lemma ReplaceRefused(b: P.Book, oldId: OrderId, newId: OrderId, price: Price, qty: Qty)
    requires b.Valid()
    ensures RefusedAs(b, P.Apply(b, P.ReplaceId(oldId, newId, price, qty)),
                      if !Present(b, oldId) then RejectedUnknownId
                      else if newId == oldId && newId != 0 && qty != 0 && !Outside(b.range, price) then Ok
                      else FirstFault(b, newId, Some(price), qty))
  {
    PresentIff(b, oldId);
    PresentIff(b, newId);
    if b.Has(oldId) {
      L.DropKeeps(b, oldId);
    }
    hide P.Match, P.Insert, P.Book.Valid, P.Drop, P.Book.Has, P.Book.Find, P.Book.SideOf, Present, P.Kill, P.Rest;
  }

  /** The calls that name an order: what is wrong with them. */
  lemma NamedRefused(b: P.Book, id: OrderId, qty: Qty)
    ensures RefusedAs(b, P.Apply(b, P.CancelId(id)), if Present(b, id) then Ok else RejectedUnknownId)
    ensures var fault := if !Present(b, id) then RejectedUnknownId else if qty == 0 then RejectedBadQty else Ok;
            RefusedAs(b, P.Apply(b, P.ExecuteResting(id, qty)), fault)
            && RefusedAs(b, P.Apply(b, P.ReduceResting(id, qty)), fault)
  {
    PresentIff(b, id);
  }

  // ----- entry

  /** `r` is `q` with `o` behind every order at its price or a better one and before every other. */
  ghost predicate Rested(s: Side, q: seq<OpenOrder>, o: OpenOrder, r: seq<OpenOrder>) {
    exists k: nat :: RestedAt(s, q, o, r, k)
  }

  predicate RestedAt(s: Side, q: seq<OpenOrder>, o: OpenOrder, r: seq<OpenOrder>, k: nat) {
    && k <= |q| && r == q[..k] + [o] + q[k..]
    && (forall i :: 0 <= i < k ==> if s == Bid then q[i].price >= o.price else q[i].price <= o.price)
    && forall i :: k <= i < |q| ==> if s == Bid then q[i].price < o.price else q[i].price > o.price
  }

  lemma InsertRests(s: Side, q: seq<OpenOrder>, o: OpenOrder)
    requires P.Sorted(s, q)
    ensures Rested(s, q, o, P.Insert(s, q, o))
  {
    var k := P.Slot(s, q, o.price);
    assert forall i :: k <= i < |q| ==> i == k || !Better(s, q[i].price, q[k].price);
    assert RestedAt(s, q, o, P.Insert(s, q, o), k);
  }

  /** An accepted entry took what the orders facing it give, left what they keep, and rested, or canceled, what was
      left of itself. */
  ghost predicate Entered(b: P.Book, op: P.Op, out: P.Outcome)
    requires Enters(op)
  {
    var x, q, r := IncomingOf(b, op), Facing(b, op), out.book;
    var own, kept := if op.side == Bid then b.bids else b.asks, if op.side == Bid then r.bids else r.asks;
    var traded, killed := x.Traded(q, 0), x.Killed(q);
    && traded <= op.qty && out.execs == x.Tape(q, 0)
    && (if op.side == Bid then r.asks else r.bids) == x.Left(q, 0)
    && (if op.Limit? && !killed && traded < op.qty
        then Rested(op.side, own, OpenOrder(op.id, op.price, op.qty - traded, op.actor), kept) else kept == own)
    && r.range == b.range && r.stp == b.stp
    && r.c.added == b.c.added + op.qty && r.c.traded == b.c.traded + traded && r.c.executed == b.c.executed
    && r.c.prevented == b.c.prevented + x.Fired(q, 0)
    && r.c.canceled == b.c.canceled + x.Dropped(q, 0) + if op.Limit? && !killed then 0 else op.qty - traded
  }

  lemma LimitIs(b: P.Book, op: P.Op)
    requires b.Valid() && op.Limit? && P.Apply(b, op).result == Ok
    ensures Entered(b, op, P.Apply(b, op))
  {
    hide P.Match, P.Insert, Incoming.Tape, Incoming.Left, Incoming.Traded, Incoming.Dropped, Incoming.Fired;
    hide P.Validate, Rested, Incoming.Killed;
    var x, q := IncomingOf(b, op), Facing(b, op);
    MatchIs(b, x);
    var m := P.Match(x.Aggressive(), P.Start(b, x.Aggressive(), x.qty));
    var own := if op.side == Bid then b.bids else b.asks;
    InsertRests(op.side, own, OpenOrder(op.id, op.price, m.qty, op.actor));
    hide P.Book.Valid;
  }

  lemma ImmediateIs(b: P.Book, op: P.Op)
    requires b.Valid() && (op.Ioc? || op.Fok? || op.Market?)
    ensures Entered(b, op, P.Immediate(b, IncomingOf(b, op).Aggressive(), op.qty))
  {
    hide P.Match, P.Insert, Incoming.Tape, Incoming.Left, Incoming.Traded, Incoming.Dropped, Incoming.Fired;
    hide P.Book.Valid, Incoming.Killed;
    MatchIs(b, IncomingOf(b, op));
  }

  lemma EntryIs(b: P.Book, op: P.Op)
    requires b.Valid() && Enters(op) && P.Apply(b, op).result == Ok
    ensures Entered(b, op, P.Apply(b, op))
  {
    if op.Limit? {
      LimitIs(b, op);
    } else {
      ImmediateIs(b, op);
      hide P.Immediate, Entered, P.Validate, P.Reachable;
    }
  }

  // ----- orders named by their id

  function Swapped(b: P.Book, s: Side, q: seq<OpenOrder>): P.Book {
    if s == Bid then P.Book(b.range, b.stp, q, b.asks, b.c) else P.Book(b.range, b.stp, b.bids, q, b.c)
  }

  function On(b: P.Book, s: Side): seq<OpenOrder> {
    if s == Bid then b.bids else b.asks
  }

  /** An order of a valid book is where its id is found. */
  lemma FoundAt(b: P.Book, s: Side, i: nat)
    requires b.Valid() && i < |On(b, s)|
    ensures var id := On(b, s)[i].id; b.Has(id) && b.SideOf(id) == s && P.IndexOf(On(b, s), id) == i
  {
    var id := On(b, s)[i].id;
    assert P.HasId(On(b, s), id);
    assert s == Ask ==> !P.HasId(b.bids, id);
  }

  /** Canceling takes the order out and counts its shares as canceled. */
  lemma CancelIs(b: P.Book, s: Side, i: nat)
    requires b.Valid() && i < |On(b, s)|
    ensures var q := On(b, s);
            P.Apply(b, P.CancelId(q[i].id)) ==
            P.Outcome(Swapped(b, s, q[..i] + q[i + 1..]).(c := b.c.(canceled := b.c.canceled + q[i].qty)), Ok, [])
  {
    FoundAt(b, s, i);
    hide P.Book.Valid, P.Book.Has, P.Book.SideOf;
  }

  /** A feed event takes what it says, or all there is: the order shrinks in its place, or leaves; an execution
      counts as executed and a reduction as canceled, and nothing else is counted. */
  lemma ConsumeIs(b: P.Book, s: Side, i: nat, qty: Qty)
    requires b.Valid() && i < |On(b, s)| && qty > 0
    ensures var q := On(b, s);
            var left := if qty < q[i].qty then q[i := q[i].(qty := q[i].qty - qty)] else q[..i] + q[i + 1..];
            var gone := if qty < q[i].qty then qty else q[i].qty;
            && P.Apply(b, P.ExecuteResting(q[i].id, qty)) ==
               P.Outcome(Swapped(b, s, left).(c := b.c.(executed := b.c.executed + gone)), Ok, [])
            && P.Apply(b, P.ReduceResting(q[i].id, qty)) ==
               P.Outcome(Swapped(b, s, left).(c := b.c.(canceled := b.c.canceled + gone)), Ok, [])
  {
    FoundAt(b, s, i);
    hide P.Book.Valid, P.Book.Has, P.Book.SideOf;
  }

  lemma CallsMade(b: P.Book, id: OrderId, left: P.Book, actor: ParticipantId, newId: OrderId, s: Side, price: Price,
                  qty: Qty)
    ensures P.Apply(b, P.CancelId(id)) == P.Cancel(b, id)
    ensures P.Apply(left, P.Limit(actor, newId, s, price, qty)) == P.AddLimit(left, actor, newId, s, price, qty)
  {
    hide P.Cancel, P.AddLimit;
  }

  /** An accepted replace is a cancel and then a limit order of the same participant on the same side. */
  lemma ReplaceIs(b: P.Book, s: Side, i: nat, newId: OrderId, price: Price, qty: Qty)
    requires b.Valid() && i < |On(b, s)|
    requires P.Apply(b, P.ReplaceId(On(b, s)[i].id, newId, price, qty)).result == Ok
    ensures var o := On(b, s)[i];
            P.Apply(b, P.ReplaceId(o.id, newId, price, qty)) ==
            P.Apply(P.Apply(b, P.CancelId(o.id)).book, P.Limit(o.participant, newId, s, price, qty))
  {
    hide P.Book.Valid, P.Book.Has, P.Book.SideOf, P.AddLimit, P.CancelOpen, P.IndexOf;
    FoundAt(b, s, i);
    var o := On(b, s)[i];
    assert P.Apply(b, P.ReplaceId(o.id, newId, price, qty)) == P.Replace(b, o.id, newId, price, qty);
    hide P.Apply;
    assert P.Cancel(b, o.id).book == P.CancelOpen(b, o.id);
    CallsMade(b, o.id, P.CancelOpen(b, o.id), o.participant, newId, s, price, qty);
  }

  /** An accepted passive order rests for no participant, and nothing else happens but that it counts as added. */
  lemma PassiveIs(b: P.Book, id: OrderId, s: Side, price: Price, qty: Qty)
    requires b.Valid() && P.Apply(b, P.Passive(id, s, price, qty)).result == Ok
    ensures var out := P.Apply(b, P.Passive(id, s, price, qty));
            && Rested(s, On(b, s), OpenOrder(id, price, qty, 0), On(out.book, s)) && out.execs == []
            && out.book == Swapped(b, s, On(out.book, s)).(c := b.c.(added := b.c.added + qty))
  {
    InsertRests(s, On(b, s), OpenOrder(id, price, qty, 0));
    hide P.Insert, Rested, P.Validate;
  }

  lemma PassiveRefused(b: P.Book, id: OrderId, s: Side, price: Price, qty: Qty)
    ensures RefusedAs(b, P.Apply(b, P.Passive(id, s, price, qty)), FirstFault(b, id, Some(price), qty))
  {
    FaultIs(b, id, price, qty);
    hide P.Validate, FirstFault;
  }

  lemma PolicyIs(b: P.Book, p: SelfTradePolicy)
    ensures P.Apply(b, P.SetPolicy(p)) == P.Outcome(P.Book(b.range, p, b.bids, b.asks, b.c), Ok, [])
  {
  }

  // ----- executions and self-trade prevention

  /** The execution is with an order of `q`, at its price and for no more than it holds, within the limit of the
      incoming order, and never with its own participant while prevention is on. */
  ghost predicate Fair(b: P.Book, op: P.Op, q: seq<OpenOrder>, e: Execution)
    requires Enters(op)
  {
    exists j :: 0 <= j < |q| && FairAt(b, op, q[j], e)
  }

  predicate FairAt(b: P.Book, op: P.Op, o: OpenOrder, e: Execution)
    requires Enters(op)
  {
    && e.aggressorId == op.id && e.restingId == o.id && e.price == o.price && 0 < e.qty <= o.qty
    && (!op.Market? ==> if op.side == Bid then o.price <= op.price else o.price >= op.price)
    && (op.actor != 0 && b.stp != NoPrevention ==> o.participant != op.actor)
  }

  lemma {:induction false} TapeIsFair(b: P.Book, op: P.Op, q: seq<OpenOrder>, i: nat)
    requires Enters(op) && i <= |q|
    ensures forall e :: e in IncomingOf(b, op).Tape(q, i) ==> Fair(b, op, q, e)
    decreases |q| - i
  {
    var x := IncomingOf(b, op);
    if i < |q| {
      TapeIsFair(b, op, q, i + 1);
      if x.Gives(q, i) > 0 {
        assert x.Crosses(q[i]);
        assert FairAt(b, op, q[i], Execution(q[i].id, x.id, q[i].price, x.Gives(q, i)));
      }
    }
  }

  /** Every execution an entry reports is fair. */
  lemma ExecutionsAreFair(b: P.Book, op: P.Op)
    requires b.Valid() && Enters(op)
    ensures forall e :: e in P.Apply(b, op).execs ==> Fair(b, op, Facing(b, op), e)
  {
    hide Fair, Incoming.Tape, P.Apply;
    if P.Apply(b, op).result == Ok {
      EntryIs(b, op);
      TapeIsFair(b, op, Facing(b, op), 0);
    } else {
      EntryRefused(b, op);
    }
  }

  /** Nothing in the orders `q` is the actor's own, as far as prevention cares. */
  predicate NoneOwn(b: P.Book, actor: ParticipantId, q: seq<OpenOrder>) {
    actor == 0 || b.stp == NoPrevention || forall j :: 0 <= j < |q| ==> q[j].participant != actor
  }

  lemma {:induction false} AheadIsTotal(x: Incoming, q: seq<OpenOrder>, i: nat)
    requires i <= |q| && forall j :: 0 <= j < i ==> !x.Same(q[j])
    ensures x.Ahead(q, i) == P.TotalQty(q[..i])
  {
    if i > 0 {
      AheadIsTotal(x, q, i - 1);
      assert q[..i] == q[..i - 1] + [q[i - 1]] + [];
      L.TotalOfSplit(q[..i - 1], q[i - 1], []);
      assert q[..i - 1] + [] == q[..i - 1];
    }
  }

  lemma {:induction false} NoneDropped(x: Incoming, q: seq<OpenOrder>, i: nat)
    requires i <= |q| && forall j :: i <= j < |q| ==> !x.Same(q[j])
    ensures x.Dropped(q, i) == x.Fired(q, i) == 0
    decreases |q| - i
  {
    hide Incoming.Meets, Incoming.Same;
    if i < |q| {
      NoneDropped(x, q, i + 1);
    }
  }

  /** When the actor has nothing opposite, prevention does not fire, and nothing is canceled but what an immediate
      order could not trade. */
  lemma PreventionIdle(b: P.Book, op: P.Op)
    requires b.Valid() && Enters(op) && P.Apply(b, op).result == Ok && NoneOwn(b, op.actor, Facing(b, op))
    ensures var before, after := b.c, P.Apply(b, op).book.c;
            && after.prevented == before.prevented
            && after.canceled ==
               before.canceled + if op.Limit? then 0 else op.qty - (after.traded - before.traded)
  {
    EntryIs(b, op);
    NoneDropped(IncomingOf(b, op), Facing(b, op), 0);
    hide P.Apply, Incoming.Left, Incoming.Tape, Incoming.Traded, Incoming.Dropped, Incoming.Fired, Rested;
  }

  /** The orders before place `n` are others', and the incoming order takes them all and gets to place `n`. */
  predicate GetsTo(b: P.Book, op: P.Op, q: seq<OpenOrder>, n: nat)
    requires Enters(op) && n < |q|
  {
    && P.TotalQty(q[..n]) < op.qty
    && (forall j :: 0 <= j < n ==> q[j].participant != op.actor)
    && (!op.Market? ==>
          forall j :: 0 <= j <= n ==> if op.side == Bid then q[j].price <= op.price else q[j].price >= op.price)
  }

  lemma {:induction false} AllTaken(x: Incoming, q: seq<OpenOrder>, i: nat, n: nat)
    requires i <= n < |q| && x.Meets(q, n) && forall j :: 0 <= j < n ==> !x.Same(q[j])
    ensures x.Left(q, i) == x.Left(q, n) && x.Traded(q, i) == x.Ahead(q, n) - x.Ahead(q, i) + x.Traded(q, n)
    ensures x.Dropped(q, i) == x.Dropped(q, n) && x.Fired(q, i) == x.Fired(q, n)
    decreases n - i
  {
    if i < n {
      MetInTurn(x, q, i, n);
      AheadGrows(x, q, i + 1, n);
      hide Incoming.Meets;
      AllTaken(x, q, i + 1, n);
    }
  }

  /** Place `n` is the first with an order of one's own, and is reached. */
  ghost predicate OwnAt(x: Incoming, q: seq<OpenOrder>, n: nat) {
    && n < |q| && x.Meets(q, n) && x.Same(q[n]) && (forall j :: 0 <= j < n ==> !x.Same(q[j]))
    && forall j :: 0 <= j < |q| ==> q[j].qty > 0
  }

  lemma OwnIsMet(b: P.Book, op: P.Op, n: nat)
    requires b.Valid() && Enters(op) && op.actor != 0 && b.stp != NoPrevention && n < |Facing(b, op)|
    requires GetsTo(b, op, Facing(b, op), n) && Facing(b, op)[n].participant == op.actor
    ensures var x, q := IncomingOf(b, op), Facing(b, op);
            OwnAt(x, q, n) && x.Ahead(q, n) == P.TotalQty(q[..n]) < op.qty
  {
    AheadIsTotal(IncomingOf(b, op), Facing(b, op), n);
  }

  /** The waterfall ends there if the incoming order is canceled for it. */
  lemma EndsThere(x: Incoming, q: seq<OpenOrder>, n: nat)
    requires OwnAt(x, q, n) && x.Kills()
    ensures x.Killed(q) && x.Left(q, 0) == (if x.stp == CancelAggressor then q[n..] else q[n + 1..])
    ensures x.Traded(q, 0) == x.Ahead(q, n) && x.Fired(q, 0) == 1
    ensures x.Dropped(q, 0) == if x.stp == CancelAggressor then 0 else q[n].qty
  {
    AllTaken(x, q, 0, n);
    LastMet(x, q, n);
    hide Incoming.Meets, Incoming.Same, Incoming.Ahead;
    assert x.Gives(q, n) == 0 && (x.Drops(q, n) <==> x.stp != CancelAggressor);
    assert q[n..] == [q[n]] + q[n + 1..];
  }

  /** Otherwise it goes on without that order. */
  lemma GoesOnWithout(x: Incoming, q: seq<OpenOrder>, n: nat)
    requires OwnAt(x, q, n) && !x.Kills()
    ensures !x.Killed(q) && x.Left(q, 0) == x.Left(q, n + 1)
    ensures x.Traded(q, 0) >= x.Ahead(q, n) && x.Fired(q, 0) >= 1 && x.Dropped(q, 0) >= q[n].qty
  {
    AllTaken(x, q, 0, n);
    hide Incoming.Meets, Incoming.Same, Incoming.Ahead;
    assert x.Drops(q, n) && x.Gives(q, n) == 0;
  }

  /** When the actor's own order is met under a policy that cancels the incoming one: what was traded with others
      before it stands; the rest of the incoming order is canceled; the resting order stays at the front, or goes
      too and counts as canceled; and the policy has fired once. */
  lemma IncomingGoes(b: P.Book, op: P.Op, n: nat)
    requires b.Valid() && Enters(op) && P.Apply(b, op).result == Ok
    requires op.actor != 0 && (b.stp == CancelAggressor || b.stp == CancelBoth) && n < |Facing(b, op)|
    requires GetsTo(b, op, Facing(b, op), n) && Facing(b, op)[n].participant == op.actor
    ensures var q, r := Facing(b, op), P.Apply(b, op).book;
            var met, own := P.TotalQty(q[..n]), if b.stp == CancelBoth then q[n].qty else 0;
            && Facing(r, op) == (if b.stp == CancelAggressor then q[n..] else q[n + 1..])
            && On(r, op.side) == On(b, op.side)
            && r.c == b.c.(added := b.c.added + op.qty, traded := b.c.traded + met,
                           canceled := b.c.canceled + own + op.qty - met, prevented := b.c.prevented + 1)
  {
    hide P.Apply, Rested, GetsTo, P.Book.Valid, OwnAt, P.TotalQty;
    hide Incoming.Left, Incoming.Killed, Incoming.Traded, Incoming.Dropped, Incoming.Fired, Incoming.Tape;
    OwnIsMet(b, op, n);
    EntryIs(b, op);
    EndsThere(IncomingOf(b, op), Facing(b, op), n);
  }

  /** When it is met under the policy that cancels the resting order: that order is gone and counted as canceled,
      and the incoming order is never canceled for it. */
  lemma RestingGoes(b: P.Book, op: P.Op, n: nat)
    requires b.Valid() && Enters(op) && P.Apply(b, op).result == Ok
    requires op.actor != 0 && b.stp == CancelResting && n < |Facing(b, op)|
    requires GetsTo(b, op, Facing(b, op), n) && Facing(b, op)[n].participant == op.actor
    ensures var q, r := Facing(b, op), P.Apply(b, op).book;
            var traded := r.c.traded - b.c.traded;
            && !P.HasId(Facing(r, op), q[n].id) && traded >= P.TotalQty(q[..n])
            && r.c.prevented > b.c.prevented && r.c.canceled >= b.c.canceled + q[n].qty
            && (op.Limit? && traded < op.qty ==>
                  Rested(op.side, On(b, op.side), OpenOrder(op.id, op.price, op.qty - traded, op.actor),
                         On(r, op.side)))
  {
    hide P.Apply, Rested, GetsTo, P.Book.Valid, OwnAt, P.TotalQty, P.HasId;
    hide Incoming.Left, Incoming.Killed, Incoming.Traded, Incoming.Dropped, Incoming.Fired, Incoming.Tape;
    OwnIsMet(b, op, n);
    EntryIs(b, op);
    GoesOnWithout(IncomingOf(b, op), Facing(b, op), n);
    NotBehind(IncomingOf(b, op), Facing(b, op), n, b);
  }

  lemma NotBehind(x: Incoming, q: seq<OpenOrder>, n: nat, b: P.Book)
    requires b.Valid() && (q == b.bids || q == b.asks) && n < |q|
    ensures !P.HasId(x.Left(q, n + 1), q[n].id)
  {
    var left := x.Left(q, n + 1);
    LeftIsBehind(x, q, n + 1);
    hide Incoming.Left;
    assert forall j :: 0 <= j < |left| ==> left[j] in left;
  }

  lemma {:induction false} LeftIsBehind(x: Incoming, q: seq<OpenOrder>, i: nat)
    requires i <= |q|
    ensures forall o :: o in x.Left(q, i) ==> exists j :: i <= j < |q| && q[j].id == o.id
    decreases |q| - i
  {
    hide Incoming.Meets, Incoming.Drops, Incoming.Gives;
    if i < |q| {
      LeftIsBehind(x, q, i + 1);
    }
  }

  // ----- quantities

  lemma {:induction false} AllTraded(x: Incoming, q: seq<OpenOrder>, i: nat)
    requires i <= |q| && x.limit.None? && forall j :: 0 <= j < |q| ==> !x.Same(q[j]) && q[j].qty > 0
    ensures x.Traded(q, i) == Min(x.qty, x.Ahead(q, |q|)) - Min(x.qty, x.Ahead(q, i))
    ensures x.Left(q, i) == [] <==> i == |q| || x.Ahead(q, |q|) <= x.qty
    decreases |q| - i
  {
    if i < |q| {
      AheadGrows(x, q, i + 1, |q|);
      AllTraded(x, q, i + 1);
    }
  }

  /** An accepted market order of an actor with nothing opposite trades all it asks for or all there is, whatever
      the prices, and empties the side exactly when it asks for that much. */
  lemma MarketTakesAll(b: P.Book, actor: ParticipantId, id: OrderId, s: Side, qty: Qty)
    requires b.Valid() && id != 0 && qty > 0 && !Present(b, id)
    requires NoneOwn(b, actor, if s == Bid then b.asks else b.bids)
    ensures var out := P.Apply(b, P.Market(actor, id, s, qty));
            var q, left := if s == Bid then b.asks else b.bids, if s == Bid then out.book.asks else out.book.bids;
            && out.result == Ok && out.book.c.traded == b.c.traded + Min(qty, P.TotalQty(q))
            && (left == [] <==> P.TotalQty(q) <= qty)
            && out.book.c.canceled == b.c.canceled + qty - Min(qty, P.TotalQty(q))
  {
    hide P.Apply, Rested;
    hide Incoming.Left, Incoming.Traded, Incoming.Tape, Incoming.Dropped, Incoming.Fired, Incoming.Killed;
    var op := P.Market(actor, id, s, qty);
    var x, q := IncomingOf(b, op), Facing(b, op);
    EntryRefused(b, op);
    EntryIs(b, op);
    PreventionIdle(b, op);
    AheadIsTotal(x, q, |q|);
    AllTraded(x, q, 0);
    assert q[..|q|] == q;
  }

  lemma {:induction false} TotalIsIn(q: seq<OpenOrder>, i: nat)
    requires i < |q|
    ensures q[i].qty <= P.TotalQty(q)
  {
    if i > 0 {
      TotalIsIn(q[1..], i - 1);
    }
  }

  /** The shares that leave the book with a feed event or a cancel are those it asks for, or all the order has; they
      count once, as executed for an execution and as canceled otherwise. */
  lemma FeedCounts(b: P.Book, s: Side, i: nat, qty: Qty)
    requires b.Valid() && i < |On(b, s)| && qty > 0
    ensures var o := On(b, s)[i];
            var exec, cut := P.Apply(b, P.ExecuteResting(o.id, qty)), P.Apply(b, P.ReduceResting(o.id, qty));
            var cancel := P.Apply(b, P.CancelId(o.id));
            var fell := b.Resting() - exec.book.Resting();
            && exec.result == cut.result == cancel.result == Ok && fell == Min(qty, o.qty)
            && cut.book.Resting() == exec.book.Resting() && cancel.book.Resting() == b.Resting() - o.qty
            && exec.book.c == b.c.(executed := b.c.executed + fell)
            && cut.book.c == b.c.(canceled := b.c.canceled + fell)
            && cancel.book.c == b.c.(canceled := b.c.canceled + o.qty)
  {
    var q := On(b, s);
    ConsumeIs(b, s, i, qty);
    CancelIs(b, s, i);
    L.TotalOfUpdate(q, i, if qty < q[i].qty then q[i].(qty := q[i].qty - qty) else q[i]);
    TotalIsIn(q, i);
    hide P.Apply, P.TotalQty, P.Book.Valid;
  }
}
