/** The naive order book of tests/reference_book.hpp: a flat vector of live orders in arrival
    order, searched from scratch by price and then arrival. The functions define each search; the
    class is the book itself, updated in place by scanning loops. */
module Reference {
  import opened Types
  import P = Priority

  datatype RefOrder = RefOrder(
    id: OrderId, price: Price, qty: Qty, side: Side, participant: ParticipantId, arrival: nat)

  datatype RefState = RefState(
    range: PriceRange, stp: SelfTradePolicy, live: seq<RefOrder>, next: nat, c: Counters)

  datatype RefOutcome = RefOutcome(state: RefState, result: Result, execs: seq<Execution>)

  // ----- searches

  function Position(live: seq<RefOrder>, id: OrderId): (i: nat)
    ensures i <= |live|
    ensures i < |live| ==> live[i].id == id
    ensures forall j :: 0 <= j < i ==> live[j].id != id
  {
    if live == [] || live[0].id == id then 0 else 1 + Position(live[1..], id)
  }

  predicate Eligible(a: Aggressor, o: RefOrder) {
    o.side != a.side && a.Reaches(o.price)
  }

  /** Price-time priority between two orders resting opposite an aggressor on side `s`. */
  predicate Precedes(s: Side, x: RefOrder, y: RefOrder) {
    Better(Opposite(s), x.price, y.price) || (x.price == y.price && x.arrival < y.arrival)
  }

  /** The index chosen after scanning the first `n` orders; `|live|` when none is eligible. */
  function Best(live: seq<RefOrder>, a: Aggressor, n: nat): (b: nat)
    requires n <= |live|
    ensures b == |live| || b < n
  {
    if n == 0 then |live|
    else
      var b := Best(live, a, n - 1);
      if !Eligible(a, live[n - 1]) then b
      else if b == |live| || Precedes(a.side, live[n - 1], live[b]) then n - 1
      else b
  }

  /** What the scan means: the chosen order is eligible and no eligible order precedes it. */
  lemma {:induction false} BestIsPriceTime(live: seq<RefOrder>, a: Aggressor, n: nat)
    requires n <= |live|
    ensures var b := Best(live, a, n);
            && (b == |live| <==> forall i :: 0 <= i < n ==> !Eligible(a, live[i]))
            && (b < |live| ==> Eligible(a, live[b]))
            && (b < |live| ==>
                  forall i :: 0 <= i < n && Eligible(a, live[i]) ==> !Precedes(a.side, live[i], live[b]))
  {
    if n > 0 {
      BestIsPriceTime(live, a, n - 1);
    }
  }

  function Without(live: seq<RefOrder>, i: nat): seq<RefOrder>
    requires i < |live|
  {
    live[..i] + live[i + 1..]
  }

  // ----- matching

  datatype RefRun = RefRun(live: seq<RefOrder>, qty: Qty, c: Counters, execs: seq<Execution>)

  predicate Stopped(a: Aggressor, m: RefRun) {
    m.qty == 0 || Best(m.live, a, |m.live|) == |m.live|
  }

  function Step(a: Aggressor, m: RefRun): RefRun
    requires !Stopped(a, m)
  {
    var i := Best(m.live, a, |m.live|);
    var r := m.live[i];
    if a.Owns(r.participant) then
      var fired := m.c.(prevented := m.c.prevented + 1);
      if a.stp == CancelAggressor then RefRun(m.live, 0, P.Kill(fired, m.qty), m.execs)
      else if a.stp == CancelBoth then RefRun(Without(m.live, i), 0, P.Kill(P.Kill(fired, r.qty), m.qty), m.execs)
      else RefRun(Without(m.live, i), m.qty, P.Kill(fired, r.qty), m.execs)
    else
      var fill := Min(m.qty, r.qty);
      var left := r.(qty := r.qty - fill);
      RefRun(if left.qty == 0 then Without(m.live, i) else m.live[i := left],
             m.qty - fill,
             m.c.(traded := m.c.traded + fill),
             m.execs + [Execution(r.id, a.id, r.price, fill)])
  }

  function Match(a: Aggressor, m: RefRun): (r: RefRun)
    ensures Stopped(a, r)
    decreases |m.live|, m.qty
  {
    if Stopped(a, m) then m else Match(a, Step(a, m))
  }

  // ----- the fill-or-kill pre-scan

  /** Indices of the eligible orders among the first `n`, in vector order. */
  function Collect(live: seq<RefOrder>, a: Aggressor, n: nat): (out: seq<nat>)
    requires n <= |live|
    ensures forall k :: 0 <= k < |out| ==> out[k] < n
  {
    if n == 0 then []
    else Collect(live, a, n - 1) + if Eligible(a, live[n - 1]) then [n - 1] else []
  }

  function SortedSlot(live: seq<RefOrder>, s: Side, out: seq<nat>, i: nat): (k: nat)
    requires i < |live| && forall t :: 0 <= t < |out| ==> out[t] < |live|
    ensures k <= |out|
    ensures k < |out| ==> Precedes(s, live[i], live[out[k]])
    ensures forall t :: 0 <= t < k ==> !Precedes(s, live[i], live[out[t]])
  {
    if out == [] || Precedes(s, live[i], live[out[0]]) then 0 else 1 + SortedSlot(live, s, out[1..], i)
  }

  function SortInto(live: seq<RefOrder>, s: Side, out: seq<nat>, i: nat): (r: seq<nat>)
    requires i < |live| && forall t :: 0 <= t < |out| ==> out[t] < |live|
    ensures forall t :: 0 <= t < |r| ==> r[t] < |live|
    ensures |r| == |out| + 1
  {
    var k := SortedSlot(live, s, out, i);
    out[..k] + [i] + out[k..]
  }

  function SortAll(live: seq<RefOrder>, s: Side, out: seq<nat>): (r: seq<nat>)
    requires forall t :: 0 <= t < |out| ==> out[t] < |live|
    ensures forall t :: 0 <= t < |r| ==> r[t] < |live|
    ensures |r| == |out|
  {
    if out == [] then [] else SortInto(live, s, SortAll(live, s, out[..|out| - 1]), out[|out| - 1])
  }

  /** Shares counted by the walk from position `k` of `out`, with `sum` already counted. */
  function Walk(live: seq<RefOrder>, a: Aggressor, out: seq<nat>, k: nat, sum: nat, need: Qty): nat
    requires k <= |out| && forall t :: 0 <= t < |out| ==> out[t] < |live|
    decreases |out| - k
  {
    if k == |out| then sum
    else if a.Owns(live[out[k]].participant) then
      if a.stp == CancelAggressor || a.stp == CancelBoth then sum else Walk(live, a, out, k + 1, sum, need)
    else
      var more := sum + live[out[k]].qty;
      if more >= need then more else Walk(live, a, out, k + 1, more, need)
  }

  // ----- entry points

  function Validate(st: RefState, id: OrderId, price: Price, qty: Qty): Result {
    if id == 0 then RejectedBadId
    else if qty == 0 then RejectedBadQty
    else if !st.range.Valid(price) then RejectedBadPrice
    else if Position(st.live, id) < |st.live| then RejectedDuplicateId
    else Ok
  }

  function Start(st: RefState, qty: Qty): RefRun {
    RefRun(st.live, qty, st.c.(added := st.c.added + qty), [])
  }

  function Rest(st: RefState, id: OrderId, s: Side, price: Price, qty: Qty, actor: ParticipantId): RefState {
    st.(live := st.live + [RefOrder(id, price, qty, s, actor, st.next)], next := st.next + 1)
  }

  function AddLimit(st: RefState, actor: ParticipantId, id: OrderId, s: Side, price: Price, qty: Qty): RefOutcome {
    var v := Validate(st, id, price, qty);
    if v != Ok then RefOutcome(st, v, [])
    else
      var m := Match(Aggressor(id, actor, s, Some(price), st.stp), Start(st, qty));
      var after := st.(live := m.live, c := m.c);
      RefOutcome(if m.qty > 0 then Rest(after, id, s, price, m.qty, actor) else after, Ok, m.execs)
  }

  function Immediate(st: RefState, a: Aggressor, qty: Qty): RefOutcome {
    var m := Match(a, Start(st, qty));
    RefOutcome(st.(live := m.live, c := P.Kill(m.c, m.qty)), Ok, m.execs)
  }

  function AddIoc(st: RefState, actor: ParticipantId, id: OrderId, s: Side, price: Price, qty: Qty): RefOutcome {
    var v := Validate(st, id, price, qty);
    if v != Ok then RefOutcome(st, v, [])
    else Immediate(st, Aggressor(id, actor, s, Some(price), st.stp), qty)
  }

  function AddFok(st: RefState, actor: ParticipantId, id: OrderId, s: Side, price: Price, qty: Qty): RefOutcome {
    var v := Validate(st, id, price, qty);
    if v != Ok then RefOutcome(st, v, [])
    else
      var a := Aggressor(id, actor, s, Some(price), st.stp);
      var out := SortAll(st.live, s, Collect(st.live, a, |st.live|));
      if Walk(st.live, a, out, 0, 0, qty) < qty then RefOutcome(st, RejectedNoLiquidity, [])
      else Immediate(st, a, qty)
  }

  function AddMarket(st: RefState, actor: ParticipantId, id: OrderId, s: Side, qty: Qty): RefOutcome {
    if id == 0 then RefOutcome(st, RejectedBadId, [])
    else if qty == 0 then RefOutcome(st, RejectedBadQty, [])
    else if Position(st.live, id) < |st.live| then RefOutcome(st, RejectedDuplicateId, [])
    else Immediate(st, Aggressor(id, actor, s, None, st.stp), qty)
  }

  function CancelAt(st: RefState, i: nat): RefState
    requires i < |st.live|
  {
    st.(live := Without(st.live, i), c := P.Kill(st.c, st.live[i].qty))
  }

  function Cancel(st: RefState, id: OrderId): RefOutcome {
    var i := Position(st.live, id);
    if i == |st.live| then RefOutcome(st, RejectedUnknownId, []) else RefOutcome(CancelAt(st, i), Ok, [])
  }

  function Replace(st: RefState, oldId: OrderId, newId: OrderId, price: Price, qty: Qty): RefOutcome {
    var i := Position(st.live, oldId);
    if i == |st.live| then RefOutcome(st, RejectedUnknownId, [])
    else if newId == 0 then RefOutcome(st, RejectedBadId, [])
    else if qty == 0 then RefOutcome(st, RejectedBadQty, [])
    else if !st.range.Valid(price) then RefOutcome(st, RejectedBadPrice, [])
    else if newId != oldId && Position(st.live, newId) < |st.live| then RefOutcome(st, RejectedDuplicateId, [])
    else AddLimit(CancelAt(st, i), st.live[i].participant, newId, st.live[i].side, price, qty)
  }

  /** The reference book offers order entry only: it has no feed entry points. */
  predicate Offers(op: P.Op) {
    !op.Passive? && !op.ExecuteResting? && !op.ReduceResting?
  }

  function Apply(st: RefState, op: P.Op): RefOutcome
    requires Offers(op)
  {
    match op
    case SetPolicy(p) => RefOutcome(st.(stp := p), Ok, [])
    case Limit(actor, id, s, price, qty) => AddLimit(st, actor, id, s, price, qty)
    case Ioc(actor, id, s, price, qty) => AddIoc(st, actor, id, s, price, qty)
    case Fok(actor, id, s, price, qty) => AddFok(st, actor, id, s, price, qty)
    case Market(actor, id, s, qty) => AddMarket(st, actor, id, s, qty)
    case CancelId(id) => Cancel(st, id)
    case ReplaceId(oldId, newId, price, qty) => Replace(st, oldId, newId, price, qty)
  }

  function ApplyAll(st: RefState, ops: seq<P.Op>): RefState
    requires forall i :: 0 <= i < |ops| ==> Offers(ops[i])
    decreases |ops|
  {
    if ops == [] then st else ApplyAll(Apply(st, ops[0]).state, ops[1..])
  }

  function Replies(st: RefState, ops: seq<P.Op>): seq<(Result, seq<Execution>)>
    requires forall i :: 0 <= i < |ops| ==> Offers(ops[i])
    decreases |ops|
  {
    if ops == [] then []
    else
      var r := Apply(st, ops[0]);
      [(r.result, r.execs)] + Replies(r.state, ops[1..])
  }

  function Empty(range: PriceRange): RefState {
    RefState(range, NoPrevention, [], 0, ZERO_COUNTERS)
  }

  // ----- the book

  class ReferenceBook {
    const range: PriceRange
    var live: seq<RefOrder>
    var stp: SelfTradePolicy
    var next: nat
    var c: Counters

    function State(): RefState
      reads this
    {
      RefState(range, stp, live, next, c)
    }

    constructor (range: PriceRange)
      ensures State() == Empty(range)
    {
      this.range := range;
      live, stp, next, c := [], NoPrevention, 0, ZERO_COUNTERS;
    }

    method FindOrder(id: OrderId) returns (i: nat)
      ensures i == Position(live, id)
    {
      i := 0;
      while i < |live| && live[i].id != id
        invariant i <= |live|
        invariant Position(live, id) == i + Position(live[i..], id)
      {
        assert live[i..][1..] == live[i + 1..];
        i := i + 1;
      }
    }

    method BestCounterparty(a: Aggressor) returns (best: nat)
      ensures best == Best(live, a, |live|)
    {
      best := |live|;
      for i := 0 to |live|
        invariant best == Best(live, a, i)
      {
        var o := live[i];
        if o.side == a.side || !a.Reaches(o.price) {
          continue;
        }
        if best == |live| {
          best := i;
          continue;
        }
        var b := live[best];
        var betterPrice := if a.side == Bid then o.price < b.price else o.price > b.price;
        if betterPrice || (o.price == b.price && o.arrival < b.arrival) {
          best := i;
        }
      }
    }

    /** Collects the eligible indices, then sorts them by price and arrival. */
    method CrossingInPriorityOrder(a: Aggressor) returns (out: seq<nat>)
      ensures out == SortAll(live, a.side, Collect(live, a, |live|))
    {
      var found: seq<nat> := [];
      for i := 0 to |live|
        invariant found == Collect(live, a, i)
      {
        if live[i].side != a.side && a.Reaches(live[i].price) {
          found := found + [i];
        }
      }
      out := [];
      for i := 0 to |found|
        invariant out == SortAll(live, a.side, found[..i])
      {
        assert found[..i + 1][..i] == found[..i];
        out := SortInto(live, a.side, out, found[i]);
      }
      assert found[..|found|] == found;
    }

    /** The best order belongs to the aggressor: apply the policy. */
    method PreventSelfTrade(a: Aggressor, i: nat, left: Qty, ghost execs: seq<Execution>) returns (l: Qty)
      requires a.stp == stp && left > 0 && i == Best(live, a, |live|) < |live| && a.Owns(live[i].participant)
      modifies this`live, this`c
      ensures RefRun(live, l, c, execs) == Step(a, RefRun(old(live), left, old(c), execs))
    {
      l := left;
      c := c.(prevented := c.prevented + 1);
      if stp != CancelAggressor {
        c := P.Kill(c, live[i].qty);
        live := Without(live, i);
      }
      if stp != CancelResting {
        c := P.Kill(c, l);
        l := 0;
      }
    }

    method FillOne(a: Aggressor, i: nat, left: Qty, execs: seq<Execution>) returns (l: Qty, e: seq<Execution>)
      requires left > 0 && i == Best(live, a, |live|) < |live| && !a.Owns(live[i].participant)
      modifies this`live, this`c
      ensures RefRun(live, l, c, e) == Step(a, RefRun(old(live), left, old(c), execs))
    {
      var resting := live[i];
      var fill := if left < resting.qty then left else resting.qty;
      resting := resting.(qty := resting.qty - fill);
      l := left - fill;
      c := c.(traded := c.traded + fill);
      e := execs + [Execution(resting.id, a.id, resting.price, fill)];
      live := if resting.qty == 0 then Without(live, i) else live[i := resting];
    }

    method MatchAgainst(a: Aggressor, want: Qty) returns (left: Qty, execs: seq<Execution>)
      requires a.stp == stp
      modifies this`live, this`c
      ensures RefRun(live, left, c, execs) == Match(a, RefRun(old(live), want, old(c), []))
    {
      left, execs := want, [];
      ghost var outcome := Match(a, RefRun(live, want, c, []));
      while left > 0
        invariant Match(a, RefRun(live, left, c, execs)) == outcome
        decreases |live|, left
      {
        var i := BestCounterparty(a);
        if i == |live| {
          break;
        }

        ghost var m := RefRun(live, left, c, execs);
        assert Match(a, Step(a, m)) == outcome;
        if a.Owns(live[i].participant) {
          left := PreventSelfTrade(a, i, left, execs);
        } else {
          left, execs := FillOne(a, i, left, execs);
        }
        assert RefRun(live, left, c, execs) == Step(a, m);
      }
    }

    method AddLimitAs(actor: ParticipantId, id: OrderId, side: Side, price: Price, qty: Qty)
      returns (r: Result, execs: seq<Execution>)
      modifies this
      ensures RefOutcome(State(), r, execs) == AddLimit(old(State()), actor, id, side, price, qty)
    {
      hide Match;
      r := Check(id, price, qty);
      execs := [];
      if r != Ok {
        return;
      }
      c := c.(added := c.added + qty);
      var left;
      left, execs := MatchAgainst(Aggressor(id, actor, side, Some(price), stp), qty);
      if left > 0 {
        live := live + [RefOrder(id, price, left, side, actor, next)];
        next := next + 1;
      }
    }

    method Check(id: OrderId, price: Price, qty: Qty) returns (r: Result)
      ensures r == Validate(State(), id, price, qty)
    {
      if id == 0 {
        return RejectedBadId;
      }
      if qty == 0 {
        return RejectedBadQty;
      }
      if !range.Valid(price) {
        return RejectedBadPrice;
      }
      var i := FindOrder(id);
      r := if i < |live| then RejectedDuplicateId else Ok;
    }

    method AddIocAs(actor: ParticipantId, id: OrderId, side: Side, price: Price, qty: Qty)
      returns (r: Result, execs: seq<Execution>)
      modifies this
      ensures RefOutcome(State(), r, execs) == AddIoc(old(State()), actor, id, side, price, qty)
    {
      hide Match;
      r := Check(id, price, qty);
      execs := [];
      if r != Ok {
        return;
      }
      c := c.(added := c.added + qty);
      var left;
      left, execs := MatchAgainst(Aggressor(id, actor, side, Some(price), stp), qty);
      c := P.Kill(c, left);
    }

    method CountReachable(a: Aggressor, need: Qty) returns (reachable: nat)
      ensures reachable == Walk(live, a, SortAll(live, a.side, Collect(live, a, |live|)), 0, 0, need)
    {
      reachable := 0;
      var order := CrossingInPriorityOrder(a);
      var k := 0;
      while k < |order|
        invariant k <= |order|
        invariant Walk(live, a, order, k, reachable, need) == Walk(live, a, order, 0, 0, need)
      {
        var o := live[order[k]];
        if a.Owns(o.participant) {
          if a.stp == CancelAggressor || a.stp == CancelBoth {
            break;
          }
          k := k + 1;
          continue;
        }
        if reachable + o.qty >= need {
          reachable := reachable + o.qty;
          break;
        }
        reachable := reachable + o.qty;
        k := k + 1;
      }
    }

    method AddFokAs(actor: ParticipantId, id: OrderId, side: Side, price: Price, qty: Qty)
      returns (r: Result, execs: seq<Execution>)
      modifies this
      ensures RefOutcome(State(), r, execs) == AddFok(old(State()), actor, id, side, price, qty)
    {
      hide Match;
      r := Check(id, price, qty);
      execs := [];
      if r != Ok {
        return;
      }
      var a := Aggressor(id, actor, side, Some(price), stp);
      var reachable := CountReachable(a, qty);
      if reachable < qty {
        return RejectedNoLiquidity, [];
      }
      c := c.(added := c.added + qty);
      var left;
      left, execs := MatchAgainst(a, qty);
      c := P.Kill(c, left);
    }

    method AddMarketAs(actor: ParticipantId, id: OrderId, side: Side, qty: Qty)
      returns (r: Result, execs: seq<Execution>)
      modifies this
      ensures RefOutcome(State(), r, execs) == AddMarket(old(State()), actor, id, side, qty)
    {
      hide Match;
      execs := [];
      if id == 0 {
        return RejectedBadId, [];
      }
      if qty == 0 {
        return RejectedBadQty, [];
      }
      var i := FindOrder(id);
      if i < |live| {
        return RejectedDuplicateId, [];
      }
      r := Ok;
      c := c.(added := c.added + qty);
      var left;
      left, execs := MatchAgainst(Aggressor(id, actor, side, None, stp), qty);
      c := P.Kill(c, left);
    }

    method CancelOrder(id: OrderId) returns (r: Result)
      modifies this
      ensures RefOutcome(State(), r, []) == Cancel(old(State()), id)
    {
      var i := FindOrder(id);
      if i == |live| {
        return RejectedUnknownId;
      }
      c := P.Kill(c, live[i].qty);
      live := Without(live, i);
      r := Ok;
    }

    method ReplaceOrder(oldId: OrderId, newId: OrderId, price: Price, qty: Qty)
      returns (r: Result, execs: seq<Execution>)
      modifies this
      ensures RefOutcome(State(), r, execs) == Replace(old(State()), oldId, newId, price, qty)
    {
      var i := FindOrder(oldId);
      if i == |live| {
        return RejectedUnknownId, [];
      }
      if newId == 0 {
        return RejectedBadId, [];
      }
      if qty == 0 {
        return RejectedBadQty, [];
      }
      if !range.Valid(price) {
        return RejectedBadPrice, [];
      }
      if newId != oldId {
        var j := FindOrder(newId);
        if j < |live| {
          return RejectedDuplicateId, [];
        }
      }
      var o := live[i];
      c := P.Kill(c, o.qty);
      live := Without(live, i);
      r, execs := AddLimitAs(o.participant, newId, o.side, price, qty);
    }

    /** Any one call of order entry. */
    method Do(op: P.Op) returns (r: Result, execs: seq<Execution>)
      requires Offers(op)
      modifies this
      ensures RefOutcome(State(), r, execs) == Apply(old(State()), op)
    {
      match op
      case SetPolicy(p) =>
        stp := p;
        r, execs := Ok, [];
      case Limit(actor, id, s, price, qty) => r, execs := AddLimitAs(actor, id, s, price, qty);
      case Ioc(actor, id, s, price, qty) => r, execs := AddIocAs(actor, id, s, price, qty);
      case Fok(actor, id, s, price, qty) => r, execs := AddFokAs(actor, id, s, price, qty);
      case Market(actor, id, s, qty) => r, execs := AddMarketAs(actor, id, s, qty);
      case CancelId(id) =>
        r := CancelOrder(id);
        execs := [];
      case ReplaceId(oldId, newId, price, qty) => r, execs := ReplaceOrder(oldId, newId, price, qty);
    }
  }
}
