/** What an incoming order takes, told place by place of the opposite queue instead of step by step: how much
    each resting order gives, which leave without giving, and when the incoming order is killed. The matching
    loop of include/pricetime/book.hpp is proved to do just this. */
module Waterfall {
  import opened Types
  import P = Priority
  import L = BookLaws

  /** An incoming order under the policy in force; a market order has no limit. */
  datatype Incoming = Incoming(
    actor: ParticipantId, id: OrderId, side: Side, limit: Option<Price>, qty: Qty, stp: SelfTradePolicy)
  {
    /** Trading with `o` would be trading with oneself, and prevention is on. */
    predicate Same(o: OpenOrder) {
      actor != 0 && stp != NoPrevention && o.participant == actor
    }

    predicate Kills() {
      stp == CancelAggressor || stp == CancelBoth
    }

    predicate Crosses(o: OpenOrder) {
      match limit
      case None => true
      case Some(p) => if side == Bid then o.price <= p else p <= o.price
    }

    /** Shares of the others ahead of place `i`. */
    function Ahead(q: seq<OpenOrder>, i: nat): nat
      requires i <= |q|
    {
      if i == 0 then 0 else Ahead(q, i - 1) + if Same(q[i - 1]) then 0 else q[i - 1].qty
    }

    /** The incoming order gets to place `i` with something left. */
    predicate Meets(q: seq<OpenOrder>, i: nat)
      requires i < |q|
    {
      && Ahead(q, i) < qty && (forall j :: 0 <= j <= i ==> Crosses(q[j]))
      && (Kills() ==> forall j :: 0 <= j < i ==> !Same(q[j]))
    }

    /** What the order at place `i` trades. */
    function Gives(q: seq<OpenOrder>, i: nat): nat
      requires i < |q|
    {
      if Meets(q, i) && !Same(q[i]) then Min(q[i].qty, qty - Ahead(q, i)) else 0
    }

    /** The order at place `i` is the incoming order's own and is canceled for it. */
    predicate Drops(q: seq<OpenOrder>, i: nat)
      requires i < |q|
    {
      Meets(q, i) && Same(q[i]) && stp != CancelAggressor
    }

    /** The incoming order is canceled for meeting one of its own. */
    predicate Killed(q: seq<OpenOrder>) {
      KilledFrom(q, 0)
    }

    // ----- from place `i` on

    predicate KilledFrom(q: seq<OpenOrder>, i: nat) {
      Kills() && exists j :: i <= j < |q| && Meets(q, j) && Same(q[j])
    }

    /** The executions, in order. */
    function Tape(q: seq<OpenOrder>, i: nat): seq<Execution>
      requires i <= |q|
      decreases |q| - i
    {
      if i == |q| then []
      else (if Gives(q, i) > 0 then [Execution(q[i].id, id, q[i].price, Gives(q, i))] else []) + Tape(q, i + 1)
    }

    /** The orders left, in order. */
    function Left(q: seq<OpenOrder>, i: nat): seq<OpenOrder>
      requires i <= |q|
      decreases |q| - i
    {
      if i == |q| then []
      else
        (if Drops(q, i) || Gives(q, i) >= q[i].qty then [] else [q[i].(qty := q[i].qty - Gives(q, i))])
        + Left(q, i + 1)
    }

    function Traded(q: seq<OpenOrder>, i: nat): nat
      requires i <= |q|
      decreases |q| - i
    {
      if i == |q| then 0 else Gives(q, i) + Traded(q, i + 1)
    }

    /** Shares canceled with the incoming order's own orders. */
    function Dropped(q: seq<OpenOrder>, i: nat): nat
      requires i <= |q|
      decreases |q| - i
    {
      if i == |q| then 0 else (if Drops(q, i) then q[i].qty else 0) + Dropped(q, i + 1)
    }

    /** How often the policy fires. */
    function Fired(q: seq<OpenOrder>, i: nat): nat
      requires i <= |q|
      decreases |q| - i
    {
      if i == |q| then 0 else (if Meets(q, i) && Same(q[i]) then 1 else 0) + Fired(q, i + 1)
    }

    function Aggressive(): Aggressor {
      Aggressor(id, actor, side, limit, stp)
    }
  }

  // ----- places the incoming order does not get to

  /** Not getting to a place is not getting to any behind it. */
  lemma {:induction false} AheadGrows(x: Incoming, q: seq<OpenOrder>, i: nat, j: nat)
    requires i <= j <= |q|
    ensures x.Ahead(q, i) <= x.Ahead(q, j)
    decreases j - i
  {
    if i < j {
      AheadGrows(x, q, i, j - 1);
    }
  }

  /** Nothing happens from a place on that is not met, if none behind it is. */
  lemma {:induction false} NothingMet(x: Incoming, q: seq<OpenOrder>, i: nat)
    requires i <= |q| && forall j :: i <= j < |q| ==> !x.Meets(q, j)
    requires forall j :: 0 <= j < |q| ==> q[j].qty > 0
    ensures x.Tape(q, i) == [] && x.Left(q, i) == q[i..]
    ensures x.Traded(q, i) == x.Dropped(q, i) == x.Fired(q, i) == 0
    decreases |q| - i
  {
    hide Incoming.Meets;
    if i < |q| {
      NothingMet(x, q, i + 1);
      assert q[i..] == [q[i]] + q[i + 1..];
    }
  }

  /** The run has come to place `i`: nothing was left behind but what the places before it say. */
  ghost predicate Arrived(x: Incoming, q: seq<OpenOrder>, m: P.Run, i: nat) {
    && i <= |q| && m.q == q[i..] && m.qty == x.qty - Min(x.qty, x.Ahead(q, i))
    && (forall j :: 0 <= j < i ==> x.Crosses(q[j]))
    && (x.Kills() ==> forall j :: 0 <= j < i ==> !x.Same(q[j]))
  }

  /** Where the run ends that has come to place `i`. */
  ghost predicate EndsAs(x: Incoming, q: seq<OpenOrder>, m: P.Run, r: P.Run, i: nat)
    requires i <= |q|
  {
    var killed, traded := x.KilledFrom(q, i), x.Traded(q, i);
    && r.q == x.Left(q, i) && r.execs == m.execs + x.Tape(q, i)
    && traded <= m.qty && r.qty == (if killed then 0 else m.qty - traded)
    && r.c == m.c.(traded := m.c.traded + traded,
                   canceled := m.c.canceled + x.Dropped(q, i) + if killed then m.qty - traded else 0,
                   prevented := m.c.prevented + x.Fired(q, i))
  }

  lemma MetInTurn(x: Incoming, q: seq<OpenOrder>, i: nat, j: nat)
    requires i <= j < |q| && x.Meets(q, j)
    ensures x.Meets(q, i)
  {
    AheadGrows(x, q, i, j);
  }

  /** The run stops at place `i`, which it does not get to. */
  lemma Halts(x: Incoming, q: seq<OpenOrder>, m: P.Run, i: nat)
    requires Arrived(x, q, m, i) && (i == |q| || !x.Meets(q, i)) && forall j :: 0 <= j < |q| ==> q[j].qty > 0
    ensures EndsAs(x, q, m, P.Match(x.Aggressive(), m), i)
  {
    forall j | i <= j < |q|
      ensures !x.Meets(q, j)
    {
      if x.Meets(q, j) {
        MetInTurn(x, q, i, j);
      }
    }
    NothingMet(x, q, i);
    assert P.Stopped(x.Aggressive(), m);
  }

  /** None behind place `i` is met, because of place `i`. */
  lemma LastMet(x: Incoming, q: seq<OpenOrder>, i: nat)
    requires i < |q| && x.Meets(q, i) && forall j :: 0 <= j < |q| ==> q[j].qty > 0
    requires if x.Same(q[i]) then x.Kills() else x.Ahead(q, i) + q[i].qty >= x.qty
    ensures forall j :: i < j < |q| ==> !x.Meets(q, j)
    ensures x.Tape(q, i + 1) == [] && x.Left(q, i + 1) == q[i + 1..]
    ensures x.Traded(q, i + 1) == x.Dropped(q, i + 1) == x.Fired(q, i + 1) == 0
  {
    forall j | i < j < |q|
      ensures !x.Meets(q, j)
    {
      if x.Meets(q, j) {
        AheadGrows(x, q, i + 1, j);
      }
    }
    NothingMet(x, q, i + 1);
  }

  /** What the loop does at place `i`. */
  lemma StepIs(x: Incoming, q: seq<OpenOrder>, m: P.Run, i: nat)
    requires Arrived(x, q, m, i) && i < |q| && x.Meets(q, i)
    ensures var a, o, fired := x.Aggressive(), q[i], m.c.(prevented := m.c.prevented + 1);
            && !P.Stopped(a, m) && m.qty == x.qty - x.Ahead(q, i) > 0
            && P.Step(a, m) ==
               if x.Same(o) then
                 if x.stp == CancelAggressor then P.Run(q[i..], 0, fired.(canceled := fired.canceled + m.qty), m.execs)
                 else if x.Kills() then
                   P.Run(q[i + 1..], 0, fired.(canceled := fired.canceled + o.qty + m.qty), m.execs)
                 else P.Run(q[i + 1..], m.qty, fired.(canceled := fired.canceled + o.qty), m.execs)
               else
                 var fill := Min(m.qty, o.qty);
                 P.Run((if fill == o.qty then [] else [o.(qty := o.qty - fill)]) + q[i + 1..], m.qty - fill,
                       m.c.(traded := m.c.traded + fill), m.execs + [Execution(o.id, x.id, o.price, fill)])
  {
    assert m.q[0] == q[i] && m.q[1..] == q[i + 1..];
    assert [] + q[i + 1..] == q[i + 1..];
    hide Incoming.Ahead;
  }

  /** What place `i` adds to the waterfall. */
  lemma PlaceIs(x: Incoming, q: seq<OpenOrder>, i: nat)
    requires i < |q|
    ensures var o, g, d := q[i], x.Gives(q, i), x.Drops(q, i);
            && x.Traded(q, i) == g + x.Traded(q, i + 1)
            && x.Dropped(q, i) == (if d then o.qty else 0) + x.Dropped(q, i + 1)
            && x.Fired(q, i) == (if x.Meets(q, i) && x.Same(o) then 1 else 0) + x.Fired(q, i + 1)
            && x.Tape(q, i) == (if g > 0 then [Execution(o.id, x.id, o.price, g)] else []) + x.Tape(q, i + 1)
            && x.Left(q, i) == (if d || g >= o.qty then [] else [o.(qty := o.qty - g)]) + x.Left(q, i + 1)
  {
    hide Incoming.Gives, Incoming.Drops, Incoming.Meets, Incoming.Same;
  }

  lemma MatchStep(a: Aggressor, m: P.Run)
    requires !P.Stopped(a, m)
    ensures P.Match(a, m) == P.Match(a, P.Step(a, m))
    ensures P.Step(a, m).qty == 0 ==> P.Match(a, m) == P.Step(a, m)
  {
    hide P.Step;
  }

  /** The run meets one of the incoming order's own, and the incoming order is canceled. */
  lemma DiesAt(x: Incoming, q: seq<OpenOrder>, m: P.Run, i: nat)
    requires Arrived(x, q, m, i) && i < |q| && x.Meets(q, i) && x.Same(q[i]) && x.Kills()
    requires forall j :: 0 <= j < |q| ==> q[j].qty > 0
    ensures EndsAs(x, q, m, P.Match(x.Aggressive(), m), i)
  {
    hide Incoming.Left, Incoming.Tape, Incoming.Traded, Incoming.Dropped, Incoming.Fired;
    PlaceIs(x, q, i);
    LastMet(x, q, i);
    assert x.Gives(q, i) == 0 && (x.Drops(q, i) <==> x.stp != CancelAggressor) && x.KilledFrom(q, i);
    StepIs(x, q, m, i);
    MatchStep(x.Aggressive(), m);
    hide P.Match, P.Step, P.Stopped, Incoming.Meets, Incoming.Ahead, Arrived, Incoming.Gives, Incoming.Drops;
    hide Incoming.KilledFrom;
    assert q[i..] == [q[i]] + q[i + 1..];
    assert m.execs + ([] + []) == m.execs;
  }

  /** The run fills itself at place `i`. */
  lemma FillsAt(x: Incoming, q: seq<OpenOrder>, m: P.Run, i: nat)
    requires Arrived(x, q, m, i) && i < |q| && x.Meets(q, i) && !x.Same(q[i]) && m.qty < q[i].qty
    requires forall j :: 0 <= j < |q| ==> q[j].qty > 0
    ensures EndsAs(x, q, m, P.Match(x.Aggressive(), m), i)
  {
    hide Incoming.Left, Incoming.Tape, Incoming.Traded, Incoming.Dropped, Incoming.Fired;
    PlaceIs(x, q, i);
    StepIs(x, q, m, i);
    LastMet(x, q, i);
    MatchStep(x.Aggressive(), m);
    hide P.Match, P.Step, P.Stopped, Arrived;
    assert x.Gives(q, i) == m.qty && !x.Drops(q, i) && !x.KilledFrom(q, i);
  }

  /** The run takes the order at place `i` out and goes on. */
  lemma GoesOn(x: Incoming, q: seq<OpenOrder>, m: P.Run, i: nat) returns (next: P.Run)
    requires Arrived(x, q, m, i) && i < |q| && x.Meets(q, i) && q[i].qty > 0
    requires if x.Same(q[i]) then !x.Kills() else q[i].qty <= m.qty
    ensures P.Match(x.Aggressive(), m) == P.Match(x.Aggressive(), next) && Arrived(x, q, next, i + 1)
    ensures Took(x, q[i], m, next)
    ensures x.Gives(q, i) == (if x.Same(q[i]) then 0 else q[i].qty) && (x.Drops(q, i) <==> x.Same(q[i]))
  {
    next := P.Step(x.Aggressive(), m);
    StepIs(x, q, m, i);
    MatchStep(x.Aggressive(), m);
    hide P.Match, P.Step, P.Stopped;
    assert x.Ahead(q, i + 1) == x.Ahead(q, i) + if x.Same(q[i]) then 0 else q[i].qty;
  }

  /** The step before `next` took out the whole of `o`, by trading with it or by canceling it. */
  predicate Took(x: Incoming, o: OpenOrder, m: P.Run, next: P.Run) {
    if x.Same(o) then
      && next.qty == m.qty && next.execs == m.execs
      && next.c == m.c.(prevented := m.c.prevented + 1, canceled := m.c.canceled + o.qty)
    else
      && next.qty + o.qty == m.qty && next.execs == m.execs + [Execution(o.id, x.id, o.price, o.qty)]
      && next.c == m.c.(traded := m.c.traded + o.qty)
  }

  lemma Carries(x: Incoming, q: seq<OpenOrder>, m: P.Run, next: P.Run, r: P.Run, i: nat)
    requires i < |q| && x.Meets(q, i) && q[i].qty > 0 && Took(x, q[i], m, next) && (x.Same(q[i]) ==> !x.Kills())
    requires x.Gives(q, i) == (if x.Same(q[i]) then 0 else q[i].qty) && (x.Drops(q, i) <==> x.Same(q[i]))
    requires EndsAs(x, q, next, r, i + 1)
    ensures EndsAs(x, q, m, r, i)
  {
    hide Incoming.Left, Incoming.Tape, Incoming.Traded, Incoming.Dropped, Incoming.Fired;
    PlaceIs(x, q, i);
    assert x.KilledFrom(q, i) <==> x.KilledFrom(q, i + 1);
    hide Incoming.Meets, Incoming.Gives, Incoming.Drops, Incoming.Same, Incoming.Kills, Incoming.KilledFrom;
    assert next.execs + x.Tape(q, i + 1) == m.execs + x.Tape(q, i);
  }

  lemma {:induction false} MatchFrom(x: Incoming, q: seq<OpenOrder>, m: P.Run, i: nat)
    requires Arrived(x, q, m, i) && forall j :: 0 <= j < |q| ==> q[j].qty > 0
    ensures EndsAs(x, q, m, P.Match(x.Aggressive(), m), i)
    decreases |q| - i
  {
    if i == |q| || !x.Meets(q, i) {
      Halts(x, q, m, i);
    } else if x.Same(q[i]) && x.Kills() {
      DiesAt(x, q, m, i);
    } else if !x.Same(q[i]) && m.qty < q[i].qty {
      FillsAt(x, q, m, i);
    } else {
      hide Arrived, EndsAs, Incoming.Meets, Incoming.Gives, Incoming.Drops, Took;
      var next := GoesOn(x, q, m, i);
      MatchFrom(x, q, next, i + 1);
      Carries(x, q, m, next, P.Match(x.Aggressive(), next), i);
    }
  }
}
