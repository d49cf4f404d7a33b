/** The shutdown cascade of include/pricetime/engine.hpp: a stage that fills a ring and then says it is
    done, and the stage that drains the ring, looks at that flag, and tries once more before it exits. */
module Shutdown {
  import opened Types
  import opened Spsc

  /** Where the draining loop stands: popping, looking at the flag, popping again, out of the loop. */
  datatype Point = FirstPop | LookAtFlag | SecondPop | Exited

  /** `keeps` says whether an item the second pop returns is handled. The loops of the source do not
      handle it. `floor` is how many pushes the flag, once seen, makes visible to the drainer. */
  datatype Stage<T> = Stage(
    ring: Ring<T>, keeps: bool, spinning: Option<T>, done: bool, at: Point, floor: nat,
    accepted: seq<T>, handled: seq<T>, dropped: seq<T>)

  function Start<T>(mask: nat, slots: seq<T>, keeps: bool): Stage<T> {
    Stage(Empty(mask, slots), keeps, None, false, FirstPop, 0, [], [], [])
  }

  datatype Move<T> =
    | Accept(v: T)             // the filling stage has an item, and will spin until it is in
    | Fill(a: Action<T>)       // one step of its push
    | Finish                   // it exits, and raises the flag
    | Drain(a: Action<T>)      // one step of the draining stage's pop
    | ReadFlag(raised: bool)   // an acquire load: true only once the flag is up

  predicate Allowed<T(==)>(s: Stage<T>, m: Move<T>) {
    match m
    case Accept(_) => s.spinning.None? && !s.done
    case Fill(a) =>
      && s.spinning.Some? && !a.ByConsumer() && Enabled(s.ring, a)
      && (a.StartPush? ==> a.v == s.spinning.value)
    case Finish => s.spinning.None? && !s.done
    case Drain(a) =>
      && (s.at == FirstPop || s.at == SecondPop) && a.ByConsumer() && Enabled(s.ring, a)
      && (a.ReloadHead? ==> a.seen >= s.floor)
    case ReadFlag(raised) => s.at == LookAtFlag && (raised ==> s.done)
  }

  function Do<T>(s: Stage<T>, m: Move<T>): Stage<T>
    requires Allowed(s, m)
  {
    match m
    case Accept(v) => s.(spinning := Some(v), accepted := s.accepted + [v])
    case Fill(a) => s.(ring := Spsc.Do(s.ring, a), spinning := if a.PublishHead? then None else s.spinning)
    case Finish => s.(done := true)
    case Drain(a) =>
      var ring := Spsc.Do(s.ring, a);
      if a.PublishTail? then Popped(s.(ring := ring, at := FirstPop), s.ring.consumer.out, s.at == SecondPop)
      else if ring.consumer.NotPopping? then s.(ring := ring, at := if s.at == FirstPop then LookAtFlag else Exited)
      else s.(ring := ring)
    case ReadFlag(raised) =>
      if raised then s.(at := SecondPop, floor := |s.ring.pushed|) else s.(at := FirstPop)
  }

  /** What becomes of an item popped: the second pop overwrites the request and the loop goes round. */
  function Popped<T>(s: Stage<T>, v: T, second: bool): Stage<T> {
    if second && !s.keeps then s.(dropped := s.dropped + [v]) else s.(handled := s.handled + [v])
  }

  // ----- the invariant

  /** Every item accepted is in the ring's stream, or is the one being pushed. */
  ghost predicate Filling<T>(s: Stage<T>) {
    && s.accepted == s.ring.pushed + (if s.spinning.Some? then [s.spinning.value] else [])
    && (s.spinning.None? ==> s.ring.producer.NotPushing?)
    && (s.ring.producer.RecheckingTail? || s.ring.producer.StoringSlot? || s.ring.producer.PublishingHead? ==>
          s.spinning.Some? && s.ring.producer.v == s.spinning.value)
    && (s.done ==> s.spinning.None?)
  }

  /** Where the drainer stands agrees with the ring; the flag seen means all pushes seen. */
  ghost predicate Draining<T>(s: Stage<T>) {
    && s.floor <= |s.ring.pushed|
    && (s.at == LookAtFlag ==> s.ring.consumer.NotPopping? && s.ring.headSeen == |s.ring.popped|)
    && (s.at == Exited ==> s.ring.consumer.NotPopping?)
    && (s.at == SecondPop || s.at == Exited ==> s.done && s.floor == |s.ring.pushed|)
    && (s.at == SecondPop && (s.ring.consumer.NotPopping? || s.ring.consumer.RecheckingHead?) ==>
          s.ring.headSeen == |s.ring.popped|)
    && (s.at == SecondPop && (s.ring.consumer.LoadingSlot? || s.ring.consumer.PublishingTail?) ==>
          s.dropped == [] && s.ring.headSeen == |s.ring.pushed|)
    && (s.at == Exited ==> |s.ring.popped| == |s.ring.pushed|)
    && (s.dropped != [] ==> !s.keeps && s.done && s.ring.headSeen == |s.ring.pushed|)
  }

  /** `all` is `kept` with the one item `lost`, if any, put back where it was. */
  ghost predicate AllBut<T>(all: seq<T>, kept: seq<T>, lost: seq<T>) {
    exists k :: 0 <= k <= |kept| && all == kept[..k] + lost + kept[k..]
  }

  ghost predicate Accounted<T>(s: Stage<T>) {
    |s.dropped| <= 1 && AllBut(s.ring.popped, s.handled, s.dropped)
  }

  ghost predicate Inv<T>(s: Stage<T>) {
    Spsc.Inv(s.ring) && Filling(s) && Draining(s) && Accounted(s)
  }

  lemma KeptOne<T>(all: seq<T>, kept: seq<T>, lost: seq<T>, v: T)
    requires AllBut(all, kept, lost)
    ensures AllBut(all + [v], kept + [v], lost)
    ensures lost == [] ==> AllBut(all + [v], kept, [v])
  {
    var k :| 0 <= k <= |kept| && all == kept[..k] + lost + kept[k..];
    assert all + [v] == (kept + [v])[..k] + lost + (kept + [v])[k..];
    if lost == [] {
      assert all + [v] == kept[..|kept|] + [v] + kept[|kept|..];
    }
  }

  lemma FillKeeps<T>(s: Stage<T>, a: Action<T>)
    requires Inv(s) && Allowed(s, Fill(a))
    ensures Inv(Do(s, Fill(a)))
  {
    DoKeeps(s.ring, a);
    hide Spsc.Inv, AllBut;
  }

  /** What a step of a pop does to the ring, in counts. */
  lemma PopSteps<T>(r: Ring<T>, a: Action<T>)
    requires Spsc.Inv(r) && Enabled(r, a) && a.ByConsumer()
    ensures var n := Spsc.Do(r, a);
      && Spsc.Inv(n) && n.pushed == r.pushed && n.producer == r.producer && |r.popped| <= r.headSeen <= |r.pushed|
      && (a.StartPop? ==> n.headSeen == r.headSeen && n.popped == r.popped
                          && if r.headSeen == |r.popped| then n.consumer.RecheckingHead? else n.consumer.LoadingSlot?)
      && (a.ReloadHead? ==> n.headSeen == a.seen && n.popped == r.popped
                            && if a.seen == |r.popped| then n.consumer.NotPopping? else n.consumer.LoadingSlot?)
      && (a.LoadSlot? ==> n.headSeen == r.headSeen && n.popped == r.popped && n.consumer.PublishingTail?)
      && (a.PublishTail? ==>
            n.headSeen == r.headSeen && n.popped == r.popped + [r.consumer.out] && n.consumer.NotPopping?)
  {
    DoKeeps(r, a);
    EmptyIff(r, r.headSeen);
    if a.ReloadHead? {
      EmptyIff(r, a.seen);
    }
    hide Held;
  }

  lemma DrainKeeps<T>(s: Stage<T>, a: Action<T>)
    requires Inv(s) && Allowed(s, Drain(a)) && !a.PublishTail?
    ensures Inv(Do(s, Drain(a)))
  {
    hide Accounted, Spsc.Inv, Spsc.Do;
    PopSteps(s.ring, a);
    StillAccounted(s, Do(s, Drain(a)));
  }

  lemma StillAccounted<T>(s: Stage<T>, n: Stage<T>)
    requires Accounted(s) && n.ring.popped == s.ring.popped && n.handled == s.handled && n.dropped == s.dropped
    ensures Accounted(n)
  {
  }

  lemma PublishKeeps<T>(s: Stage<T>)
    requires Inv(s) && Allowed(s, Drain(PublishTail))
    ensures Inv(Do(s, Drain(PublishTail)))
  {
    hide Spsc.Inv, Spsc.Do, AllBut;
    PopSteps(s.ring, PublishTail);
    KeptOne(s.ring.popped, s.handled, s.dropped, s.ring.consumer.out);
    assert s.dropped == [] ==> s.dropped + [s.ring.consumer.out] == [s.ring.consumer.out];
  }

  lemma DoKeepsStage<T>(s: Stage<T>, m: Move<T>)
    requires Inv(s) && Allowed(s, m)
    ensures Inv(Do(s, m)) && Do(s, m).keeps == s.keeps
  {
    match m
    case Fill(a) => FillKeeps(s, a);
    case Drain(a) =>
      if a.PublishTail? {
        PublishKeeps(s);
      } else {
        DrainKeeps(s, a);
      }
    case Accept(_) => hide Spsc.Inv, AllBut;
    case Finish => hide Spsc.Inv, AllBut;
    case ReadFlag(_) => hide Spsc.Inv, AllBut;
  }

  // ----- whole runs

  predicate CanRun<T(==)>(s: Stage<T>, moves: seq<Move<T>>)
    decreases |moves|
  {
    moves == [] || (Allowed(s, moves[0]) && CanRun(Do(s, moves[0]), moves[1..]))
  }

  function Run<T>(s: Stage<T>, moves: seq<Move<T>>): Stage<T>
    requires CanRun(s, moves)
    decreases |moves|
  {
    if moves == [] then s else Run(Do(s, moves[0]), moves[1..])
  }

  lemma {:induction false} RunKeeps<T>(s: Stage<T>, moves: seq<Move<T>>)
    requires Inv(s) && CanRun(s, moves)
    ensures Inv(Run(s, moves)) && Run(s, moves).keeps == s.keeps
    decreases |moves|
  {
    if moves != [] {
      DoKeepsStage(s, moves[0]);
      hide Inv, Do, Allowed;
      RunKeeps(Do(s, moves[0]), moves[1..]);
    }
  }

  lemma StartHolds<T>(mask: nat, slots: seq<T>, keeps: bool)
    requires |slots| == mask + 1
    ensures Inv(Start(mask, slots, keeps))
  {
    var none: seq<T> := [];
    assert none == none[..0] + none + none[0..];
  }

  /** No stage is ever stuck: the drainer can move until it exits, and may miss a flag just raised; the filler can
      move until it finishes. */
  lemma StageNeverStuck<T>(s: Stage<T>, v: T)
    requires Inv(s)
    ensures s.at == LookAtFlag ==> Allowed(s, ReadFlag(false)) && (Allowed(s, ReadFlag(true)) <==> s.done)
    ensures s.at == FirstPop || s.at == SecondPop ==> exists a: Action<T> :: a.ByConsumer() && Allowed(s, Drain(a))
    ensures s.spinning.None? && !s.done ==> Allowed(s, Accept(v)) && Allowed(s, Finish)
    ensures s.spinning.Some? ==> exists a: Action<T> :: !a.ByConsumer() && Allowed(s, Fill(a))
  {
    hide Spsc.Inv, Accounted;
    var r := s.ring;
    NeverStuck(r, v);
    SeenInRange(r);
    if s.spinning.Some? {
      var a := match r.producer
        case NotPushing => StartPush(s.spinning.value)
        case RecheckingTail(_) => ReloadTail(|r.popped|)
        case StoringSlot(_) => StoreSlot
        case PublishingHead(_) => PublishHead;
      NeverStuck(r, s.spinning.value);
      assert Allowed(s, Fill(a));
    }
    if s.at == FirstPop || s.at == SecondPop {
      var a := match r.consumer
        case NotPopping => StartPop
        case RecheckingHead => ReloadHead(|r.pushed|)
        case LoadingSlot => LoadSlot
        case PublishingTail(_) => PublishTail;
      assert Allowed(s, Drain(a));
    }
  }

  lemma SeenInRange<T>(r: Ring<T>)
    requires Spsc.Inv(r)
    ensures r.tailSeen <= |r.popped| && r.headSeen <= |r.pushed|
  {
  }

  /** When the draining loop exits, in any interleaving: the filling stage has finished, the ring is
      empty, everything accepted was popped once and in order, and at most one item popped was not
      handled. With the second pop's item handled, none is lost. */
  lemma ExitIsClean<T>(mask: nat, slots: seq<T>, keeps: bool, moves: seq<Move<T>>)
    requires |slots| == mask + 1 && CanRun(Start(mask, slots, keeps), moves)
    requires Run(Start(mask, slots, keeps), moves).at == Exited
    ensures var s := Run(Start(mask, slots, keeps), moves);
      && s.done && s.ring.popped == s.ring.pushed == s.accepted
      && |s.dropped| <= 1 && AllBut(s.accepted, s.handled, s.dropped)
      && (keeps ==> s.handled == s.accepted)
  {
    StartHolds(mask, slots, keeps);
    RunKeeps(Start(mask, slots, keeps), moves);
    var s := Run(Start(mask, slots, keeps), moves);
    var k :| 0 <= k <= |s.handled| && s.ring.popped == s.handled[..k] + s.dropped + s.handled[k..];
    assert s.handled == s.handled[..k] + s.handled[k..];
  }

  /** The drainer finds the flag up while the ring still holds an item. */
  predicate FlagBeforeItem<T(==)>(s: Stage<T>, m: Move<T>) {
    m.ReadFlag? && m.raised && |s.ring.popped| < |s.ring.pushed|
  }

  predicate EverFlagBeforeItem<T(==)>(s: Stage<T>, moves: seq<Move<T>>)
    requires CanRun(s, moves)
    decreases |moves|
  {
    moves != [] && (FlagBeforeItem(s, moves[0]) || EverFlagBeforeItem(Do(s, moves[0]), moves[1..]))
  }

  /** An item has been lost, or the second pop under way will lose one. */
  ghost predicate Losing<T>(s: Stage<T>) {
    s.dropped != [] || (s.at == SecondPop && |s.ring.popped| < |s.ring.pushed|)
  }

  lemma DrainLoses<T>(s: Stage<T>, a: Action<T>)
    requires Inv(s) && Allowed(s, Drain(a)) && !s.keeps
    ensures Losing(Do(s, Drain(a))) <==> Losing(s)
  {
    hide Held, Spsc.Do, Accounted;
    PopSteps(s.ring, a);
  }

  lemma StepLoses<T>(s: Stage<T>, m: Move<T>)
    requires Inv(s) && Allowed(s, m) && !s.keeps
    ensures Losing(Do(s, m)) <==> Losing(s) || FlagBeforeItem(s, m)
  {
    hide Spsc.Inv, Accounted;
    if m.Drain? {
      DrainLoses(s, m.a);
    }
  }

  lemma {:induction false} RunLoses<T>(s: Stage<T>, moves: seq<Move<T>>)
    requires Inv(s) && CanRun(s, moves) && !s.keeps
    ensures Losing(Run(s, moves)) <==> Losing(s) || EverFlagBeforeItem(s, moves)
    decreases |moves|
  {
    if moves != [] {
      StepLoses(s, moves[0]);
      DoKeepsStage(s, moves[0]);
      hide Inv, Do, Allowed, Losing, FlagBeforeItem;
      RunLoses(Do(s, moves[0]), moves[1..]);
    }
  }

  /** The loop as written handles everything accepted exactly when the drainer never finds the flag up
      while an item is still in the ring: one that went in after its first pop had found nothing. */
  lemma NothingLostIff<T>(mask: nat, slots: seq<T>, moves: seq<Move<T>>)
    requires |slots| == mask + 1 && CanRun(Start(mask, slots, false), moves)
    requires Run(Start(mask, slots, false), moves).at == Exited
    ensures Run(Start(mask, slots, false), moves).handled == Run(Start(mask, slots, false), moves).accepted
      <==> !EverFlagBeforeItem(Start(mask, slots, false), moves)
  {
    StartHolds(mask, slots, false);
    ExitIsClean(mask, slots, false, moves);
    RunLoses(Start(mask, slots, false), moves);
    var s := Run(Start(mask, slots, false), moves);
    hide Inv, Run, CanRun, EverFlagBeforeItem;
    var k :| 0 <= k <= |s.handled| && s.accepted == s.handled[..k] + s.dropped + s.handled[k..];
    assert |s.accepted| == |s.handled| + |s.dropped|;
    assert s.dropped == [] ==> s.handled == s.handled[..k] + s.handled[k..];
  }

  // ----- a whole passage through such a pair of stages

  /** A ring, empty at first, and a run of the two stages around it, with the loop as written. */
  datatype Passage<T> = Passage(mask: nat, slots: seq<T>, moves: seq<Move<T>>)

  function Begin<T>(p: Passage<T>): Stage<T> {
    Start(p.mask, p.slots, false)
  }

  /** The run takes in `items`, in this order, and ends with the draining loop's exit. */
  ghost predicate Takes<T>(p: Passage<T>, items: seq<T>) {
    && |p.slots| == p.mask + 1 && CanRun(Begin(p), p.moves)
    && Run(Begin(p), p.moves).at == Exited && Run(Begin(p), p.moves).accepted == items
  }

  /** The items the draining loop handles. */
  function Passed<T>(p: Passage<T>): seq<T>
    requires CanRun(Begin(p), p.moves)
  {
    Run(Begin(p), p.moves).handled
  }

  /** The drainer never finds the flag up while an item is in the ring. */
  predicate Clean<T(==)>(p: Passage<T>)
    requires CanRun(Begin(p), p.moves)
  {
    !EverFlagBeforeItem(Begin(p), p.moves)
  }

  /** What goes in comes out, but for at most the item at place `k`; all of it exactly when the passage is clean. */
  lemma PassageKeeps<T>(p: Passage<T>, items: seq<T>) returns (k: nat, lost: nat)
    requires Takes(p, items)
    ensures lost <= 1 && k + lost <= |items| && Passed(p) == items[..k] + items[k + lost..]
    ensures Clean(p) <==> lost == 0
  {
    hide Run, CanRun, EverFlagBeforeItem, AllBut;
    ExitIsClean(p.mask, p.slots, false, p.moves);
    NothingLostIff(p.mask, p.slots, p.moves);
    var s := Run(Begin(p), p.moves);
    lost := |s.dropped|;
    k := KeptAround(items, s.handled, s.dropped);
  }

  lemma KeptAround<T>(all: seq<T>, kept: seq<T>, lost: seq<T>) returns (k: nat)
    requires AllBut(all, kept, lost)
    ensures k + |lost| <= |all| == |kept| + |lost| && kept == all[..k] + all[k + |lost|..]
    ensures lost == [] ==> kept == all
  {
    k :| 0 <= k <= |kept| && all == kept[..k] + lost + kept[k..];
    assert all[..k] == kept[..k] && all[k + |lost|..] == kept[k..];
    assert kept == kept[..k] + kept[k..];
  }

  /** The run of the counterexample, on a ring of one usable slot: before the request, with the request
      in, with the request popped and overwritten. */
  function Waiting<T>(v: T): Stage<T> {
    Start(1, [v, v], false).(at := LookAtFlag)
  }

  function Arrived<T>(v: T): Stage<T> {
    Waiting(v).(ring := Waiting(v).ring.(head := 1, pushed := [v]), accepted := [v], done := true)
  }

  function Reading<T>(v: T): Stage<T> {
    Arrived(v).(ring := Arrived(v).ring.(cachedHead := 1, headSeen := 1, consumer := LoadingSlot),
                at := SecondPop, floor := 1)
  }

  function Overwritten<T>(v: T): Stage<T> {
    Arrived(v).(ring := Arrived(v).ring.(tail := 1, cachedHead := 1, popped := [v], headSeen := 1),
                at := FirstPop, floor := 1, dropped := [v])
  }

  lemma Waits<T>(v: T) returns (moves: seq<Move<T>>)
    ensures CanRun(Start(1, [v, v], false), moves) && Run(Start(1, [v, v], false), moves) == Waiting(v)
  {
    var s0 := Start(1, [v, v], false);
    moves := [];
    var s := s0;
    assert CanRun(s0, []) && Run(s0, []) == s0;
    hide CanRun, Run;
    moves, s := Then(s0, moves, s, Drain(StartPop));
    moves, s := Then(s0, moves, s, Drain(ReloadHead(0)));
  }

  lemma Arrives<T>(v: T) returns (moves: seq<Move<T>>)
    ensures CanRun(Start(1, [v, v], false), moves) && Run(Start(1, [v, v], false), moves) == Arrived(v)
  {
    var s0 := Start(1, [v, v], false);
    moves := Waits(v);
    hide CanRun, Run;
    var s := Waiting(v);
    moves, s := Then(s0, moves, s, Accept(v));
    moves, s := Then(s0, moves, s, Fill(StartPush(v)));
    moves, s := Then(s0, moves, s, Fill(StoreSlot));
    moves, s := Then(s0, moves, s, Fill(PublishHead));
    moves, s := Then(s0, moves, s, Finish);
    assert s.ring.slots == [v, v];
  }

  lemma Reads<T>(v: T) returns (moves: seq<Move<T>>)
    ensures CanRun(Start(1, [v, v], false), moves) && Run(Start(1, [v, v], false), moves) == Reading(v)
  {
    var s0 := Start(1, [v, v], false);
    moves := Arrives(v);
    hide CanRun, Run;
    var s := Arrived(v);
    moves, s := Then(s0, moves, s, ReadFlag(true));
    moves, s := Then(s0, moves, s, Drain(StartPop));
    moves, s := Then(s0, moves, s, Drain(ReloadHead(1)));
  }

  lemma Overwrites<T>(v: T) returns (moves: seq<Move<T>>)
    ensures CanRun(Start(1, [v, v], false), moves) && Run(Start(1, [v, v], false), moves) == Overwritten(v)
  {
    var s0 := Start(1, [v, v], false);
    moves := Reads(v);
    hide CanRun, Run;
    var s := Reading(v);
    moves, s := Then(s0, moves, s, Drain(LoadSlot));
    moves, s := Then(s0, moves, s, Drain(PublishTail));
  }

  /** A run that loses a request: it arrives, and the flag goes up, between the first pop and the look
      at the flag. */
  lemma LateRequestIsLost<T>(v: T) returns (moves: seq<Move<T>>)
    ensures CanRun(Start(1, [v, v], false), moves)
    ensures var s := Run(Start(1, [v, v], false), moves); s.at == Exited && s.accepted == [v] && s.handled == []
  {
    var s0 := Start(1, [v, v], false);
    moves := Overwrites(v);
    hide CanRun, Run;
    var s := Overwritten(v);
    moves, s := Then(s0, moves, s, Drain(StartPop));
    moves, s := Then(s0, moves, s, Drain(ReloadHead(1)));
    moves, s := Then(s0, moves, s, ReadFlag(true));
    moves, s := Then(s0, moves, s, Drain(StartPop));
    moves, s := Then(s0, moves, s, Drain(ReloadHead(1)));
  }

  /** One more move at the end of a run. */
  lemma {:induction false} Then<T>(s: Stage<T>, moves: seq<Move<T>>, at: Stage<T>, m: Move<T>)
    returns (more: seq<Move<T>>, next: Stage<T>)
    requires CanRun(s, moves) && Run(s, moves) == at && Allowed(at, m)
    ensures more == moves + [m] && next == Do(at, m) && CanRun(s, more) && Run(s, more) == next
    decreases |moves|
  {
    more, next := moves + [m], Do(at, m);
    if moves == [] {
      assert more[1..] == [];
    } else {
      assert more[1..] == moves[1..] + [m];
      var rest, end := Then(Do(s, moves[0]), moves[1..], at, m);
    }
  }
}
