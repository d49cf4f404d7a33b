/** The single-producer single-consumer ring of include/pricetime/spsc_queue.hpp: its two calls as
    sequences of atomic steps that interleave in any order, each side working from its own, possibly
    stale, copy of the other side's index. */
module Spsc {
  import opened Arith

  /** Where the producer stands inside `try_push`. */
  datatype Pushing<T> = NotPushing | RecheckingTail(v: T) | StoringSlot(v: T) | PublishingHead(v: T)

  /** Where the consumer stands inside `try_pop`. */
  datatype Popping<T> = NotPopping | RecheckingHead | LoadingSlot | PublishingTail(out: T)

  /** The shared memory, both sides' private state, and what has gone in and come out so far. The last
      two numbers are not memory: they say after how many pops and pushes the cached indices were current. */
  datatype Ring<T> = Ring(
    mask: nat, slots: seq<T>, head: nat, cachedTail: nat, tail: nat, cachedHead: nat,
    producer: Pushing<T>, consumer: Popping<T>,
    pushed: seq<T>, popped: seq<T>, tailSeen: nat, headSeen: nat)

  function Empty<T>(mask: nat, slots: seq<T>): Ring<T> {
    Ring(mask, slots, 0, 0, 0, 0, NotPushing, NotPopping, [], [], 0, 0)
  }

  /** One step of one side. An acquire load of the other side's index may return any value that side
      has published since the value last seen: the one it had after `seen` pops, or pushes. */
  datatype Action<T> =
    | StartPush(v: T)
    | ReloadTail(seen: nat)
    | StoreSlot
    | PublishHead
    | StartPop
    | ReloadHead(seen: nat)
    | LoadSlot
    | PublishTail
  {
    predicate ByConsumer() {
      StartPop? || ReloadHead? || LoadSlot? || PublishTail?
    }
  }

  function Next(i: nat, mask: nat): nat {
    (i + 1) % (mask + 1)
  }

  predicate Enabled<T>(r: Ring<T>, a: Action<T>) {
    match a
    case StartPush(_) => r.producer.NotPushing?
    case ReloadTail(seen) => r.producer.RecheckingTail? && r.tailSeen <= seen <= |r.popped|
    case StoreSlot => r.producer.StoringSlot? && r.head < |r.slots|
    case PublishHead => r.producer.PublishingHead?
    case StartPop => r.consumer.NotPopping?
    case ReloadHead(seen) => r.consumer.RecheckingHead? && r.headSeen <= seen <= |r.pushed|
    case LoadSlot => r.consumer.LoadingSlot? && r.tail < |r.slots|
    case PublishTail => r.consumer.PublishingTail?
  }

  function Do<T>(r: Ring<T>, a: Action<T>): Ring<T>
    requires Enabled(r, a)
  {
    match a
    case StartPush(v) =>
      r.(producer := if Next(r.head, r.mask) == r.cachedTail then RecheckingTail(v) else StoringSlot(v))
    case ReloadTail(seen) =>
      var index := seen % (r.mask + 1);
      r.(cachedTail := index, tailSeen := seen,
         producer := if Next(r.head, r.mask) == index then NotPushing else StoringSlot(r.producer.v))
    case StoreSlot => r.(slots := r.slots[r.head := r.producer.v], producer := PublishingHead(r.producer.v))
    case PublishHead => r.(head := Next(r.head, r.mask), pushed := r.pushed + [r.producer.v], producer := NotPushing)
    case StartPop => r.(consumer := if r.tail == r.cachedHead then RecheckingHead else LoadingSlot)
    case ReloadHead(seen) =>
      var index := seen % (r.mask + 1);
      r.(cachedHead := index, headSeen := seen, consumer := if r.tail == index then NotPopping else LoadingSlot)
    case LoadSlot => r.(consumer := PublishingTail(r.slots[r.tail]))
    case PublishTail => r.(tail := Next(r.tail, r.mask), popped := r.popped + [r.consumer.out], consumer := NotPopping)
  }

  // ----- the invariant

  /** The slot item `i` of the stream lives in. */
  function SlotOf<T>(r: Ring<T>, i: nat): nat {
    i % (r.mask + 1)
  }

  /** Every index is the remainder of a count, and the counts are ordered. */
  ghost predicate Counted<T>(r: Ring<T>) {
    && |r.slots| == r.mask + 1
    && r.head == SlotOf(r, |r.pushed|) && r.tail == SlotOf(r, |r.popped|)
    && r.cachedTail == SlotOf(r, r.tailSeen) && r.cachedHead == SlotOf(r, r.headSeen)
    && r.tailSeen <= |r.popped| <= r.headSeen <= |r.pushed| <= r.tailSeen + r.mask
    && (r.producer.StoringSlot? || r.producer.PublishingHead? ==> |r.pushed| < r.tailSeen + r.mask)
    && (r.consumer.LoadingSlot? || r.consumer.PublishingTail? ==> |r.popped| < r.headSeen)
  }

  /** What was popped is what was pushed first, and the slots hold the rest. */
  ghost predicate Held<T>(r: Ring<T>) {
    && |r.popped| <= |r.pushed| && r.popped == r.pushed[..|r.popped|]
    && (forall i :: |r.popped| <= i < |r.pushed| && SlotOf(r, i) < |r.slots| ==> r.slots[SlotOf(r, i)] == r.pushed[i])
    && (r.producer.PublishingHead? && r.head < |r.slots| ==> r.slots[r.head] == r.producer.v)
    && (r.consumer.PublishingTail? ==> |r.popped| < |r.pushed| && r.consumer.out == r.pushed[|r.popped|])
  }

  ghost predicate Inv<T>(r: Ring<T>) {
    Counted(r) && Held(r)
  }

  /** Counts less than the number of slots apart are in different slots. */
  lemma SlotsDiffer(i: nat, j: nat, slots: nat)
    requires i < j < i + slots
    ensures i % slots != j % slots
  {
    var d := j / slots - i / slots;
    MulApart(d, slots);
    assert d * slots == j - i - (j % slots - i % slots);
  }

  lemma NextIs(i: nat, mask: nat)
    ensures Next(i % (mask + 1), mask) == (i + 1) % (mask + 1)
  {
    var n := mask + 1;
    var q, r := i / n, i % n;
    if r + 1 < n {
      ModIs(i + 1, n, q, r + 1);
      ModIs(r + 1, n, 0, r + 1);
    } else {
      ModIs(i + 1, n, q + 1, 0);
      ModIs(r + 1, n, 1, 0);
    }
  }

  /** The producer's test against its cached tail tells a full queue from one with room. */
  lemma FullIff<T>(r: Ring<T>, seen: nat)
    requires r.head == SlotOf(r, |r.pushed|) && seen <= |r.pushed| <= seen + r.mask
    ensures Next(r.head, r.mask) == seen % (r.mask + 1) <==> |r.pushed| == seen + r.mask
  {
    NextIs(|r.pushed|, r.mask);
    if |r.pushed| == seen + r.mask {
      ModShift(seen, r.mask + 1);
    } else {
      SlotsDiffer(seen, |r.pushed| + 1, r.mask + 1);
    }
  }

  lemma EmptyIff<T>(r: Ring<T>, seen: nat)
    requires r.tail == SlotOf(r, |r.popped|) && |r.popped| <= seen <= |r.popped| + r.mask
    ensures r.tail == seen % (r.mask + 1) <==> |r.popped| == seen
  {
    if |r.popped| < seen {
      SlotsDiffer(|r.popped|, seen, r.mask + 1);
    }
  }

  /** No item still to be read lives in the slot the producer is about to overwrite. */
  lemma WriteIsSafe<T>(r: Ring<T>)
    requires Inv(r) && r.producer.StoringSlot?
    ensures forall i :: |r.popped| <= i < |r.pushed| ==> SlotOf(r, i) != r.head
    ensures r.consumer.LoadingSlot? ==> r.tail != r.head
  {
    forall i | |r.popped| <= i < |r.pushed|
      ensures SlotOf(r, i) != r.head
    {
      SlotsDiffer(i, |r.pushed|, r.mask + 1);
    }
  }

  /** The slot the consumer is about to read was published, and holds the oldest item not yet popped. */
  lemma ReadIsSafe<T>(r: Ring<T>)
    requires Inv(r) && r.consumer.LoadingSlot?
    ensures |r.popped| < |r.pushed| && r.slots[r.tail] == r.pushed[|r.popped|]
  {
    assert SlotOf(r, |r.popped|) == r.tail;
  }

  lemma PushKeeps<T>(r: Ring<T>, a: Action<T>)
    requires Inv(r) && Enabled(r, a) && !a.ByConsumer()
    ensures Inv(Do(r, a))
  {
    match a
    case StartPush(v) => FullIff(r, r.tailSeen);
    case ReloadTail(seen) => FullIff(r, seen);
    case StoreSlot => WriteIsSafe(r);
    case PublishHead => NextIs(|r.pushed|, r.mask);
  }

  lemma PopKeeps<T>(r: Ring<T>, a: Action<T>)
    requires Inv(r) && Enabled(r, a) && a.ByConsumer()
    ensures Inv(Do(r, a))
  {
    match a
    case StartPop => EmptyIff(r, r.headSeen);
    case ReloadHead(seen) => EmptyIff(r, seen);
    case LoadSlot => ReadIsSafe(r);
    case PublishTail => NextIs(|r.popped|, r.mask);
  }

  lemma DoKeeps<T>(r: Ring<T>, a: Action<T>)
    requires Inv(r) && Enabled(r, a)
    ensures Inv(Do(r, a))
  {
    hide Inv, Do, Enabled;
    if a.ByConsumer() {
      PopKeeps(r, a);
    } else {
      PushKeeps(r, a);
    }
  }

  // ----- whole runs

  predicate CanRun<T>(r: Ring<T>, acts: seq<Action<T>>)
    decreases |acts|
  {
    acts == [] || (Enabled(r, acts[0]) && CanRun(Do(r, acts[0]), acts[1..]))
  }

  function Run<T>(r: Ring<T>, acts: seq<Action<T>>): Ring<T>
    requires CanRun(r, acts)
    decreases |acts|
  {
    if acts == [] then r else Run(Do(r, acts[0]), acts[1..])
  }

  lemma {:induction false} RunKeeps<T>(r: Ring<T>, acts: seq<Action<T>>)
    requires Inv(r) && CanRun(r, acts)
    ensures Inv(Run(r, acts)) && Run(r, acts).mask == r.mask
    decreases |acts|
  {
    if acts != [] {
      DoKeeps(r, acts[0]);
      hide Inv, Enabled;
      RunKeeps(Do(r, acts[0]), acts[1..]);
    }
  }

  /** What has been popped is what was pushed first, in order; no more than the capacity is in flight;
      the producer is not about to overwrite an item still to be read; and the consumer is not about to
      read a slot that does not hold the oldest published item. */
  ghost predicate Safe<T>(r: Ring<T>) {
    && r.popped <= r.pushed && |r.pushed| - |r.popped| <= r.mask
    && (r.producer.StoringSlot? ==>
          r.head < |r.slots| && forall i :: |r.popped| <= i < |r.pushed| ==> SlotOf(r, i) != r.head)
    && (r.consumer.LoadingSlot? ==>
          |r.popped| < |r.pushed| && r.tail < |r.slots| && r.slots[r.tail] == r.pushed[|r.popped|])
  }

  /** Each side always has a step to take, and a load may return anything from what was last seen up to what has
      been published. */
  lemma NeverStuck<T>(r: Ring<T>, v: T)
    requires Inv(r)
    ensures match r.producer
            case NotPushing => Enabled(r, StartPush(v))
            case RecheckingTail(_) =>
              && r.tailSeen <= |r.popped|
              && forall seen :: r.tailSeen <= seen <= |r.popped| ==> Enabled(r, ReloadTail(seen))
            case StoringSlot(_) => Enabled(r, StoreSlot)
            case PublishingHead(_) => Enabled(r, PublishHead)
    ensures match r.consumer
            case NotPopping => Enabled(r, StartPop)
            case RecheckingHead =>
              && r.headSeen <= |r.pushed|
              && forall seen :: r.headSeen <= seen <= |r.pushed| ==> Enabled(r, ReloadHead(seen))
            case LoadingSlot => Enabled(r, LoadSlot)
            case PublishingTail(_) => Enabled(r, PublishTail)
  {
    hide Held;
  }

  /** Every interleaving of the two sides' steps is safe, however stale their loads. */
  lemma AnyRunIsSafe<T>(mask: nat, slots: seq<T>, acts: seq<Action<T>>)
    requires |slots| == mask + 1 && CanRun(Empty(mask, slots), acts)
    ensures var r := Run(Empty(mask, slots), acts); r.mask == mask && Safe(r)
  {
    assert Inv(Empty(mask, slots));
    RunKeeps(Empty(mask, slots), acts);
    var r := Run(Empty(mask, slots), acts);
    if r.producer.StoringSlot? {
      WriteIsSafe(r);
    }
    if r.consumer.LoadingSlot? {
      ReadIsSafe(r);
    }
  }

  /** `try_push` gives up exactly when the tail it loaded, current or stale, leaves no room; so it never
      gives up on a queue whose consumer it has seen catch up. */
  lemma RefusedPushIff<T>(r: Ring<T>, seen: nat)
    requires Inv(r) && Enabled(r, ReloadTail(seen))
    ensures Do(r, ReloadTail(seen)).producer.NotPushing? <==> |r.pushed| - seen == r.mask
  {
    FullIff(r, seen);
  }

  /** `try_pop` gives up exactly when everything published up to the load has been popped. */
  lemma RefusedPopIff<T>(r: Ring<T>, seen: nat)
    requires Inv(r) && Enabled(r, ReloadHead(seen))
    ensures Do(r, ReloadHead(seen)).consumer.NotPopping? <==> seen == |r.popped|
  {
    EmptyIff(r, seen);
  }

  // ----- the queue as one thread at a time uses it

  /** A push with nothing in between: the load sees the tail as it is. */
  function PushAlone<T>(r: Ring<T>, v: T): Ring<T>
    requires Inv(r) && r.producer.NotPushing?
  {
    DoKeeps(r, StartPush(v));
    var a := Do(r, StartPush(v));
    var b := if a.producer.RecheckingTail?
             then (DoKeeps(a, ReloadTail(|a.popped|)); Do(a, ReloadTail(|a.popped|))) else a;
    if b.producer.NotPushing? then b else Do(Do(b, StoreSlot), PublishHead)
  }

  function PopAlone<T>(r: Ring<T>): Ring<T>
    requires Inv(r) && r.consumer.NotPopping?
  {
    DoKeeps(r, StartPop);
    var a := Do(r, StartPop);
    var b := if a.consumer.RecheckingHead?
             then (DoKeeps(a, ReloadHead(|a.pushed|)); Do(a, ReloadHead(|a.pushed|))) else a;
    if b.consumer.NotPopping? then b else Do(Do(b, LoadSlot), PublishTail)
  }

  lemma PushAloneIs<T>(r: Ring<T>, v: T)
    requires Inv(r) && r.producer.NotPushing?
    ensures var n := PushAlone(r, v);
      && Inv(n) && n.producer.NotPushing? && n.consumer == r.consumer && n.popped == r.popped
      && n.pushed == if |r.pushed| - |r.popped| < r.mask then r.pushed + [v] else r.pushed
  {
    DoKeeps(r, StartPush(v));
    FullIff(r, r.tailSeen);
    var a := Do(r, StartPush(v));
    if a.producer.RecheckingTail? {
      DoKeeps(a, ReloadTail(|a.popped|));
      FullIff(a, |a.popped|);
    }
    var b := if a.producer.RecheckingTail? then Do(a, ReloadTail(|a.popped|)) else a;
    if !b.producer.NotPushing? {
      DoKeeps(b, StoreSlot);
      DoKeeps(Do(b, StoreSlot), PublishHead);
    }
    hide Inv;
  }

  lemma Bounds<T>(r: Ring<T>)
    requires Inv(r)
    ensures |r.slots| == r.mask + 1 && r.head < |r.slots| && r.tail < |r.slots|
    ensures r.tail == |r.popped| % (r.mask + 1) && r.head == |r.pushed| % (r.mask + 1)
  {
  }

  lemma PopAloneIs<T>(r: Ring<T>)
    requires Inv(r) && r.consumer.NotPopping?
    ensures var n := PopAlone(r);
      && Inv(n) && n.consumer.NotPopping? && n.producer == r.producer && n.pushed == r.pushed
      && n.popped == if |r.popped| < |r.pushed| then r.pushed[..|r.popped| + 1] else r.popped
  {
    DoKeeps(r, StartPop);
    EmptyIff(r, r.headSeen);
    var a := Do(r, StartPop);
    if a.consumer.RecheckingHead? {
      DoKeeps(a, ReloadHead(|a.pushed|));
      EmptyIff(a, |a.pushed|);
    }
    var b := if a.consumer.RecheckingHead? then Do(a, ReloadHead(|a.pushed|)) else a;
    if !b.consumer.NotPopping? {
      ReadIsSafe(b);
      DoKeeps(b, LoadSlot);
      DoKeeps(Do(b, LoadSlot), PublishTail);
    }
  }

  /** A push alone, as one call computes it. */
  lemma PushAloneForm<T>(r: Ring<T>, v: T)
    requires Inv(r) && r.producer.NotPushing?
    ensures var next := Next(r.head, r.mask);
      var seen := if next == r.cachedTail then r.(cachedTail := r.tail, tailSeen := |r.popped|) else r;
      && r.head < |r.slots|
      && PushAlone(r, v) ==
           if next == seen.cachedTail then seen
           else seen.(slots := r.slots[r.head := v], head := next, pushed := r.pushed + [v])
  {
    Bounds(r);
    hide Held;
  }

  /** A pop alone, as one call computes it. */
  lemma PopAloneForm<T>(r: Ring<T>)
    requires Inv(r) && r.consumer.NotPopping?
    ensures var seen := if r.tail == r.cachedHead then r.(cachedHead := r.head, headSeen := |r.pushed|) else r;
      && r.tail < |r.slots|
      && PopAlone(r) ==
           if r.tail == seen.cachedHead then seen
           else seen.(tail := Next(r.tail, r.mask), popped := r.popped + [r.slots[r.tail]])
  {
    Bounds(r);
    hide Held;
  }

  class SpscQueue<T(0)> {
    const mask: nat
    const slots: array<T>
    var head: nat
    var cachedTail: nat
    var tail: nat
    var cachedHead: nat

    ghost var pushed: seq<T>
    ghost var popped: seq<T>
    ghost var tailSeen: nat
    ghost var headSeen: nat

    ghost function Snapshot(): Ring<T>
      reads this, slots
    {
      Ring(mask, slots[..], head, cachedTail, tail, cachedHead, NotPushing, NotPopping,
           pushed, popped, tailSeen, headSeen)
    }

    ghost predicate Valid()
      reads this, slots
    {
      Inv(Snapshot())
    }

    /** At least `capacity` usable slots, one more kept free, and a power of two in all. */
    constructor (capacity: nat)
      ensures Valid() && pushed == [] && popped == [] && fresh(slots)
      ensures mask >= capacity && exists k: nat :: mask + 1 == Pow2(k) && (k > 0 ==> Pow2(k - 1) < capacity + 1)
    {
      var p, k := RoundUpPow2(capacity + 1);
      mask := p - 1;
      slots := new T[p];
      head, cachedTail, tail, cachedHead := 0, 0, 0, 0;
      pushed, popped, tailSeen, headSeen := [], [], 0, 0;
      new;
      assert mask + 1 == Pow2(k);
    }

    static method RoundUpPow2(n: nat) returns (p: nat, ghost k: nat)
      ensures p >= n && p == Pow2(k) && (k > 0 ==> Pow2(k - 1) < n)
    {
      p, k := 1, 0;
      while p < n
        invariant p == Pow2(k) && (k > 0 ==> Pow2(k - 1) < n)
        decreases n - p
      {
        p, k := 2 * p, k + 1;
      }
    }

    /** Fails exactly when the queue is full. */
    method TryPush(value: T) returns (ok: bool)
      requires Valid()
      modifies `head, `cachedTail, `pushed, `tailSeen, slots
      ensures Valid() && Snapshot() == PushAlone(old(Snapshot()), value)
      ensures ok <==> |old(pushed)| - |popped| < mask
      ensures pushed == if ok then old(pushed) + [value] else old(pushed)
    {
      hide Inv, PushAlone;
      Bounds(Snapshot());
      PushAloneForm(Snapshot(), value);
      PushAloneIs(Snapshot(), value);
      var next := (head + 1) % (mask + 1);
      if next == cachedTail {
        cachedTail := tail;
        tailSeen := |popped|;
        if next == cachedTail {
          return false;
        }
      }
      slots[head] := value;
      head := next;
      pushed := pushed + [value];
      return true;
    }

    /** Fails exactly when the queue is empty. */
    method TryPop(was: T) returns (ok: bool, out: T)
      requires Valid()
      modifies `tail, `cachedHead, `popped, `headSeen
      ensures Valid() && Snapshot() == PopAlone(old(Snapshot()))
      ensures ok <==> |old(popped)| < |pushed|
      ensures ok ==> out == pushed[|old(popped)|] && popped == old(popped) + [out]
      ensures !ok ==> out == was && popped == old(popped)
    {
      hide Inv, PopAlone;
      Bounds(Snapshot());
      PopAloneForm(Snapshot());
      PopAloneIs(Snapshot());
      out := was;
      if tail == cachedHead {
        cachedHead := head;
        headSeen := |pushed|;
        if tail == cachedHead {
          return false, was;
        }
      }
      out := slots[tail];
      tail := (tail + 1) % (mask + 1);
      popped := popped + [out];
      return true, out;
    }
  }
}
