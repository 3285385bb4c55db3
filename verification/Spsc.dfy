/** The single-producer single-consumer ring of include/order_book/spsc_queue.hpp. First the
    concurrent protocol: every atomic action of try_push and try_pop is one step, the two threads
    interleave in any order, and a load of the other thread's index may return any value between
    the last one seen and the current one. Then the class itself, whose calls are runs of these
    steps without interruption. */
module Spsc {
  import opened Types
  import opened Words

  // ---------------------------------------------------------------- the shared state

  /** The fields of SPSCQueue. */
  datatype Ring<T> = Ring(
    mask: uint64, slots: seq<T>, head: uint64, cachedTail: uint64, tail: uint64, cachedHead: uint64) {
    function SlotOf(counter: uint64): nat {
      BitAnd(counter, mask)
    }

    /** next - cached_tail_ > slots_.size(), in unsigned arithmetic */
    predicate LooksFull() {
      Minus(Plus(head, 1), cachedTail) > |slots|
    }

    predicate LooksEmpty() {
      tail == cachedHead
    }
  }

  /** Where the producer is; between calls it remembers what the last one returned. */
  datatype PushPc<T> = PushIdle(ok: bool) | PushLoad(v: T) | PushWrite(v: T) | PushPublish(v: T)

  datatype PopPc<T> = PopIdle(ok: bool) | PopLoad | PopRead | PopPublish(out: T)

  /** A ring with its two threads, and the history of published pushes and pops. `seenTail` is
      the unwrapped counter behind the producer's cached index, `seenHead` the consumer's. */
  datatype Sys<T> = Sys(
    ring: Ring<T>, producer: PushPc<T>, consumer: PopPc<T>,
    pushed: seq<T>, popped: seq<T>, seenTail: nat, seenHead: nat)

  datatype Action<T> =
    | CallPush(v: T) | LoadTail(n: nat) | WriteSlot | PublishHead
    | CallPop | LoadHead(n: nat) | MoveOut(junk: T) | PublishTail

  /** What a thread may do next. A load returns some value the counter has had, not older than
      the last one this thread has seen. */
  predicate Enabled<T>(s: Sys<T>, a: Action<T>) {
    match a
    case CallPush(_) => s.producer.PushIdle?
    case LoadTail(n) => s.producer.PushLoad? && s.seenTail <= n <= |s.popped|
    case WriteSlot => s.producer.PushWrite? && s.ring.SlotOf(s.ring.head) < |s.ring.slots|
    case PublishHead => s.producer.PushPublish?
    case CallPop => s.consumer.PopIdle?
    case LoadHead(n) => s.consumer.PopLoad? && s.seenHead <= n <= |s.pushed|
    case MoveOut(_) => s.consumer.PopRead? && s.ring.SlotOf(s.ring.tail) < |s.ring.slots|
    case PublishTail => s.consumer.PopPublish?
  }

  function Next<T>(s: Sys<T>, a: Action<T>): Sys<T>
    requires Enabled(s, a)
  {
    var r := s.ring;
    match a
    case CallPush(v) =>
      s.(producer := if r.LooksFull() then PushLoad(v) else PushWrite(v))
    case LoadTail(n) =>
      var r' := r.(cachedTail := n % TWO64);
      s.(ring := r', seenTail := n,
         producer := if r'.LooksFull() then PushIdle(false) else PushWrite(s.producer.v))
    case WriteSlot =>
      s.(ring := r.(slots := r.slots[r.SlotOf(r.head) := s.producer.v]), producer := PushPublish(s.producer.v))
    case PublishHead =>
      s.(ring := r.(head := Plus(r.head, 1)), pushed := s.pushed + [s.producer.v], producer := PushIdle(true))
    case CallPop =>
      s.(consumer := if r.LooksEmpty() then PopLoad else PopRead)
    case LoadHead(n) =>
      var r' := r.(cachedHead := n % TWO64);
      s.(ring := r', seenHead := n, consumer := if r'.LooksEmpty() then PopIdle(false) else PopRead)
    case MoveOut(junk) =>
      // the value is moved from, which leaves the slot holding anything
      s.(ring := r.(slots := r.slots[r.SlotOf(r.tail) := junk]), consumer := PopPublish(r.slots[r.SlotOf(r.tail)]))
    case PublishTail =>
      s.(ring := r.(tail := Plus(r.tail, 1)), popped := s.popped + [s.consumer.out], consumer := PopIdle(true))
  }

  // ---------------------------------------------------------------- the invariant

  /** A power of two that fits the index words; the constructor establishes it. */
  ghost predicate Sized<T>(r: Ring<T>) {
    exists k: nat :: k <= 63 && |r.slots| == Pow2(k) && r.mask == Pow2(k) - 1
  }

  ghost predicate Counters<T>(s: Sys<T>) {
    && s.ring.head == |s.pushed| % TWO64 && s.ring.cachedTail == s.seenTail % TWO64
    && s.ring.tail == |s.popped| % TWO64 && s.ring.cachedHead == s.seenHead % TWO64
    && s.seenTail <= |s.popped| <= s.seenHead <= |s.pushed| <= s.seenTail + |s.ring.slots|
    // the producer goes on to write only with room, the consumer to read only with a value
    && (s.producer.PushWrite? || s.producer.PushPublish? ==> |s.pushed| < s.seenTail + |s.ring.slots|)
    && (s.consumer.PopRead? || s.consumer.PopPublish? ==> |s.popped| < s.seenHead)
  }

  /** The slot of counter `i` holds the `i`-th pushed value from before it is published until
      the consumer has moved it out. */
  ghost predicate SlotsHold<T>(s: Sys<T>)
    requires |s.ring.slots| > 0 && |s.popped| <= |s.pushed|
  {
    var cap := |s.ring.slots|;
    && (forall i :: (if s.consumer.PopPublish? then |s.popped| + 1 else |s.popped|) <= i < |s.pushed|
          ==> s.ring.slots[i % cap] == s.pushed[i])
    && (s.producer.PushPublish? ==> s.ring.slots[|s.pushed| % cap] == s.producer.v)
    && (s.consumer.PopPublish? ==> |s.popped| < |s.pushed| && s.consumer.out == s.pushed[|s.popped|])
  }

  ghost predicate Inv<T>(s: Sys<T>) {
    Sized(s.ring) && |s.ring.slots| > 0 && Counters(s) && SlotsHold(s) && s.popped <= s.pushed
  }

  lemma SlotIndex<T>(r: Ring<T>, n: nat)
    requires Sized(r)
    ensures |r.slots| > 0 && |r.slots| < TWO64 && r.SlotOf(n % TWO64) == n % |r.slots|
  {
    var k: nat :| k <= 63 && |r.slots| == Pow2(k) && r.mask == Pow2(k) - 1;
    MaskIsRemainder(n % TWO64, k);
    WrapKeepsSlot(n, k);
  }

  /** The unsigned tests read the counters right in spite of wrap-around. */
  lemma TestsAreExact<T>(s: Sys<T>)
    requires Sized(s.ring) && Counters(s)
    ensures s.ring.LooksFull() <==> |s.pushed| == s.seenTail + |s.ring.slots|
    ensures s.ring.LooksEmpty() <==> |s.popped| == s.seenHead
  {
    SlotIndex(s.ring, 0);
    WordSuccessor(|s.pushed|);
    WordDistance(s.seenTail, |s.pushed| + 1);
    WordDistance(|s.popped|, s.seenHead);
  }

  /** A write to the slot of counter `w` spares the counters from `lo` to `hi` when all of
      them are less than a capacity away, on one side or the other. */
  lemma WriteSpares(cap: nat, w: nat, lo: nat, hi: nat)
    requires cap > 0 && ((hi <= w && w < lo + cap) || (w < lo && hi <= w + cap))
    ensures forall i :: lo <= i < hi ==> i % cap != w % cap
  {
    forall i | lo <= i < hi
      ensures i % cap != w % cap
    {
      if i < w {
        DifferentSlots(i, w, cap);
      } else {
        DifferentSlots(w, i, cap);
      }
    }
  }

  lemma WriteKeepsInv<T>(s: Sys<T>)
    requires Inv(s) && s.producer.PushWrite?
    ensures Enabled(s, WriteSlot) && Inv(Next(s, WriteSlot))
  {
    var cap, n := |s.ring.slots|, |s.pushed|;
    SlotIndex(s.ring, n);
    WriteSpares(cap, n, |s.popped|, n);
    assert Sized(Next(s, WriteSlot).ring);
  }

  lemma MoveOutKeepsInv<T>(s: Sys<T>, junk: T)
    requires Inv(s) && s.consumer.PopRead?
    ensures Enabled(s, MoveOut(junk)) && Inv(Next(s, MoveOut(junk)))
    ensures Next(s, MoveOut(junk)).consumer == PopPublish(s.pushed[|s.popped|])
  {
    var cap, n := |s.ring.slots|, |s.popped|;
    SlotIndex(s.ring, n);
    WriteSpares(cap, n, n + 1, |s.pushed|);
    if s.producer.PushPublish? {
      DifferentSlots(n, |s.pushed|, cap);
    }
    assert s.ring.slots[n % cap] == s.pushed[n];
    assert Sized(Next(s, MoveOut(junk)).ring);
  }

  lemma PublishHeadKeepsInv<T>(s: Sys<T>)
    requires Inv(s) && s.producer.PushPublish?
    ensures Inv(Next(s, PublishHead))
  {
    WordSuccessor(|s.pushed|);
    assert Sized(Next(s, PublishHead).ring);
  }

  lemma PublishTailKeepsInv<T>(s: Sys<T>)
    requires Inv(s) && s.consumer.PopPublish?
    ensures Inv(Next(s, PublishTail))
  {
    WordSuccessor(|s.popped|);
    assert Sized(Next(s, PublishTail).ring);
  }

  lemma LoadsKeepInv<T>(s: Sys<T>, a: Action<T>)
    requires Inv(s) && Enabled(s, a) && (a.CallPush? || a.LoadTail? || a.CallPop? || a.LoadHead?)
    ensures Inv(Next(s, a))
  {
    var s' := Next(s, a);
    assert Sized(s'.ring);
    TestsAreExact(s);
    if a.LoadTail? {
      TestsAreExact(s'.(producer := PushIdle(false)));
    }
    if a.LoadHead? {
      TestsAreExact(s'.(consumer := PopIdle(false)));
    }
  }

  lemma StepKeepsInv<T>(s: Sys<T>, a: Action<T>)
    requires Inv(s) && Enabled(s, a)
    ensures Inv(Next(s, a))
  {
    match a
    case WriteSlot => WriteKeepsInv(s);
    case MoveOut(junk) => MoveOutKeepsInv(s, junk);
    case PublishHead => PublishHeadKeepsInv(s);
    case PublishTail => PublishTailKeepsInv(s);
    case _ => LoadsKeepInv(s, a);
  }

  // ---------------------------------------------------------------- every interleaving

  ghost predicate Schedule<T>(s: Sys<T>, actions: seq<Action<T>>)
    decreases |actions|
  {
    actions == [] || (Enabled(s, actions[0]) && Schedule(Next(s, actions[0]), actions[1..]))
  }

  function After<T>(s: Sys<T>, actions: seq<Action<T>>): Sys<T>
    requires Schedule(s, actions)
    decreases |actions|
  {
    if actions == [] then s else After(Next(s, actions[0]), actions[1..])
  }

  /** Whatever the interleaving, however stale the loads and however often the counters have
      wrapped, values come out once each, in the order they went in, and never more than a
      capacity of them is inside. */
  lemma {:induction false} FirstInFirstOut<T>(s: Sys<T>, actions: seq<Action<T>>)
    requires Inv(s) && Schedule(s, actions)
    ensures var s' := After(s, actions);
            && Inv(s') && s'.popped <= s'.pushed
            && s.pushed <= s'.pushed && s.popped <= s'.popped
            && |s'.pushed| - |s'.popped| <= |s'.ring.slots| == |s.ring.slots|
    decreases |actions|
  {
    if actions != [] {
      StepKeepsInv(s, actions[0]);
      FirstInFirstOut(Next(s, actions[0]), actions[1..]);
    }
  }

  /** The values of the try_push calls that got as far as publishing, in the order of the calls;
      `pending` is the value of a call already under way. */
  function Pushes<T>(pending: Option<T>, actions: seq<Action<T>>): seq<T>
    decreases |actions|
  {
    if actions == [] then []
    else match actions[0]
      case CallPush(v) => Pushes(Some(v), actions[1..])
      case PublishHead => (if pending.Some? then [pending.value] else []) + Pushes(None, actions[1..])
      case _ => Pushes(pending, actions[1..])
  }

  ghost predicate IsPending<T>(pc: PushPc<T>, pending: Option<T>) {
    match pc
    case PushIdle(_) => true
    case PushLoad(v) => pending == Some(v)
    case PushWrite(v) => pending == Some(v)
    case PushPublish(v) => pending == Some(v)
  }

  /** The history of pushes is that of the calls: what comes out is what they were called with. */
  lemma {:induction false} PushedAreTheCalls<T>(s: Sys<T>, pending: Option<T>, actions: seq<Action<T>>)
    requires Inv(s) && Schedule(s, actions) && IsPending(s.producer, pending)
    ensures var s' := After(s, actions);
            s'.pushed == s.pushed + Pushes(pending, actions) && s'.popped <= s.pushed + Pushes(pending, actions)
    decreases |actions|
  {
    if actions != [] {
      var a, rest := actions[0], actions[1..];
      StepKeepsInv(s, a);
      var pending' := if a.CallPush? then Some(a.v) else if a.PublishHead? then None else pending;
      PendingFollows(s, a, pending);
      PushedAreTheCalls(Next(s, a), pending', rest);
    }
  }

  lemma PendingFollows<T>(s: Sys<T>, a: Action<T>, pending: Option<T>)
    requires Enabled(s, a) && IsPending(s.producer, pending)
    ensures IsPending(Next(s, a).producer,
                      if a.CallPush? then Some(a.v) else if a.PublishHead? then None else pending)
    ensures a.PublishHead? ==> pending.Some? && Next(s, a).pushed == s.pushed + [pending.value]
    ensures !a.PublishHead? ==> Next(s, a).pushed == s.pushed
  {
  }

  /** A thread in the middle of a call is never stuck: its next step is enabled, with the value
      it was called with, so both calls end within four steps of their own. */
  lemma NeverStuck<T>(s: Sys<T>, junk: T)
    requires Inv(s)
    ensures match s.producer
            case PushIdle(_) => true
            case PushLoad(_) => Enabled(s, LoadTail(|s.popped|))
            case PushWrite(v) => Enabled(s, WriteSlot) && Next(s, WriteSlot).producer == PushPublish(v)
            case PushPublish(v) => Enabled(s, PublishHead) && Next(s, PublishHead).pushed == s.pushed + [v]
    ensures match s.consumer
            case PopIdle(_) => true
            case PopLoad => Enabled(s, LoadHead(|s.pushed|))
            case PopRead => Enabled(s, MoveOut(junk))
            case PopPublish(out) => Enabled(s, PublishTail) && Next(s, PublishTail).popped == s.popped + [out]
  {
    SlotIndex(s.ring, |s.pushed|);
    SlotIndex(s.ring, |s.popped|);
  }

  /** A push fails exactly when the ring was full at the index it loaded, and with a fresh load
      exactly when it is full at that moment. */
  lemma PushFailsOnlyWhenFull<T>(s: Sys<T>, n: nat)
    requires Inv(s) && Enabled(s, LoadTail(n))
    ensures Next(s, LoadTail(n)).producer == PushIdle(false) <==> |s.pushed| - n == |s.ring.slots|
    ensures n == |s.popped| ==>
              (Next(s, LoadTail(n)).producer == PushIdle(false) <==> |s.pushed| - |s.popped| == |s.ring.slots|)
  {
    LoadsKeepInv(s, LoadTail(n));
    TestsAreExact(Next(s, LoadTail(n)));
  }

  /** A pop fails exactly when no value was published at the index it loaded. */
  lemma PopFailsOnlyWhenEmpty<T>(s: Sys<T>, n: nat)
    requires Inv(s) && Enabled(s, LoadHead(n))
    ensures Next(s, LoadHead(n)).consumer == PopIdle(false) <==> n == |s.popped|
    ensures n == |s.pushed| ==> (Next(s, LoadHead(n)).consumer == PopIdle(false) <==> s.popped == s.pushed)
  {
    LoadsKeepInv(s, LoadHead(n));
    TestsAreExact(Next(s, LoadHead(n)));
  }

  /** Loads may be stale: a push that looks full can load the old index again and be refused,
      however much room the consumer has made since; likewise a pop. */
  lemma StaleLoadsRefuse<T>(s: Sys<T>, v: T)
    requires Inv(s)
    ensures s.producer.PushIdle? && s.ring.LooksFull() ==>
              var s1 := Next(s, CallPush(v));
              Enabled(s1, LoadTail(s.seenTail)) && Next(s1, LoadTail(s.seenTail)).producer == PushIdle(false)
    ensures s.consumer.PopIdle? && s.ring.LooksEmpty() ==>
              var s1 := Next(s, CallPop);
              Enabled(s1, LoadHead(s.seenHead)) && Next(s1, LoadHead(s.seenHead)).consumer == PopIdle(false)
  {
  }

  /** The step that writes a slot never hits one whose value is still to be read. */
  lemma NoOverwrite<T>(s: Sys<T>, i: nat)
    requires Inv(s) && s.producer.PushWrite?
    requires |s.popped| <= i < |s.pushed|
    ensures s.ring.SlotOf(s.ring.head) != i % |s.ring.slots|
  {
    SlotIndex(s.ring, |s.pushed|);
    DifferentSlots(i, |s.pushed|, |s.ring.slots|);
  }

  // ---------------------------------------------------------------- the class

  /** A whole try_push with nobody in between: test, perhaps reload, write, publish. */
  function PushRun<T>(s: Sys<T>, v: T): (s': Sys<T>)
    requires Inv(s) && s.producer.PushIdle?
    ensures Inv(s') && s'.producer.PushIdle?
    ensures s'.popped == s.popped
    ensures s'.producer.ok <==> |s.pushed| - |s.popped| < |s.ring.slots|
    ensures s'.pushed == if s'.producer.ok then s.pushed + [v] else s.pushed
  {
    var s1 := Next(s, CallPush(v));
    LoadsKeepInv(s, CallPush(v));
    TestsAreExact(s);
    if s1.producer.PushLoad? then
      PushFailsOnlyWhenFull(s1, |s1.popped|);
      LoadsKeepInv(s1, LoadTail(|s1.popped|));
      FinishPush(Next(s1, LoadTail(|s1.popped|)))
    else FinishPush(s1)
  }

  function FinishPush<T>(s: Sys<T>): (s': Sys<T>)
    requires Inv(s) && (s.producer.PushWrite? || s.producer.PushIdle?)
    ensures Inv(s') && s'.producer.PushIdle? && s'.popped == s.popped
    ensures s.producer.PushIdle? ==> s' == s
    ensures s.producer.PushWrite? ==> s'.producer.ok && s'.pushed == s.pushed + [s.producer.v]
  {
    if s.producer.PushIdle? then s
    else
      WriteKeepsInv(s);
      PublishHeadKeepsInv(Next(s, WriteSlot));
      Next(Next(s, WriteSlot), PublishHead)
  }

  /** A whole try_pop with nobody in between; `junk` is what the moved-from slot keeps. */
  function PopRun<T>(s: Sys<T>): (s': Sys<T>)
    requires Inv(s) && s.consumer.PopIdle?
    ensures Inv(s') && s'.consumer.PopIdle?
    ensures s'.pushed == s.pushed
    ensures s'.consumer.ok <==> |s.popped| < |s.pushed|
    ensures s'.popped == if s'.consumer.ok then s.popped + [s.pushed[|s.popped|]] else s.popped
  {
    var s1 := Next(s, CallPop);
    LoadsKeepInv(s, CallPop);
    TestsAreExact(s);
    if s1.consumer.PopLoad? then
      PopFailsOnlyWhenEmpty(s1, |s1.pushed|);
      LoadsKeepInv(s1, LoadHead(|s1.pushed|));
      FinishPop(Next(s1, LoadHead(|s1.pushed|)))
    else FinishPop(s1)
  }

  function FinishPop<T>(s: Sys<T>): (s': Sys<T>)
    requires Inv(s) && (s.consumer.PopRead? || s.consumer.PopIdle?)
    ensures Inv(s') && s'.consumer.PopIdle? && s'.pushed == s.pushed
    ensures s.consumer.PopIdle? ==> s' == s
    ensures s.consumer.PopRead? ==>
              s'.consumer.ok && |s.popped| < |s.pushed| && s'.popped == s.popped + [s.pushed[|s.popped|]]
  {
    if s.consumer.PopIdle? then s
    else
      SlotIndex(s.ring, |s.popped|);
      var a := MoveOut(s.ring.slots[s.ring.SlotOf(s.ring.tail)]);
      MoveOutKeepsInv(s, a.junk);
      PublishTailKeepsInv(Next(s, a));
      Next(Next(s, a), PublishTail)
  }

  /** The producer's fields after an uninterrupted try_push. */
  lemma PushRunFields<T>(s: Sys<T>, v: T)
    requires Inv(s) && s.producer.PushIdle?
    ensures s.ring.SlotOf(s.ring.head) < |s.ring.slots|
    ensures var s1 := if s.ring.LooksFull() then s.(ring := s.ring.(cachedTail := s.ring.tail), seenTail := |s.popped|)
                      else s;
            PushRun(s, v) ==
            if s1.ring.LooksFull() then s1.(producer := PushIdle(false))
            else s1.(ring := s1.ring.(slots := s.ring.slots[s.ring.SlotOf(s.ring.head) := v],
                                      head := Plus(s.ring.head, 1)),
                     pushed := s.pushed + [v], producer := PushIdle(true))
  {
    Sound(s);
  }

  /** The consumer's fields after an uninterrupted try_pop. */
  lemma PopRunFields<T>(s: Sys<T>)
    requires Inv(s) && s.consumer.PopIdle?
    ensures s.ring.SlotOf(s.ring.tail) < |s.ring.slots|
    ensures var s1 := if s.ring.LooksEmpty() then s.(ring := s.ring.(cachedHead := s.ring.head), seenHead := |s.pushed|)
                      else s;
            var out := s.ring.slots[s.ring.SlotOf(s.ring.tail)];
            PopRun(s) ==
            if s1.ring.LooksEmpty() then s1.(consumer := PopIdle(false))
            else s1.(ring := s1.ring.(tail := Plus(s.ring.tail, 1)), popped := s.popped + [out],
                     consumer := PopIdle(true))
  {
    Sound(s);
    assert s.ring.slots[s.ring.SlotOf(s.ring.tail) := s.ring.slots[s.ring.SlotOf(s.ring.tail)]] == s.ring.slots;
  }

  lemma RoomToDouble(k: nat)
    requires Pow2(k) < 0x8000_0000_0000_0000
    ensures k < 63
  {
    WordSize();
    if k >= 63 {
      Pow2Grows(63, k);
    }
  }

  lemma Sound<T>(s: Sys<T>)
    requires Inv(s)
    ensures s.popped <= s.pushed
    ensures s.ring.head == |s.pushed| % TWO64 && s.ring.tail == |s.popped| % TWO64
    ensures s.ring.SlotOf(s.ring.head) < |s.ring.slots| && s.ring.SlotOf(s.ring.tail) < |s.ring.slots|
  {
    SlotIndex(s.ring, |s.pushed|);
    SlotIndex(s.ring, |s.popped|);
  }

  class SPSCQueue<T(0)> {
    var mask: uint64
    var head: uint64
    var cachedTail: uint64
    var tail: uint64
    var cachedHead: uint64
    const slots: array<T>

    ghost var pushed: seq<T>
    ghost var popped: seq<T>
    ghost var seenTail: nat
    ghost var seenHead: nat
    ghost var lastPush: bool
    ghost var lastPop: bool

    /** The queue as the protocol sees it between calls. */
    ghost function AsSys(): Sys<T>
      reads this, slots
    {
      Sys(Ring(mask, slots[..], head, cachedTail, tail, cachedHead), PushIdle(lastPush), PopIdle(lastPop),
          pushed, popped, seenTail, seenHead)
    }

    ghost predicate Valid()
      reads this, slots
    {
      Inv(AsSys())
    }

    /** The values inside, oldest first. */
    ghost function Contents(): seq<T>
      requires Valid()
      reads this, slots
    {
      pushed[|popped|..]
    }

    /** The capacity is the least power of two that is at least `minCapacity`. */
    constructor (minCapacity: nat)
      requires minCapacity <= 0x8000_0000_0000_0000
      ensures Valid() && fresh(slots) && Contents() == []
      ensures slots.Length >= minCapacity && (slots.Length > 1 ==> slots.Length < 2 * minCapacity)
    {
      var cap := 1;
      ghost var k: nat := 0;
      while cap < minCapacity
        invariant cap == Pow2(k) && k <= 63
        invariant cap > 1 ==> cap < 2 * minCapacity
        decreases minCapacity - cap
      {
        RoomToDouble(k);
        cap := cap * 2;
        k := k + 1;
      }
      WrapKeepsSlot(0, k);
      mask := cap - 1;
      slots := new T[cap];
      head, cachedTail, tail, cachedHead := 0, 0, 0, 0;
      pushed, popped, seenTail, seenHead := [], [], 0, 0;
      lastPush, lastPop := false, false;
    }

    method TryPush(v: T) returns (ok: bool)
      requires Valid()
      modifies this`cachedTail, this`head, this`pushed, this`seenTail, this`lastPush, slots
      ensures Valid() && AsSys() == PushRun(old(AsSys()), v)
      ensures ok <==> |old(Contents())| < slots.Length
      ensures Contents() == if ok then old(Contents()) + [v] else old(Contents())
    {
      hide Inv, PushRun, Minus, Plus, BitAnd;
      ghost var s := AsSys();
      ghost var s' := PushRun(s, v);
      PushRunFields(s, v);
      Sound(s);
      Sound(s');
      var h := head;
      var next := Plus(h, 1);
      if Minus(next, cachedTail) > slots.Length {
        cachedTail := tail;
        seenTail := |popped|;
        if Minus(next, cachedTail) > slots.Length {
          lastPush := false;
          assert AsSys() == s';
          return false;
        }
      }
      slots[BitAnd(h, mask)] := v;
      head := next;
      pushed := pushed + [v];
      lastPush := true;
      assert AsSys() == s';
      ok := true;
    }

    /** On an empty queue `out` keeps the value the caller passed in. */
    method TryPop(current: T) returns (ok: bool, out: T)
      requires Valid()
      modifies this`cachedHead, this`tail, this`popped, this`seenHead, this`lastPop
      ensures Valid() && AsSys() == PopRun(old(AsSys()))
      ensures ok <==> old(Contents()) != []
      ensures out == if ok then old(Contents())[0] else current
      ensures Contents() == if ok then old(Contents())[1..] else old(Contents())
    {
      hide Inv, PopRun, Plus, BitAnd;
      ghost var s := AsSys();
      ghost var s' := PopRun(s);
      PopRunFields(s);
      Sound(s);
      Sound(s');
      out := current;
      var t := tail;
      if t == cachedHead {
        cachedHead := head;
        seenHead := |pushed|;
        if t == cachedHead {
          lastPop := false;
          assert AsSys() == s';
          return false, out;
        }
      }
      out := slots[BitAnd(t, mask)];
      tail := Plus(t, 1);
      popped := popped + [out];
      lastPop := true;
      assert AsSys() == s';
      ok := true;
    }
  }
}
