/** The batch and drain protocol of TelemetryPublisher, include/order_book/telemetry.hpp: any
    number of producers, one worker thread, and one thread that starts and stops it. Every
    critical section, flag access and line written is one step, and the threads interleave in
    any order. A sink is the sequence of records written to it. */
module Telemetry {
  import opened Types

  /** A batch being written: record `i` goes to sink `j` next. */
  datatype Cursor<R> = Cursor(batch: seq<R>, i: nat, j: nat)

  /** The worker in run(). Woken has passed the wait and holds the lock. */
  datatype Worker<R> = Absent | Waiting | Woken | Emitting(c: Cursor<R>) | Flushing | Exited

  /** The controlling thread inside start() or stop(). */
  datatype Control<R> =
    Idle | Spawning | Joining | Draining | Finishing(c: Cursor<R>) | LastFlush

  /** `published` is the history of everything enqueued. */
  datatype State<R> = State(
    published: seq<R>, queue: seq<R>, running: bool, worker: Worker<R>, control: Control<R>, sinks: seq<seq<R>>)

  datatype Action<R> =
    | Publish(r: R)
    | StartFlag | Spawn
    | StopFlag | Join | Drain | Finish | FinalFlush
    | Wake | TakeBatch | Emit | Flush

  predicate Enabled<R>(s: State<R>, a: Action<R>) {
    match a
    case Publish(_) => !s.worker.Woken?
    case StartFlag => s.control.Idle?
    case Spawn => s.control.Spawning?
    case StopFlag => s.control.Idle?
    case Join => s.control.Joining? && s.worker.Exited?
    case Drain => s.control.Draining? && !s.worker.Woken?
    case Finish => s.control.Finishing?
    case FinalFlush => s.control.LastFlush?
    case Wake => s.worker.Waiting? && (s.queue != [] || !s.running)
    case TakeBatch => s.worker.Woken?
    case Emit => s.worker.Emitting?
    case Flush => s.worker.Flushing?
  }

  /** One step of emit: write the record to the sink, or move on to the next record. */
  function Write<R>(sinks: seq<seq<R>>, c: Cursor<R>): (seq<seq<R>>, Cursor<R>)
    requires c.i < |c.batch|
  {
    if c.j < |sinks| then (sinks[c.j := sinks[c.j] + [c.batch[c.i]]], c.(j := c.j + 1))
    else (sinks, c.(i := c.i + 1, j := 0))
  }

  function Next<R>(s: State<R>, a: Action<R>): State<R>
    requires Enabled(s, a)
  {
    match a
    case Publish(r) => s.(published := s.published + [r], queue := s.queue + [r])
    case StartFlag => s.(running := true, control := if s.running then Idle else Spawning)
    case Spawn => s.(worker := Waiting, control := Idle)
    case StopFlag => s.(running := false, control := if s.running then Joining else Idle)
    case Join => s.(control := Draining)
    case Drain => s.(control := Finishing(Cursor(s.queue, 0, 0)), queue := [])
    case Finish =>
      var c := s.control.c;
      if c.i >= |c.batch| then s.(control := LastFlush)
      else
        var (sinks, c') := Write(s.sinks, c);
        s.(sinks := sinks, control := Finishing(c'))
    case FinalFlush => s.(control := Idle)
    case Wake => s.(worker := Woken)
    case TakeBatch =>
      if s.queue == [] && !s.running then s.(worker := Exited)
      else s.(worker := Emitting(Cursor(s.queue, 0, 0)), queue := [])
    case Emit =>
      var c := s.worker.c;
      if c.i >= |c.batch| then s.(worker := Flushing)
      else
        var (sinks, c') := Write(s.sinks, c);
        s.(sinks := sinks, worker := Emitting(c'))
    case Flush => s.(worker := Waiting)
  }

  // ---------------------------------------------------------------- the invariant

  /** What of a batch has still to be written to sink `k`. */
  function Rest<R>(c: Cursor<R>, k: nat): seq<R> {
    if c.i >= |c.batch| then [] else if k < c.j then c.batch[c.i + 1..] else c.batch[c.i..]
  }

  /** Taken off the queue but not yet written to sink `k`. */
  function Undelivered<R>(s: State<R>, k: nat): seq<R> {
    if s.worker.Emitting? then Rest(s.worker.c, k)
    else if s.control.Finishing? then Rest(s.control.c, k)
    else []
  }

  ghost predicate CursorOk<R>(c: Cursor<R>, n: nat) {
    c.i <= |c.batch| && c.j <= n && (c.i == |c.batch| ==> c.j == 0)
  }

  /** Who can be where. While the publisher runs its worker is alive; the final drain begins
      only after the worker has gone. */
  ghost predicate Positions<R>(s: State<R>) {
    && (s.control.Idle? && s.running ==> !s.worker.Absent? && !s.worker.Exited?)
    && (s.control.Idle? && !s.running ==> s.worker.Absent? || s.worker.Exited?)
    && (s.control.Spawning? ==> s.running && (s.worker.Absent? || s.worker.Exited?))
    && (s.control.Joining? ==> !s.running && !s.worker.Absent?)
    && (s.control.Draining? || s.control.Finishing? || s.control.LastFlush? ==> !s.running && s.worker.Exited?)
    && (s.worker.Exited? ==> !s.running || s.control.Spawning?)
    && (s.worker.Emitting? ==> CursorOk(s.worker.c, |s.sinks|))
    && (s.control.Finishing? ==> CursorOk(s.control.c, |s.sinks|))
  }

  /** Each sink has received the published sequence up to what is in hand and in the queue. */
  ghost predicate Accounted<R>(s: State<R>) {
    forall k :: 0 <= k < |s.sinks| ==> s.published == s.sinks[k] + Undelivered(s, k) + s.queue
  }

  ghost predicate Inv<R>(s: State<R>) {
    Positions(s) && Accounted(s)
  }

  /** Before the first start, with the sinks attached and nothing published. */
  function Initial<R>(n: nat): State<R> {
    State([], [], false, Absent, Idle, seq(n, _ => []))
  }

  lemma InitiallyInv<R>(n: nat)
    ensures Inv(Initial<R>(n))
  {
  }

  /** A write moves one record from what is undelivered to what the sink has. */
  lemma WriteAccounts<R>(sinks: seq<seq<R>>, c: Cursor<R>, k: nat)
    requires c.i < |c.batch| && c.j <= |sinks| && k < |sinks|
    ensures var (sinks', c') := Write(sinks, c);
            && |sinks'| == |sinks| && CursorOk(c', |sinks|)
            && sinks'[k] + Rest(c', k) == sinks[k] + Rest(c, k)
  {
  }

  lemma WriteKeepsShape<R>(sinks: seq<seq<R>>, c: Cursor<R>)
    requires c.i < |c.batch| && c.j <= |sinks|
    ensures var (sinks', c') := Write(sinks, c); |sinks'| == |sinks| && CursorOk(c', |sinks|)
  {
  }

  lemma EmitKeepsInv<R>(s: State<R>)
    requires Inv(s) && s.worker.Emitting?
    ensures Inv(Next(s, Emit))
  {
    var c := s.worker.c;
    if c.i < |c.batch| {
      WriteKeepsShape(s.sinks, c);
      forall k | 0 <= k < |s.sinks|
        ensures s.published == Next(s, Emit).sinks[k] + Undelivered(Next(s, Emit), k) + s.queue
      {
        WriteAccounts(s.sinks, c, k);
      }
    }
  }

  lemma FinishKeepsInv<R>(s: State<R>)
    requires Inv(s) && s.control.Finishing?
    ensures Inv(Next(s, Finish))
  {
    var c := s.control.c;
    if c.i < |c.batch| {
      WriteKeepsShape(s.sinks, c);
      forall k | 0 <= k < |s.sinks|
        ensures s.published == Next(s, Finish).sinks[k] + Undelivered(Next(s, Finish), k) + s.queue
      {
        WriteAccounts(s.sinks, c, k);
      }
    }
  }

  lemma TakeKeepsInv<R>(s: State<R>, a: Action<R>)
    requires Inv(s) && Enabled(s, a) && (a.TakeBatch? || a.Drain?)
    ensures Inv(Next(s, a))
  {
  }

  lemma PublishKeepsInv<R>(s: State<R>, r: R)
    requires Inv(s) && Enabled(s, Publish(r))
    ensures Inv(Next(s, Publish(r)))
  {
  }

  lemma StepKeepsInv<R>(s: State<R>, a: Action<R>)
    requires Inv(s) && Enabled(s, a)
    ensures Inv(Next(s, a)) && |Next(s, a).sinks| == |s.sinks|
  {
    match a
    case Publish(r) => PublishKeepsInv(s, r);
    case Emit => EmitKeepsInv(s);
    case Finish => FinishKeepsInv(s);
    case TakeBatch => TakeKeepsInv(s, a);
    case Drain => TakeKeepsInv(s, a);
    case _ =>
  }

  // ---------------------------------------------------------------- every interleaving

  ghost predicate Schedule<R>(s: State<R>, actions: seq<Action<R>>)
    decreases |actions|
  {
    actions == [] || (Enabled(s, actions[0]) && Schedule(Next(s, actions[0]), actions[1..]))
  }

  function After<R>(s: State<R>, actions: seq<Action<R>>): State<R>
    requires Schedule(s, actions)
    decreases |actions|
  {
    if actions == [] then s else After(Next(s, actions[0]), actions[1..])
  }

  /** The records handed to publish along a schedule, in the order of the calls. */
  function Records<R>(actions: seq<Action<R>>): seq<R> {
    if actions == [] then []
    else if actions[0].Publish? then [actions[0].r] + Records(actions[1..])
    else Records(actions[1..])
  }

  lemma {:induction false} RecordsConcat<R>(a: seq<Action<R>>, b: seq<Action<R>>)
    ensures Records(a + b) == Records(a) + Records(b)
  {
    if a == [] {
      assert a + b == b;
    } else {
      assert (a + b)[1..] == a[1..] + b;
      RecordsConcat(a[1..], b);
    }
  }

  /** The history is exactly what has been handed to publish. */
  lemma {:induction false} PublishedAreTheRecords<R>(s: State<R>, actions: seq<Action<R>>)
    requires Schedule(s, actions)
    ensures After(s, actions).published == s.published + Records(actions)
    decreases |actions|
  {
    if actions != [] {
      PublishedAreTheRecords(Next(s, actions[0]), actions[1..]);
    }
  }

  lemma {:induction false} InvLasts<R>(s: State<R>, actions: seq<Action<R>>)
    requires Inv(s) && Schedule(s, actions)
    ensures Inv(After(s, actions)) && |After(s, actions).sinks| == |s.sinks|
    decreases |actions|
  {
    if actions != [] {
      StepKeepsInv(s, actions[0]);
      InvLasts(Next(s, actions[0]), actions[1..]);
    }
  }

  /** Every record reaches every sink at most once and in the order of publication: at any
      moment what a sink has received, what is in hand for it, and the queue make up exactly
      the records published before and during the schedule. */
  lemma DeliveredOnceInOrder<R>(s: State<R>, actions: seq<Action<R>>, k: nat)
    requires Inv(s) && Schedule(s, actions) && k < |s.sinks|
    ensures var s' := After(s, actions);
            && |s'.sinks| == |s.sinks| && Inv(s')
            && s.published + Records(actions) == s'.sinks[k] + Undelivered(s', k) + s'.queue
            && s'.sinks[k] <= s.published + Records(actions)
  {
    InvLasts(s, actions);
    PublishedAreTheRecords(s, actions);
  }

  /** Publishing is not tied to running: what is published before a start waits for it. */
  lemma {:induction false} PublishedWhileStoppedWaits<R>(s: State<R>, actions: seq<Action<R>>)
    requires s.worker.Absent? && Schedule(s, actions) && forall a :: a in actions ==> a.Publish?
    ensures |Records(actions)| == |actions|
    ensures After(s, actions) == s.(published := s.published + Records(actions), queue := s.queue + Records(actions))
    decreases |actions|
  {
    if actions != [] {
      var rest := actions[1..];
      PublishedWhileStoppedWaits(Next(s, actions[0]), rest);
      hide Schedule, Enabled, Records;
      assert Records(actions) == [actions[0].r] + Records(rest);
    }
  }

  /** From the final drain to the return of stop only producers and the drain itself move: the
      queue is what has been published since the `n` records of the drain. */
  ghost predicate Finalising<R>(s: State<R>, n: nat) {
    (s.control.Finishing? || s.control.LastFlush?) && n + |s.queue| == |s.published|
  }

  lemma {:induction false} FinalisingLasts<R>(s: State<R>, actions: seq<Action<R>>, n: nat)
    requires Inv(s) && Schedule(s, actions) && Finalising(s, n) && FinalFlush !in actions
    ensures Inv(After(s, actions)) && Finalising(After(s, actions), n)
    ensures s.published <= After(s, actions).published && |After(s, actions).sinks| == |s.sinks|
    decreases |actions|
  {
    if actions != [] {
      StepKeepsInv(s, actions[0]);
      FinalisingLasts(Next(s, actions[0]), actions[1..], n);
    }
  }

  lemma LastFlushDelivers<R>(s: State<R>, n: nat, k: nat)
    requires Inv(s) && Finalising(s, n) && Enabled(s, FinalFlush) && k < |s.sinks|
    ensures var end := Next(s, FinalFlush);
            && |end.sinks| == |s.sinks| && end.control.Idle? && !end.running
            && end.sinks[k] + end.queue == s.published && |end.sinks[k]| == n
  {
  }

  lemma SameSplit<R>(a: seq<R>, b: seq<R>, c: seq<R>, d: seq<R>)
    requires a + b == c + d && |a| == |c|
    ensures a == c && b == d
  {
    assert a == (a + b)[..|a|] && b == (a + b)[|a|..];
  }

  /** However the final drain interleaves with producers, when stop returns every sink holds
      exactly what had been published at the drain, and the queue what was published after it. */
  lemma {:induction false} FinalDrainDelivers<R>(s: State<R>, after: seq<Action<R>>, k: nat)
    requires Inv(s) && Enabled(s, Drain) && k < |s.sinks|
    requires Schedule(Next(s, Drain), after) && FinalFlush !in after
    requires Enabled(After(Next(s, Drain), after), FinalFlush)
    ensures var end := Next(After(Next(s, Drain), after), FinalFlush);
            && |end.sinks| == |s.sinks| && end.sinks[k] == s.published && end.queue == Records(after)
            && end.control.Idle? && !end.running
  {
    hide Inv, Schedule, After, Records, Enabled;
    DrainStarts(s);
    var s1 := Next(s, Drain);
    FinalisingLasts(s1, after, |s.published|);
    PublishedAreTheRecords(s1, after);
    LastFlushDelivers(After(s1, after), |s.published|, k);
    var end := Next(After(s1, after), FinalFlush);
    SameSplit(end.sinks[k], end.queue, s.published, Records(after));
  }

  lemma DrainStarts<R>(s: State<R>)
    requires Inv(s) && Enabled(s, Drain)
    ensures var s1 := Next(s, Drain);
            Inv(s1) && Finalising(s1, |s.published|) && s1.published == s.published && |s1.sinks| == |s.sinks|
  {
    StepKeepsInv(s, Drain);
  }

  lemma BeforeTheDrain<R>(s: State<R>, a: Action<R>)
    requires Inv(s) && (s.control.Joining? || s.control.Draining?) && Enabled(s, a) && !a.Drain?
    ensures var s1 := Next(s, a);
            && Inv(s1) && (s1.control.Joining? || s1.control.Draining?) && |s1.sinks| == |s.sinks|
            && s1.published == s.published + Records([a])
  {
    StepKeepsInv(s, a);
  }

  /** Every schedule from the flag of a stop that ended a running publisher to its return has a
      final drain, and on return a sink holds exactly the records published up to that moment
      and the queue those published later. */
  lemma {:induction false} StopDeliversUpToDrain<R>(s: State<R>, during: seq<Action<R>>, k: nat) returns (i: nat)
    requires Inv(s) && (s.control.Joining? || s.control.Draining?) && k < |s.sinks|
    requires Schedule(s, during) && FinalFlush !in during && Enabled(After(s, during), FinalFlush)
    ensures i < |during| && during[i] == Drain
    ensures var end := Next(After(s, during), FinalFlush);
            && k < |end.sinks| && end.sinks[k] == s.published + Records(during[..i])
            && end.queue == Records(during[i..])
    decreases |during|
  {
    assert during != [];
    var a := during[0];
    assert Enabled(s, a) && Schedule(Next(s, a), during[1..]) && After(s, during) == After(Next(s, a), during[1..]);
    hide Inv, Next, Enabled, Records, Schedule, After;
    if a.Drain? {
      i := 0;
      FinalDrainDelivers(s, during[1..], k);
      NoRecord(during);
    } else {
      BeforeTheDrain(s, a);
      i := StopDeliversUpToDrain(Next(s, a), during[1..], k);
      assert during[..i + 1] == [a] + during[1..][..i] && during[i + 1..] == during[1..][i..];
      RecordsConcat([a], during[1..][..i]);
      i := i + 1;
    }
  }

  lemma NoRecord<R>(during: seq<Action<R>>)
    requires during != [] && during[0].Drain?
    ensures Records(during[0..]) == Records(during[1..]) && Records(during[..0]) == []
  {
    assert during[0..] == during;
  }

  /** From attaching the sinks to the return of a stop that ended a running publisher, whatever
      the threads do in between: each sink has received, once each and in order, everything
      handed to publish before the final drain, which covers all of it from before the call;
      everything later waits in the queue. */
  lemma StopFlushesEverythingBefore<R>(n: nat, before: seq<Action<R>>, during: seq<Action<R>>, k: nat) returns (i: nat)
    requires k < n && Schedule(Initial<R>(n), before)
    requires After(Initial(n), before).control.Idle? && After(Initial(n), before).running
    requires Schedule(Next(After(Initial(n), before), StopFlag), during) && FinalFlush !in during
    requires Enabled(After(Next(After(Initial(n), before), StopFlag), during), FinalFlush)
    ensures i < |during| && during[i] == Drain
    ensures var end := Next(After(Next(After(Initial(n), before), StopFlag), during), FinalFlush);
            && |end.sinks| == n && end.sinks[k] == Records(before) + Records(during[..i])
            && end.queue == Records(during[i..])
  {
    var s := After(Initial(n), before);
    InitiallyInv<R>(n);
    InvLasts(Initial(n), before);
    PublishedAreTheRecords(Initial(n), before);
    StepKeepsInv(s, StopFlag);
    InvLasts(Next(s, StopFlag), during);
    i := StopDeliversUpToDrain(Next(s, StopFlag), during, k);
  }

  // ---------------------------------------------------------------- a stop can always finish

  /** How far the worker is from its exit with nothing new coming in. */
  function WorkerRank<R>(w: Worker<R>): nat {
    match w
    case Emitting(_) => 4
    case Flushing => 3
    case Waiting => 2
    case Woken => 1
    case _ => 0
  }

  function ControlRank<R>(c: Control<R>): nat {
    match c
    case Joining => 3
    case Draining => 2
    case Finishing(_) => 1
    case _ => 0
  }

  function Current<R>(s: State<R>): Cursor<R> {
    if s.worker.Emitting? then s.worker.c else if s.control.Finishing? then s.control.c else Cursor([], 0, 0)
  }

  /** Records of the batch in hand still to write, and sinks the current one has still to reach. */
  function RecordsLeft<R>(c: Cursor<R>): nat {
    Abs(|c.batch| - c.i)
  }

  function SinksLeft<R>(s: State<R>): nat {
    Abs(|s.sinks| - Current(s).j)
  }

  /** The next step of a stop, or of the worker it waits for. */
  function NextStep<R>(s: State<R>): Action<R>
    requires s.control.Joining? || s.control.Draining? || s.control.Finishing?
  {
    match s.control
    case Draining => Drain
    case Finishing(_) => Finish
    case _ =>
      match s.worker
      case Waiting => Wake
      case Woken => TakeBatch
      case Emitting(_) => Emit
      case Flushing => Flush
      case _ => Join
  }

  /** In the order of what is waited for, this step brings the return of stop closer. */
  ghost predicate Closer<R>(s: State<R>, s': State<R>) {
    || ControlRank(s'.control) < ControlRank(s.control)
    || (s'.control.Joining? && s.control.Joining? && |s'.queue| < |s.queue|)
    || (ControlRank(s'.control) == ControlRank(s.control) && |s'.queue| == |s.queue|
        && (|| WorkerRank(s'.worker) < WorkerRank(s.worker)
            || (WorkerRank(s'.worker) == WorkerRank(s.worker)
                && (|| RecordsLeft(Current(s')) < RecordsLeft(Current(s))
                    || (RecordsLeft(Current(s')) == RecordsLeft(Current(s)) && SinksLeft(s') < SinksLeft(s))))))
  }

  lemma NextStepGoesOn<R>(s: State<R>)
    requires Inv(s) && (s.control.Joining? || s.control.Draining? || s.control.Finishing?)
    ensures Enabled(s, NextStep(s)) && !NextStep(s).Publish? && !NextStep(s).FinalFlush?
    ensures var s' := Next(s, NextStep(s)); (ControlRank(s'.control) > 0 || s'.control.LastFlush?) && Closer(s, s')
  {
  }

  /** No deadlock: wherever the threads stand after the flag of a stop, there is a way on to its
      return that needs no producer. */
  lemma {:induction false} StopCanFinish<R>(s: State<R>) returns (during: seq<Action<R>>)
    requires Inv(s) && ControlRank(s.control) > 0
    ensures Schedule(s, during) && FinalFlush !in during && Enabled(After(s, during), FinalFlush)
    ensures Records(during) == []
    decreases ControlRank(s.control), |s.queue|, WorkerRank(s.worker), RecordsLeft(Current(s)), SinksLeft(s)
  {
    var a := NextStep(s);
    NextStepGoesOn(s);
    StepKeepsInv(s, a);
    var rest := [];
    if !Next(s, a).control.LastFlush? {
      rest := StopCanFinish(Next(s, a));
    }
    during := [a] + rest;
    assert during[1..] == rest;
  }

  /** The worker leaves only when the publisher has been stopped and the queue is empty. */
  lemma WorkerLeavesNothing<R>(s: State<R>)
    requires Inv(s) && s.worker.Woken? && Next(s, TakeBatch).worker.Exited?
    ensures !s.running && s.queue == [] && forall k :: 0 <= k < |s.sinks| ==> s.sinks[k] == s.published
  {
  }
}
