/** Progress of the capture mirror: once its queue is closed the worker needs a fixed number of steps, and a waiting Seal can end. */
module MirrorProgress {
  import opened Common
  import opened MirrorModel
  import opened MirrorSafety

  predicate IsWorkerStep(e: Event) { e.TakeEvent? || e.CheckEvent? || e.ReturnEvent? || e.ExitEvent? }

  function InHandWork(w: Worker): nat {
    match w
    case Waiting => 1
    case Holding(_) => 3
    case Writing(_) => 2
    case Discarding(_) => 2
    case Done => 0
  }

  /** The steps the worker still has to take: three for each queued frame, the rest of the one in hand, and its return. */
  function Work(s: State): nat { 3 * |s.queue| + InHandWork(s.worker) }

  lemma WorkerStepCounts(c: Config, s: State, e: Event)
    requires Enabled(s, e) && IsWorkerStep(e)
    ensures Work(Next(c, s, e)) == Work(s) - 1
  {
    hide SlotCount, WriteNext, SealBegin, SealFinish, SealExpire;
  }

  /** With the queue closed nobody else adds work, and the queue stays closed. */
  lemma OthersAddNothing(c: Config, s: State, e: Event)
    requires PhaseInv(c, s) && s.queueClosed && Enabled(s, e)
    ensures !IsWorkerStep(e) ==> Work(Next(c, s, e)) == Work(s)
    ensures !Next(c, s, e).phase.Open?
  {
    hide SlotCount, Plan, EnqueueComplete, Stored1;
  }

  /** A worker that has not returned can always go on. */
  lemma WorkerNotStuck(s: State) returns (e: Event)
    requires s.queueClosed && !s.worker.Done?
    ensures IsWorkerStep(e) && Enabled(s, e) && (e.ReturnEvent? ==> e.sinkOk)
  {
    match s.worker
    case Waiting => e := if s.queue == [] then ExitEvent else TakeEvent;
    case Holding(_) => e := CheckEvent;
    case _ => e := ReturnEvent(true);
  }

  function WorkerSteps(events: seq<Event>): nat {
    if events == [] then 0 else WorkerSteps(events[..|events| - 1]) + if IsWorkerStep(events[|events| - 1]) then 1 else 0
  }

  /**
    From the moment the queue is closed, whatever writers, Seal and Abort callers and the sink do, the worker takes exactly the
    steps that were left then; and as long as it has not returned, one of them is possible.
   */
  lemma {:induction false} WorkerSettles(c: Config, states: seq<State>, events: seq<Event>, i: nat, j: nat)
    requires IsRun(c, states, events) && i <= j < |states| && states[i].queueClosed
    ensures WorkerSteps(events[i..j]) + Work(states[j]) == Work(states[i])
    ensures states[j].queueClosed && (states[j].worker.Done? <==> Work(states[j]) == 0)
    ensures !states[j].worker.Done? ==> exists e :: IsWorkerStep(e) && Enabled(states[j], e)
    decreases j - i
  {
    hide Next, Enabled, SlotsInv, PipelineInv, CountInv, EmittedInv, ExactInv;
    RunInv(c, states, events, j);
    if i < j {
      WorkerSettles(c, states, events, i, j - 1);
      var s, e := states[j - 1], events[j - 1];
      assert Enabled(s, e) && states[j] == Next(c, s, e);
      RunInv(c, states, events, j - 1);
      OthersAddNothing(c, s, e);
      if IsWorkerStep(e) {
        WorkerStepCounts(c, s, e);
      }
      assert events[i..j][..j - i - 1] == events[i..j - 1];
    } else {
      assert events[i..j] == [];
    }
    if !states[j].worker.Done? {
      var e := WorkerNotStuck(states[j]);
    }
  }

  /** While a Seal waits, a worker step with a willing sink leaves it waiting. */
  lemma SealKeepsWaiting(c: Config, s: State, e: Event)
    requires Inv(c, s) && s.phase.Sealing? && Enabled(s, e) && IsWorkerStep(e) && (e.ReturnEvent? ==> e.sinkOk)
    ensures Next(c, s, e).phase.Sealing? && Next(c, s, e).sealers == s.sealers
  {
    hide SlotsInv, PipelineInv, EmittedInv, ExactInv, SlotCount, WriteNext, SealBegin, SealFinish, SealExpire;
  }

  lemma ExtendRun(c: Config, states: seq<State>, events: seq<Event>, e: Event)
    requires IsRun(c, states, events) && Enabled(states[|events|], e)
    ensures IsRun(c, states + [Next(c, states[|events|], e)], events + [e])
  {
    hide Enabled, Next;
  }

  /**
    A Seal that waits can always be brought to its end: from every reachable state in which it waits, the worker's remaining
    steps with a willing sink, at most three for each queued frame and three more, and then Seal returns nil on a sealed mirror.
   */
  lemma {:induction false} WaitingSealCanFinish(c: Config, states: seq<State>, events: seq<Event>)
    returns (after: seq<State>, done: seq<Event>)
    requires IsRun(c, states, events) && states[|events|].phase.Sealing? && states[|events|].sealers > 0
    ensures IsRun(c, after, done) && |done| == |events| + Work(states[|events|]) + 1 && events <= done
    ensures WorkerFrom(done, |events|)
    ensures EndsSealed(c, after, done)
    ensures Work(states[|events|]) <= 3 * |states[|events|].queue| + 3
    decreases Work(states[|events|])
  {
    assert |states| == |events| + 1;
    var s := states[|events|];
    RunInv(c, states, events, |events|);
    SealingIsClosed(c, s);
    WorkBound(s);
    hide IsRun, Inv, Next, Enabled, Work, IsWorkerStep, EndsSealed, WorkerFrom;
    if s.worker.Done? {
      after, done := FinishSealing(c, states, events);
    } else {
      var e := WorkerNotStuck(s);
      WorkerStepCounts(c, s, e);
      SealKeepsWaiting(c, s, e);
      ExtendRun(c, states, events, e);
      after, done := WaitingSealCanFinish(c, states + [Next(c, s, e)], events + [e]);
      OneEarlier(done, events, e);
    }
  }

  lemma SealingIsClosed(c: Config, s: State)
    requires Inv(c, s) && s.phase.Sealing?
    ensures s.queueClosed
  {
    hide SlotsInv, PipelineInv, CountInv, EmittedInv, ExactInv;
  }

  lemma WorkBound(s: State)
    ensures Work(s) <= 3 * |s.queue| + 3
  {
  }

  /** The last event is a Seal that returns nil and leaves the mirror sealed. */
  ghost predicate EndsSealed(c: Config, states: seq<State>, events: seq<Event>) {
    && |states| == |events| + 1 > 1 && states[|events|].phase.Sealed?
    && events[|events| - 1].SealFinishEvent? && Enabled(states[|events| - 1], SealFinishEvent)
    && SealReply(c, states[|events| - 1], SealFinishEvent).ReturnsNil?
  }

  /** All events from position i on, but the last, are steps of the worker. */
  predicate WorkerFrom(events: seq<Event>, i: nat) {
    forall k | i <= k < |events| - 1 :: IsWorkerStep(events[k])
  }

  lemma OneEarlier(done: seq<Event>, events: seq<Event>, e: Event)
    requires events + [e] <= done && WorkerFrom(done, |events| + 1) && IsWorkerStep(e)
    ensures events <= done && WorkerFrom(done, |events|)
  {
    assert done[|events|] == (events + [e])[|events|];
  }

  lemma FinishSealing(c: Config, states: seq<State>, events: seq<Event>) returns (after: seq<State>, done: seq<Event>)
    requires IsRun(c, states, events) && states[|events|].phase.Sealing? && states[|events|].sealers > 0
    requires states[|events|].worker.Done?
    ensures Work(states[|events|]) == 0 && IsRun(c, after, done) && done == events + [SealFinishEvent]
    ensures EndsSealed(c, after, done) && WorkerFrom(done, |events|)
  {
    var s := states[|events|];
    RunInv(c, states, events, |events|);
    assert s.queue == [] by { hide SlotsInv, PipelineInv, CountInv, EmittedInv, ExactInv; }
    hide Inv, Next, SealReply;
    SealReplies(c, states, events, |events|, SealFinishEvent);
    ExtendRun(c, states, events, SealFinishEvent);
    after, done := states + [Next(c, s, SealFinishEvent)], events + [SealFinishEvent];
  }
}
