/** What the callbacks of a connection are told: success and failure, and nothing but the truth. */
module PipelineOutcomes {
  import opened Wrappers
  import opened Buffers
  import opened Pipeline
  import opened PipelineInvariant
  import opened PipelineSteps
  import opened PipelineTheorems

  // ---------------------------------------------------------------- parts and their debts

  lemma HandleDebts(s: State, starts: bool, throws: bool)
    requires WellFormed(s)
    ensures DoHandle(s, starts, throws).debts == s.debts
  {
    if s.index >= |s.current.items| {
    } else {
    }
  }

  /** A part with a callback makes one debt, marked by whether it is accepted and due at its end; nothing else makes any. */
  lemma StepDebts(s: State, e: Event)
    requires WellFormed(s)
    ensures var t := Step(s, e); var r := AcceptedFor(s, e);
            if !e.Append? || !e.hasCallback then t.debts == s.debts
            else
              && |t.debts| == |s.debts| + 1 && s.debts <= t.debts
              && var d := t.debts[|s.debts|];
                 && (d.accepted <==> r.Some?)
                 && (r.Some? ==> d.response == r.value < |t.appended| && d.offset == |t.appended[r.value]|)
  {
    if e.Append? {
      AppendDebts(s, e);
    } else if e.Handle? {
      HandleDebts(s, e.starts, e.throws);
    }
  }

  lemma AppendDebts(s: State, e: Event)
    requires WellFormed(s) && e.Append?
    ensures var t := Step(s, e); var r := AcceptedFor(s, e);
            t.debts == if !e.hasCallback then s.debts
                       else if r.None? then s.debts + [Debt(|s.debts|, 0, 0, false)]
                       else s.debts + [Debt(|s.debts|, r.value, |s.appended[r.value]| + |e.items|, true)]
    ensures var r := AcceptedFor(s, e);
            r.Some? ==> r.value < |Step(s, e).appended| && Step(s, e).appended[r.value] == s.appended[r.value] + e.items
  {
    if AcceptedFor(s, e).Some? {
      AppendIs(s, e, Target(s.queue, e.request).value);
    }
  }

  lemma {:induction false} RunDebts(s: State, es: seq<Event>)
    requires WellFormed(s)
    ensures s.debts <= Exec(s, es).debts
    decreases |es|
  {
    if es != [] {
      StepDebts(s, es[0]);
      RunDebts(Step(s, es[0]), es[1..]);
    }
  }

  /** The callback of a refused part never hears of success, whatever happens later. */
  lemma RefusedNeverSucceeds(capacity: nat, maxBatch: nat, es: seq<Event>, s: State, e: Event, more: seq<Event>, i: nat)
    requires Reaches(capacity, maxBatch, es, s) && Enabled(s, e) && e.Append? && e.hasCallback
    requires WellFormed(s) && AcceptedFor(s, e).None?
    requires var t := Exec(Step(s, e), more); IsRun(Step(s, e), more) && i < |t.fired| && t.fired[i].success
    ensures Exec(Step(s, e), more).fired[i].callback != |s.debts|
  {
    var t := Exec(Step(s, e), more);
    ReachedInv(capacity, maxBatch, es, s);
    StepKeeps(s, e);
    RunKeeps(Step(s, e), more);
    StepDebts(s, e);
    RunDebts(Step(s, e), more);
    assert DueBy(t.appended, t.debts[t.fired[i].callback], Fixed(t), |t.written|);
  }

  // ---------------------------------------------------------------- failure

  /** While the socket is open, only callbacks of refused parts heard of failure. */
  predicate Excused(s: State) {
    s.open ==> forall i :: 0 <= i < |s.fired| && !s.fired[i].success ==>
                 s.fired[i].callback < |s.debts| && !s.debts[s.fired[i].callback].accepted
  }

  lemma HandleExcused(s: State, starts: bool, throws: bool)
    requires WellFormed(s) && Excused(s)
    ensures Excused(DoHandle(s, starts, throws))
  {
    if s.index >= |s.current.items| {
    } else {
    }
  }

  lemma AppendExcused(s: State, e: Event)
    requires WellFormed(s) && Excused(s) && e.Append?
    ensures Excused(DoAppend(s, e))
  {
    if s.open && !s.closing && Target(s.queue, e.request).Some? {
      AppendIs(s, e, Target(s.queue, e.request).value);
    }
  }

  lemma StepExcused(s: State, e: Event)
    requires WellFormed(s) && Enabled(s, e) && Excused(s)
    ensures Excused(Step(s, e))
  {
    match e
    case Append(_, _, _, _, _) => AppendExcused(s, e);
    case Handle(starts, throws) => HandleExcused(s, starts, throws);
    case _ =>
  }

  lemma {:induction false} RunExcused(s: State, es: seq<Event>)
    requires WellFormed(s) && IsRun(s, es) && Excused(s)
    ensures Excused(Exec(s, es))
    decreases |es|
  {
    if es != [] {
      StepExcused(s, es[0]);
      RunExcused(Step(s, es[0]), es[1..]);
    }
  }

  /** The callback of an accepted part hears of failure only of a connection that is closed. */
  lemma FailureMeansClosed(capacity: nat, maxBatch: nat, es: seq<Event>, s: State, i: nat)
    requires Reaches(capacity, maxBatch, es, s) && i < |s.fired| && !s.fired[i].success
    requires s.fired[i].callback < |s.debts| && s.debts[s.fired[i].callback].accepted
    ensures !s.open
  {
    RunExcused(Init(capacity, maxBatch), es);
  }

  // ---------------------------------------------------------------- success and the end of the stream

  /** Once the stream is ended, success is only for callbacks of responses up to the closing one. */
  predicate Before(s: State) {
    s.closing ==>
      && (s.current.callback.Some? ==> Within(s.debts, s.current.callback.value, s.closeAt))
      && forall i :: 0 <= i < |s.fired| && s.fired[i].success ==> Within(s.debts, s.fired[i].callback, s.closeAt)
  }

  predicate Within(debts: seq<Debt>, c: nat, n: nat) { c < |debts| && debts[c].response < n }

  lemma StartBefore(s: State)
    requires Core(s) && Before(s) && CanStart(s)
    ensures Before(Start(s))
  {
    StartTaken(s);
    if s.queue[0].groups[0].callback.Some? {
      PopDue(s.queue, s.appended, s.debts, s.sent);
    }
  }

  lemma AcceptBefore(s: State, e: Event, k: nat)
    requires Inv(s) && Before(s) && e.Append? && s.open && !s.closing && Target(s.queue, e.request) == Some(k)
    ensures var t := Accept(s, k, e); Before(if t.phase.Idle? then InitWrite(t) else t)
  {
    AcceptCore(s, k, e);
    var t := Accept(s, k, e);
    if t.phase.Idle? && t.queue[0].groups != [] {
      StartBefore(t);
    }
  }

  lemma CloseBefore(s: State)
    requires Before(s)
    ensures Before(DoClose(s))
  {
  }

  lemma ReleaseBefore(s: State, success: bool, phase: Phase, index: nat)
    requires Before(s)
    ensures Before(Release(s, success, phase, index))
  {
  }

  lemma HandleBefore(s: State, starts: bool, throws: bool)
    requires WellFormed(s) && Before(s)
    ensures Before(DoHandle(s, starts, throws))
  {
    if s.index >= |s.current.items| {
      ReleaseBefore(s, true, Idle, 0);
      ReleaseBefore(s, true, Finishing, s.index);
      CloseBefore(Release(s, true, Idle, 0));
    } else {
      var next := s.index + NextCount(s.current.items, s.index, s.maxBatch);
      CloseBefore(s.(phase := Stuck, index := next));
    }
  }

  lemma PumpBefore(s: State)
    requires Inv(s) && Before(s) && s.pumpDue
    ensures Before(DoPump(s))
  {
    var t := s.(pumpDue := false);
    PumpCore(s);
    if s.phase.Idle? && s.open && !s.closing && s.queue != [] && s.queue[0].groups != [] {
      StartBefore(t);
    }
  }

  lemma StepBefore(s: State, e: Event)
    requires Inv(s) && Enabled(s, e) && Before(s)
    ensures Before(Step(s, e))
  {
    match e
    case Append(_, _, _, _, _) =>
      if s.open && !s.closing && Target(s.queue, e.request).Some? {
        AcceptBefore(s, e, Target(s.queue, e.request).value);
      } else {
        RejectBefore(s, e.hasCallback);
      }
    case Handle(starts, throws) => HandleBefore(s, starts, throws);
    case OpFailed(aborted, throws) =>
      CloseBefore(s);
      ReleaseBefore(if aborted then s else DoClose(s), false, Idle, if throws then 0 else s.index);
    case FinishReset => CloseBefore(s.(phase := Idle, index := 0));
    case Pump => PumpBefore(s);
    case Close => CloseBefore(s);
    case Destroy =>
      CloseBefore(s);
      ReleaseBefore(DoClose(s), false, Idle, s.index);
    case _ =>
  }

  lemma RejectBefore(s: State, hasCallback: bool)
    requires Before(s)
    ensures Before(Reject(s, hasCallback))
  {
  }

  lemma {:induction false} RunBefore(s: State, es: seq<Event>)
    requires Inv(s) && IsRun(s, es) && Before(s)
    ensures Before(Exec(s, es))
    decreases |es|
  {
    if es != [] {
      StepBefore(s, es[0]);
      StepKeeps(s, es[0]);
      RunBefore(Step(s, es[0]), es[1..]);
    }
  }

  /** No callback of a response behind the closing one ever hears of success. */
  lemma NoSuccessAfterClose(capacity: nat, maxBatch: nat, es: seq<Event>, s: State, i: nat)
    requires Reaches(capacity, maxBatch, es, s) && s.closing && i < |s.fired| && s.fired[i].success
    ensures Within(s.debts, s.fired[i].callback, s.closeAt)
  {
    InitInv(capacity, maxBatch);
    RunBefore(Init(capacity, maxBatch), es);
  }

  // ---------------------------------------------------------------- who is still waiting

  predicate Heard(fired: seq<Fired>, c: nat) { exists i :: 0 <= i < |fired| && fired[i] == Fired(c, true) }

  /** Every callback of an accepted part of the first n responses heard of success. */
  ghost predicate Served(s: State, n: nat) {
    forall c: nat :: c < |s.debts| && s.debts[c].accepted && s.debts[c].response < n ==> Heard(s.fired, c)
  }

  /** While the socket is open, a callback of an accepted part heard of success or is still held. */
  lemma HeardOrHeld(s: State, c: nat)
    requires Inv(s) && Excused(s) && s.open && c < |s.debts| && s.debts[c].accepted
    ensures Heard(s.fired, c) || c in Held(s)
  {
    assert Numbers(|s.debts|)[c] == c;
    assert c in multiset(Held(s)) + multiset(Ids(s.fired));
    if c !in Held(s) {
      assert c in Ids(s.fired);
      var i :| 0 <= i < |s.fired| && Ids(s.fired)[i] == c;
      assert s.fired[i] == Fired(c, true);
    }
  }

  lemma {:induction false} GroupDebt(gs: seq<Group>, r: nat, at: nat, debts: seq<Debt>, c: nat)
    requires Recorded(debts, Owed(gs, r, at)) && c in GroupCallbacks(gs)
    ensures c < |debts| && debts[c].response == r
    decreases |gs|
  {
    var end := at + |gs[0].items|;
    var own, rest := NewDebt(gs[0], r, at), Owed(gs[1..], r, end);
    assert Owed(gs, r, at) == own + rest;
    if c in CallbackOf(gs[0]) {
      assert (own + rest)[0] == own[0];
    } else {
      assert forall i :: 0 <= i < |rest| ==> rest[i] == (own + rest)[|own| + i];
      GroupDebt(gs[1..], r, end, debts, c);
    }
  }

  /** A callback in the queue belongs to a response that has not left it, and that has groups. */
  lemma {:induction false} QueueDebt(queue: seq<Context>, appended: seq<seq<Item>>, debts: seq<Debt>, c: nat)
    requires |queue| <= |appended| && AllFiled(queue, appended, debts) && c in QueueCallbacks(queue)
    ensures c < |debts| && debts[c].response >= |appended| - |queue|
    ensures queue[0].groups == [] ==> debts[c].response > |appended| - |queue|
    decreases |queue|
  {
    var base := |appended| - |queue|;
    if c in GroupCallbacks(queue[0].groups) {
      assert Filed(queue[0].groups, base + 0, appended[base + 0], debts);
      GroupDebt(queue[0].groups, base, |appended[base]| - |Flat(queue[0].groups)|, debts, c);
    } else {
      LeaveFiled(queue, appended, debts);
      QueueDebt(queue[1..], appended, debts, c);
    }
  }

  /** When no group is being written, all responses that left the queue are served, and a front one without groups. */
  lemma FreeServes(s: State)
    requires Inv(s) && Excused(s) && s.open && s.current.callback.None?
    ensures Served(s, Base(s))
    ensures s.queue != [] && s.queue[0].groups == [] ==> Served(s, Base(s) + 1)
  {
    forall c: nat | c < |s.debts| && s.debts[c].accepted && !Heard(s.fired, c)
      ensures s.debts[c].response >= Base(s)
      ensures s.queue != [] && s.queue[0].groups == [] ==> s.debts[c].response > Base(s)
    {
      HeardOrHeld(s, c);
      QueueDebt(s.queue, s.appended, s.debts, c);
    }
  }

  /** A group of which nothing is left hears of success when it is handled, even if its callback then throws. */
  lemma WrittenHeard(capacity: nat, maxBatch: nat, es: seq<Event>, s: State, starts: bool, throws: bool)
    requires Reaches(capacity, maxBatch, es, s) && Enabled(s, Handle(starts, throws))
    requires Rest(s) == [] && s.current.callback.Some?
    ensures WellFormed(s) && s.sent == s.written
    ensures Heard(Step(s, Handle(starts, throws)).fired, s.current.callback.value)
  {
    ReachedInv(capacity, maxBatch, es, s);
    var c := s.current.callback.value;
    var t := Step(s, Handle(starts, throws));
    assert s.index >= |s.current.items|;
    assert FireAll(CallbackOf(s.current), true)[0] == Fired(c, true);
    assert t.fired[|s.fired|] == Fired(c, true);
  }

  lemma HeardMore(fired: seq<Fired>, more: seq<Fired>, c: nat)
    requires Heard(fired, c)
    ensures Heard(fired + more, c)
  {
    var i :| 0 <= i < |fired| && fired[i] == Fired(c, true);
    assert (fired + more)[i] == Fired(c, true);
  }

  lemma ServedClosed(s: State, n: nat)
    requires Served(s, n)
    ensures Served(DoClose(s), n)
  {
    forall c: nat | c < |s.debts| && s.debts[c].accepted && s.debts[c].response < n
      ensures Heard(DoClose(s).fired, c)
    {
      HeardMore(s.fired, FireAll(QueueCallbacks(s.queue), false), c);
    }
  }
}
