/** Every step of the pipeline keeps the invariant. */
module PipelineSteps {
  import opened Wrappers
  import opened Buffers
  import opened Pipeline
  import opened PipelineInvariant
  import opened Sequences

  lemma InitInv(capacity: nat, maxBatch: nat)
    requires capacity < ID_SPACE && maxBatch > 0
    ensures Inv(Init(capacity, maxBatch))
  {
  }

  /** Promises about responses that can no longer change survive a step that leaves them alone. */
  lemma GrowPromises(s: State, t: State)
    requires WellFormed(s) && WellFormed(t) && Ledger(s)
    requires Fixed(s) <= Fixed(t) && s.debts <= t.debts && Grown(s.appended, t.appended, Fixed(s))
    requires t.current == s.current && t.phase == s.phase && |Taken(s)| == |Taken(t)| && t.written == s.written
    ensures CurrentDue(t.current, t.phase, t.debts, t.appended, Fixed(t), |Taken(t)|)
    ensures Honest(s.fired, t.debts, t.appended, Fixed(t), |t.written|)
  {
    GrowHonest(s.fired, s.debts, s.appended, Fixed(s), |s.written|, t.debts, t.appended, Fixed(t), |t.written|);
    GrowCurrentDue(s.current, s.phase, s.debts, s.appended, Fixed(s), |Taken(s)|, t.debts, t.appended, Fixed(t), |Taken(t)|);
  }

  // ---------------------------------------------------------------- register

  lemma RegisterOrder(s: State)
    requires Shape(s) && Order(s)
    ensures Order(DoRegister(s))
  {
    var t := DoRegister(s);
    assert Taken(t) == Taken(s);
    if s.open {
      RegisterInOrder(s.queue, s.appended, Taken(s), t.queue[|s.queue|]);
    } else {
      SequentialKeeps(s.appended, s.flags, Taken(s), Taken(s), Flags(false, false));
    }
    if s.closing {
      CatFrame(s.appended, t.appended, s.closeAt);
    }
  }

  lemma RegisterHeld(s: State)
    ensures Held(DoRegister(s)) == Held(s)
  {
    var c := Context(s.registered % ID_SPACE, [], Flags(false, false));
    QueueCallbacksConcat(s.queue, [c]);
    FrontCallbacks(c, []);
    assert [c] + [] == [c];
    Regroup([], [], QueueCallbacks(s.queue));
  }

  lemma RegisterPromises(s: State)
    requires WellFormed(s) && Ledger(s)
    ensures var t := DoRegister(s);
            && CurrentDue(t.current, t.phase, t.debts, t.appended, Fixed(t), |Taken(t)|)
            && Honest(t.fired, t.debts, t.appended, Fixed(t), |t.written|)
  {
    var t := DoRegister(s);
    assert Taken(t) == Taken(s);
    GrownBy(s.appended, s.registered, [], Fixed(s));
    GrowPromises(s, t);
  }

  lemma RegisterAllFiled(s: State)
    requires WellFormed(s) && AllFiled(s.queue, s.appended, s.debts)
    ensures var t := DoRegister(s); AllFiled(t.queue, t.appended, t.debts)
  {
    RegisterFiled(s.queue, s.appended, s.debts, Context(s.registered % ID_SPACE, [], Flags(false, false)));
  }

  lemma RegisterLedger(s: State)
    requires Shape(s) && Ledger(s)
    ensures Ledger(DoRegister(s))
  {
    RegisterHeld(s);
    RegisterAllFiled(s);
    RegisterPromises(s);
  }

  lemma RegisterShape(s: State)
    requires Shape(s) && |s.queue| < s.capacity
    ensures Shape(DoRegister(s))
  {
    RegisterNumbered(s.queue, s.flags);
  }

  lemma RegisterLive(s: State)
    requires Live(s) && |s.queue| < s.capacity
    ensures Live(DoRegister(s))
  {
  }

  lemma RegisterKeeps(s: State)
    requires Inv(s) && |s.queue| < s.capacity
    ensures Inv(DoRegister(s))
  {
    RegisterShape(s);
    RegisterOrder(s);
    RegisterLedger(s);
    RegisterLive(s);
  }

  // ---------------------------------------------------------------- close

  /** What closing needs to leave the invariant behind. */
  ghost predicate Closable(s: State) {
    && WellFormed(s) && s.capacity < ID_SPACE
    && Sequential(s.appended, s.flags, Taken(s))
    && (s.closing ==> Ended(s.appended, s.flags, s.closeAt) && Taken(s) <= Cat(s.appended, s.closeAt))
    && Flow(s.(open := false))
    && Ledger(s)
  }

  lemma CoreClosable(s: State)
    requires Core(s)
    ensures Closable(s)
  {
    if s.open {
      InOrderSequential(s.queue, s.appended, s.flags, Taken(s));
    }
  }

  lemma CloseLedger(s: State)
    requires WellFormed(s) && Ledger(s)
    ensures Ledger(DoClose(s))
  {
    var t := DoClose(s);
    assert Taken(t) == Taken(s);
    ConserveFire(Held(s), s.fired, |s.debts|, Held(t), QueueCallbacks(s.queue), false);
    GrownBy(s.appended, s.registered, [], Fixed(s));
    GrowPromises(s, t);
  }

  lemma CloseKeeps(s: State)
    requires Closable(s)
    ensures Inv(DoClose(s))
  {
    assert Taken(DoClose(s)) == Taken(s);
    CloseLedger(s);
  }

  // ---------------------------------------------------------------- a group is started

  ghost predicate CanStart(s: State) {
    s.phase.Idle? && s.open && !s.closing && s.queue != [] && s.queue[0].groups != []
  }

  lemma StartTaken(s: State)
    requires WellFormed(s) && Flow(s) && CanStart(s)
    ensures Taken(s) == s.sent && Taken(Start(s)) == s.sent + s.queue[0].groups[0].items
  {
  }

  lemma StartDue(s: State)
    requires WellFormed(s) && Order(s) && Flow(s) && Ledger(s) && CanStart(s)
    ensures var t := Start(s); CurrentDue(t.current, t.phase, t.debts, t.appended, Fixed(t), |Taken(t)|)
  {
    StartTaken(s);
    if s.queue[0].groups[0].callback.Some? {
      PopDue(s.queue, s.appended, s.debts, s.sent);
    }
  }

  lemma StartLedger(s: State)
    requires WellFormed(s) && Order(s) && Flow(s) && Ledger(s) && CanStart(s)
    ensures Ledger(Start(s))
  {
    var t := Start(s);
    PopCallbacks(s.queue);
    PopFiled(s.queue, s.appended, s.debts);
    GrownBy(s.appended, s.registered, [], Fixed(s));
    GrowHonest(s.fired, s.debts, s.appended, Fixed(s), |s.written|, t.debts, t.appended, Fixed(t), |t.written|);
    StartDue(s);
  }

  /** When a response is handed out to its end, nothing of a later one was. */
  lemma StartLast(s: State)
    requires WellFormed(s) && Order(s) && Flow(s) && CanStart(s) && |Popped(s.queue)| < |s.queue|
    ensures s.sent + s.queue[0].groups[0].items == Cat(s.appended, Base(s) + 1)
  {
    var gs := s.queue[0].groups;
    StartTaken(s);
    assert Flat(gs) == gs[0].items + Flat(gs[1..]);
  }

  lemma StartOrder(s: State)
    requires Shape(s) && Order(s) && Flow(s) && CanStart(s)
    ensures Order(Start(s))
  {
    var t := Start(s);
    StartTaken(s);
    PopInOrder(s.queue, s.appended, s.sent);
    PopShape(s.queue, s.flags);
    if t.closing {
      StartLast(s);
    }
  }

  lemma StartShape(s: State)
    requires Shape(s) && CanStart(s)
    ensures Shape(Start(s))
  {
    PopShape(s.queue, s.flags);
  }

  lemma StartKeeps(s: State)
    requires Core(s) && CanStart(s)
    requires s.paused ==> |s.queue| == s.capacity
    ensures Inv(Start(s))
  {
    StartShape(s);
    StartLedger(s);
    StartOrder(s);
  }

  // ---------------------------------------------------------------- a response part arrives

  lemma RejectLedger(s: State)
    requires WellFormed(s) && Ledger(s)
    ensures Ledger(Reject(s, true))
  {
    ConserveReject(Held(s), s.fired, |s.debts|);
    GrowAllFiled(s.queue, s.appended, s.debts, Reject(s, true).debts);
    RejectPromises(s);
  }

  lemma RejectPromises(s: State)
    requires WellFormed(s) && Ledger(s)
    ensures var t := Reject(s, true);
            && CurrentDue(t.current, t.phase, t.debts, t.appended, Fixed(t), |Taken(t)|)
            && Honest(s.fired, t.debts, t.appended, Fixed(t), |t.written|)
  {
    var t := Reject(s, true);
    assert Taken(t) == Taken(s);
    GrownBy(s.appended, s.registered, [], Fixed(s));
    GrowPromises(s, t);
  }

  lemma RejectKeeps(s: State, hasCallback: bool)
    requires Inv(s)
    ensures Inv(Reject(s, hasCallback))
  {
    if hasCallback {
      RejectRest(s);
      RejectLedger(s);
    }
  }

  lemma RejectRest(s: State)
    requires Shape(s) && Order(s) && Flow(s) && Live(s)
    ensures var t := Reject(s, true); Shape(t) && Order(t) && Flow(t) && Live(t)
  {
    var t := Reject(s, true);
    assert Taken(t) == Taken(s) && Base(t) == Base(s);
  }

  /** The context a part is queued in, and the group that is queued. */
  function NewGroup(s: State, e: Event): Group
    requires e.Append?
  {
    Group(e.items, e.statusLine, if e.hasCallback then Some(|s.debts|) else None)
  }

  function NewContext(s: State, k: nat, e: Event): Context
    requires e.Append? && k < |s.queue|
  {
    s.queue[k].(flags := e.flags, groups := Enqueue(s.queue[k].groups, NewGroup(s, e)))
  }

  lemma AcceptIs(s: State, k: nat, e: Event)
    requires WellFormed(s) && e.Append? && k < |s.queue|
    ensures var t := Accept(s, k, e); var r := Base(s) + k;
            && t.queue == s.queue[k := NewContext(s, k, e)]
            && t.appended == s.appended[r := s.appended[r] + e.items]
            && t.flags == s.flags[r := e.flags]
            && t.debts == s.debts + NewDebt(NewGroup(s, e), r, |s.appended[r]|)
            && Taken(t) == Taken(s) && Base(t) == Base(s)
            && t.current == s.current && t.phase == s.phase && t.fired == s.fired && t.written == s.written
            && t.open == s.open
  {
  }

  lemma InitWriteIs(s: State)
    requires WellFormed(s)
    ensures var t := InitWrite(s);
            && t.fired == s.fired && t.debts == s.debts && t.open == s.open
            && t.appended == s.appended && t.flags == s.flags
  {
  }

  /** What an accepted part leaves behind, apart from the queue and the current group. */
  lemma AppendIs(s: State, e: Event, k: nat)
    requires WellFormed(s) && e.Append? && s.open && !s.closing && Target(s.queue, e.request) == Some(k)
    ensures var t := DoAppend(s, e); var r := Base(s) + k;
            && t.appended == s.appended[r := s.appended[r] + e.items] && t.flags == s.flags[r := e.flags]
            && t.debts == s.debts + NewDebt(NewGroup(s, e), r, |s.appended[r]|)
            && t.fired == s.fired && t.open
  {
    AcceptIs(s, k, e);
    InitWriteIs(Accept(s, k, e));
  }

  lemma AcceptPromises(s: State, k: nat, e: Event)
    requires WellFormed(s) && Ledger(s) && e.Append? && k < |s.queue| && s.open
    ensures var t := Accept(s, k, e);
            && CurrentDue(t.current, t.phase, t.debts, t.appended, Fixed(t), |Taken(t)|)
            && Honest(t.fired, t.debts, t.appended, Fixed(t), |t.written|)
  {
    var t := Accept(s, k, e);
    AcceptIs(s, k, e);
    assert Fixed(t) == Fixed(s);
    GrownBy(s.appended, Base(s) + k, e.items, Fixed(s));
    GrowPromises(s, t);
  }

  lemma AcceptLedger(s: State, k: nat, e: Event)
    requires WellFormed(s) && Ledger(s) && e.Append? && k < |s.queue| && s.open
    ensures Ledger(Accept(s, k, e))
  {
    AcceptConserved(s, k, e);
    AcceptAllFiled(s, k, e);
    AcceptPromises(s, k, e);
  }

  lemma AcceptAllFiled(s: State, k: nat, e: Event)
    requires WellFormed(s) && AllFiled(s.queue, s.appended, s.debts) && e.Append? && k < |s.queue|
    ensures var t := Accept(s, k, e); AllFiled(t.queue, t.appended, t.debts)
  {
    AcceptIs(s, k, e);
    AcceptFiled(s.queue, s.appended, s.debts, k, NewContext(s, k, e), NewGroup(s, e));
  }

  lemma AcceptConserved(s: State, k: nat, e: Event)
    requires WellFormed(s) && Conserved(Held(s), s.fired, |s.debts|) && e.Append? && k < |s.queue|
    ensures var t := Accept(s, k, e); Conserved(Held(t), t.fired, |t.debts|)
  {
    AcceptIs(s, k, e);
    var t := Accept(s, k, e);
    AcceptHeld(CallbackOf(s.current), s.queue, k, NewContext(s, k, e), NewGroup(s, e), s.fired, |s.debts|,
               Held(t), |t.debts|);
  }

  lemma AcceptOrder(s: State, k: nat, e: Event)
    requires WellFormed(s) && Order(s) && e.Append? && k < |s.queue| && s.open && !s.closing
    ensures Order(Accept(s, k, e))
  {
    EnqueueKeepsItems(s.queue[k].groups, NewGroup(s, e));
    AcceptIs(s, k, e);
    AcceptInOrder(s.queue, s.appended, Taken(s), k, NewContext(s, k, e), e.items);
  }

  lemma AcceptCore(s: State, k: nat, e: Event)
    requires Core(s) && e.Append? && k < |s.queue| && s.open && !s.closing
    ensures Core(Accept(s, k, e))
  {
    EnqueueKeepsItems(s.queue[k].groups, NewGroup(s, e));
    AcceptShape(s.queue, s.flags, k, NewContext(s, k, e));
    AcceptOrder(s, k, e);
    AcceptLedger(s, k, e);
  }

  lemma InitWriteKeeps(s: State)
    requires Core(s) && s.phase.Idle? && (s.open ==> !s.closing)
    requires s.open && s.paused ==> |s.queue| == s.capacity
    ensures Inv(InitWrite(s))
  {
    if s.open && s.queue != [] && s.queue[0].groups != [] {
      StartKeeps(s);
    }
  }

  lemma AcceptLive(s: State, k: nat, e: Event)
    requires WellFormed(s) && Live(s) && e.Append? && k < |s.queue| && s.open && !s.closing
    ensures var t := Accept(s, k, e); if s.phase.Idle? then t.paused ==> |t.queue| == t.capacity else Live(t)
  {
    AcceptIs(s, k, e);
  }

  lemma AppendKeeps(s: State, e: Event)
    requires Inv(s) && e.Append?
    ensures Inv(DoAppend(s, e))
  {
    if !s.open || s.closing || Target(s.queue, e.request).None? {
      RejectKeeps(s, e.hasCallback);
    } else {
      AcceptedKeeps(s, e, Target(s.queue, e.request).value);
    }
  }

  lemma AcceptedKeeps(s: State, e: Event, k: nat)
    requires Inv(s) && e.Append? && s.open && !s.closing && Target(s.queue, e.request) == Some(k)
    ensures var t := Accept(s, k, e); Inv(if t.phase.Idle? then InitWrite(t) else t)
  {
    AcceptCore(s, k, e);
    AcceptLive(s, k, e);
    if s.phase.Idle? {
      InitWriteKeeps(Accept(s, k, e));
    }
  }

  // ---------------------------------------------------------------- the current group is written

  /** The current callback is invoked, with success only when its group is written, and the group is let go. */
  lemma FireLedger(s: State, success: bool, phase: Phase, index: nat)
    requires WellFormed(s) && Ledger(s)
    requires success ==> !s.phase.Stuck? && |Taken(s)| <= |s.written|
    ensures Ledger(Release(s, success, phase, index))
  {
    FireConserved(s, success, phase, index);
    FireHonest(s, success, phase, index);
  }

  lemma FireConserved(s: State, success: bool, phase: Phase, index: nat)
    requires Conserved(Held(s), s.fired, |s.debts|)
    ensures var t := Release(s, success, phase, index); Conserved(Held(t), t.fired, |t.debts|)
  {
    var t := Release(s, success, phase, index);
    assert Held(t) == QueueCallbacks(s.queue);
    ConserveFire(Held(s), s.fired, |s.debts|, Held(t), CallbackOf(s.current), success);
  }

  lemma FireHonest(s: State, success: bool, phase: Phase, index: nat)
    requires WellFormed(s) && Honest(s.fired, s.debts, s.appended, Fixed(s), |s.written|)
    requires CurrentDue(s.current, s.phase, s.debts, s.appended, Fixed(s), |Taken(s)|)
    requires success ==> !s.phase.Stuck? && |Taken(s)| <= |s.written|
    ensures var t := Release(s, success, phase, index); Honest(t.fired, t.debts, t.appended, Fixed(t), |t.written|)
  {
    var t := Release(s, success, phase, index);
    GrowHonest(s.fired, s.debts, s.appended, Fixed(s), |s.written|, t.debts, t.appended, Fixed(t), |t.written|);
    if success && s.current.callback.Some? {
      GrowDueBy(s.appended, t.appended, s.debts[s.current.callback.value], Fixed(s), Fixed(t), |Taken(s)|, |t.written|);
    }
  }

  /** Letting go of a group that is written to its end. */
  lemma WrittenTaken(s: State, phase: Phase, index: nat)
    requires Flow(s) && (s.phase.Ready? || s.phase.Finishing?) && s.index >= |s.current.items|
    requires phase.Idle? || (phase.Finishing? && index == s.index)
    ensures Taken(s) == s.sent == s.written
    ensures Taken(Release(s, true, phase, index)) == s.sent
  {
  }

  lemma HandleFinish(s: State, throws: bool)
    requires Inv(s) && s.phase.Ready? && s.index >= |s.current.items|
    ensures Inv(DoHandle(s, true, throws))
  {
    if throws {
      FinishThrows(s);
    } else {
      FinishGoesOn(s);
    }
  }

  lemma FinishThrows(s: State)
    requires Inv(s) && s.phase.Ready? && s.index >= |s.current.items|
    ensures Inv(DoClose(Release(s, true, Idle, 0)))
  {
    WrittenTaken(s, Idle, 0);
    CoreClosable(s);
    FireLedger(s, true, Idle, 0);
    CloseKeeps(Release(s, true, Idle, 0));
  }

  lemma FinishGoesOn(s: State)
    requires Inv(s) && s.phase.Ready? && s.index >= |s.current.items|
    ensures Inv(Release(s, true, Finishing, s.index))
  {
    WrittenTaken(s, Finishing, s.index);
    FireLedger(s, true, Finishing, s.index);
  }

  lemma HandleStart(s: State)
    requires Inv(s) && s.phase.Ready? && s.index < |s.current.items|
    ensures Inv(DoHandle(s, true, false))
  {
    var t := DoHandle(s, true, false);
    assert t.sent + t.current.items[t.index..] == s.sent + s.current.items[s.index..];
    assert Taken(t) == Taken(s);
  }

  lemma StuckClosable(s: State, index: nat)
    requires Closable(s) && index <= |s.current.items| && s.phase.Ready?
    ensures Closable(s.(phase := Stuck, index := index))
  {
    var t := s.(phase := Stuck, index := index);
    assert Taken(t) == s.sent <= Taken(s);
    SequentialKeeps(s.appended, s.flags, Taken(s), Taken(t), Flags(false, false));
    assert Held(t) == Held(s);
  }

  lemma HandleStuck(s: State)
    requires Inv(s) && s.phase.Ready? && s.index < |s.current.items|
    ensures Inv(DoHandle(s, false, false))
  {
    CoreClosable(s);
    var next := s.index + NextCount(s.current.items, s.index, s.maxBatch);
    StuckClosable(s, next);
    CloseKeeps(s.(phase := Stuck, index := next));
  }

  lemma OpDoneKeeps(s: State)
    requires Inv(s) && s.phase.Busy?
    ensures Inv(Step(s, OpDone))
  {
    var t := Step(s, OpDone);
    assert Taken(t) == Taken(s);
    GrowHonest(s.fired, s.debts, s.appended, Fixed(s), |s.written|, t.debts, t.appended, Fixed(t), |t.written|);
  }

  /** A closed connection lets go of its current group. */
  lemma DropKeeps(s: State, index: nat)
    requires Inv(s) && !s.open
    ensures Inv(Release(s, false, Idle, index))
  {
    FireLedger(s, false, Idle, index);
    var t := Release(s, false, Idle, index);
    assert Taken(t) == s.sent <= Taken(s);
    SequentialKeeps(s.appended, s.flags, Taken(s), Taken(t), Flags(false, false));
  }

  lemma OpFailedKeeps(s: State, aborted: bool, throws: bool)
    requires Inv(s) && s.phase.Busy? && (aborted ==> !s.open)
    ensures Inv(DoOpFailed(s, aborted, throws))
  {
    var t := if aborted then s else DoClose(s);
    if !aborted {
      CoreClosable(s);
      CloseKeeps(s);
    }
    DropKeeps(t, if throws then 0 else t.index);
  }

  lemma FinishResetKeeps(s: State)
    requires Inv(s) && s.phase.Finishing?
    ensures Inv(DoFinishReset(s))
  {
    var t := s.(phase := Idle, index := 0);
    assert Taken(t) == Taken(s);
    if s.closing {
      CoreClosable(s);
      CloseKeeps(t);
    }
  }

  lemma PumpCore(s: State)
    requires Core(s)
    ensures Core(s.(pumpDue := false))
  {
    assert Taken(s.(pumpDue := false)) == Taken(s);
  }

  lemma PumpKeeps(s: State)
    requires Inv(s) && s.pumpDue
    ensures Inv(DoPump(s))
  {
    var t := s.(pumpDue := false);
    PumpCore(s);
    if s.phase.Idle? {
      if s.closing {
        CoreClosable(t);
        CloseKeeps(t);
      } else {
        InitWriteKeeps(t);
      }
    }
  }

  lemma DestroyKeeps(s: State)
    requires Inv(s)
    ensures Inv(DoDestroy(s))
  {
    CoreClosable(s);
    CloseKeeps(s);
    DropKeeps(DoClose(s), s.index);
  }

  // ---------------------------------------------------------------- any step, any run

  /** Every step of the connection keeps the invariant. */
  lemma StepKeeps(s: State, e: Event)
    requires Inv(s) && Enabled(s, e)
    ensures Inv(Step(s, e))
  {
    match e
    case Register => RegisterKeeps(s);
    case ReadGate => ReadGateKeeps(s);
    case Append(_, _, _, _, _) => AppendKeeps(s, e);
    case Handle(starts, throws) =>
      if s.index >= |s.current.items| {
        HandleFinish(s, throws);
      } else if starts {
        HandleStart(s);
      } else {
        HandleStuck(s);
      }
    case OpDone => OpDoneKeeps(s);
    case OpFailed(aborted, throws) => OpFailedKeeps(s, aborted, throws);
    case FinishReset => FinishResetKeeps(s);
    case Pump => PumpKeeps(s);
    case Close =>
      CoreClosable(s);
      CloseKeeps(s);
    case Destroy => DestroyKeeps(s);
  }

  lemma ReadGateKeeps(s: State)
    requires Inv(s)
    ensures Inv(Step(s, ReadGate))
  {
    assert Taken(Step(s, ReadGate)) == Taken(s);
  }

  /** So does every run. */
  lemma {:induction false} RunKeeps(s: State, es: seq<Event>)
    requires Inv(s) && IsRun(s, es)
    ensures Inv(Exec(s, es))
    decreases |es|
  {
    if es != [] {
      StepKeeps(s, es[0]);
      RunKeeps(Step(s, es[0]), es[1..]);
    }
  }
}
