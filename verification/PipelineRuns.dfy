/** Runs that reach what should not be reached, and exactly when it is. */
module PipelineRuns {
  import opened Wrappers
  import opened Buffers
  import opened Pipeline
  import opened PipelineInvariant
  import opened PipelineTheorems
  import opened PipelineProgress
  import opened RequestIds

  // ---------------------------------------------------------------- the counter wraps around

  /** Nothing is going on, and everything may. */
  predicate Resting(s: State) {
    s.alive && s.open && !s.closing && s.queue == [] && s.phase == Idle && !s.pumpDue
  }

  /** A part without items that completes a response. */
  function Whole(request: nat, close: bool): Event { Append(request, Flags(true, close), [], 0, false) }

  lemma RegisterOne(s: State)
    requires WellFormed(s) && Resting(s) && s.capacity > 0
    ensures Enabled(s, Register)
    ensures var t := Step(s, Register);
            && t == s.(registered := t.registered, queue := t.queue, appended := t.appended, flags := t.flags)
            && t.queue == [Context(s.registered % ID_SPACE, [], Flags(false, false))]
            && t.registered == s.registered + 1
  {
  }

  lemma AnswerOne(s: State, close: bool)
    requires WellFormed(s) && |s.queue| == 1 && s.queue[0].requestId < ID_SPACE && s.queue[0].groups == []
    requires s.alive && s.open && !s.closing && s.phase == Idle && !s.queue[0].flags.final
    ensures var e := Whole(s.queue[0].requestId, close); var t := Step(s, e);
            && Enabled(s, e) && t.queue == [] && t.phase == Ready && t.current == Group([], 0, None)
            && t.closing == close && t.alive && t.open && t.registered == s.registered && t.index == s.index
            && t.pumpDue == s.pumpDue && t.capacity == s.capacity
  {
    var e := Whole(s.queue[0].requestId, close);
    assert Target(s.queue, e.request) == Some(0);
    var q := Accept(s, 0, e).queue;
    assert q[0].groups == [Group([], 0, None)];
    assert q[0].groups[1..] == [] && q[1..] == [];
  }

  lemma FinishOne(s: State)
    requires WellFormed(s) && s.alive && s.phase == Ready && s.current.items == [] && s.current.callback == None
    ensures Enabled(s, Handle(true, false))
    ensures var t := Step(s, Handle(true, false));
            && t == s.(phase := Finishing, current := t.current, fired := t.fired)
            && Enabled(t, FinishReset)
  {
  }

  lemma ResetOne(s: State)
    requires WellFormed(s) && s.alive && s.open && !s.closing && s.phase == Finishing && s.queue == []
    ensures Enabled(s, FinishReset)
    ensures var t := Step(s, FinishReset);
            && Enabled(t, Pump) && t.queue == [] && !t.closing && t.pumpDue && t.alive && t.open
            && t.registered == s.registered && t.phase == Idle && t.capacity == s.capacity
            && Resting(Step(t, Pump)) && Step(t, Pump).registered == s.registered
  {
  }

  /** A request is read and answered, and the connection comes to rest again. */
  lemma Cycle(es: seq<Event>, s: State) returns (es': seq<Event>, s': State)
    requires Reaches(2, 1, es, s) && Resting(s) && s.capacity == 2
    ensures Reaches(2, 1, es', s') && Resting(s') && s'.registered == s.registered + 1 && s'.capacity == 2
  {
    var t := Finished(2, es, s);
    es' := CycleEvents(es, s.registered % ID_SPACE);
    ResetOne(t);
    var u := Step(t, FinishReset);
    ReachesNext(2, 1, es + Answered(s.registered % ID_SPACE), t, FinishReset);
    ReachesNext(2, 1, es + Answered(s.registered % ID_SPACE) + [FinishReset], u, Pump);
    s' := Step(u, Pump);
  }

  function Answered(id: nat): seq<Event> { [Register, Whole(id, false), Handle(true, false)] }

  function CycleEvents(es: seq<Event>, id: nat): seq<Event> { es + Answered(id) + [FinishReset] + [Pump] }

  /** A request is read and answered up to the end of the write. */
  lemma Finished(capacity: nat, es: seq<Event>, s: State) returns (t: State)
    requires Reaches(capacity, 1, es, s) && Resting(s) && s.capacity == capacity > 0
    ensures var es' := es + Answered(s.registered % ID_SPACE);
            && Reaches(capacity, 1, es', t) && WellFormed(t) && t.alive && t.open && !t.closing && t.phase == Finishing
            && t.queue == [] && t.registered == s.registered + 1 && t.capacity == capacity
  {
    var id := s.registered % ID_SPACE;
    ReachesNext(capacity, 1, es, s, Register);
    RegisterOne(s);
    var s1 := Step(s, Register);
    AnswerOne(s1, false);
    ReachesNext(capacity, 1, es + [Register], s1, Whole(id, false));
    var s2 := Step(s1, Whole(id, false));
    FinishOne(s2);
    ReachesNext(capacity, 1, es + [Register] + [Whole(id, false)], s2, Handle(true, false));
    t := Step(s2, Handle(true, false));
    assert es + [Register] + [Whole(id, false)] + [Handle(true, false)] == es + Answered(id);
  }

  /** Any number of requests can be answered. */
  lemma {:induction false} ManyAnswered(n: nat) returns (es: seq<Event>, s: State)
    ensures Reaches(2, 1, es, s) && Resting(s) && s.registered == n && s.capacity == 2
  {
    if n == 0 {
      es, s := [], Init(2, 1);
    } else {
      es, s := ManyAnswered(n - 1);
      es, s := Cycle(es, s);
    }
  }

  /**
    A run that reads two requests when the counter wraps around: the older one is live, but every part of its
    response is refused.
  */
  lemma LiveButRefused() returns (es: seq<Event>, s: State)
    ensures Reaches(2, 1, es, s) && WellFormed(s) && s.open && !s.closing
    ensures |s.queue| == 2 && s.queue[0].requestId == ID_SPACE - 1 && !s.queue[0].flags.final
    ensures forall e: Event :: e.Append? && e.request == ID_SPACE - 1 ==> Step(s, e) == Reject(s, e.hasCallback)
  {
    es, s := ManyAnswered(ID_SPACE - 1);
    ReachesNext(2, 1, es, s, Register);
    RegisterOne(s);
    es, s := es + [Register], Step(s, Register);
    ReachesNext(2, 1, es, s, Register);
    es, s := es + [Register], Step(s, Register);
    assert s.queue[1].requestId == 0;
  }

  // ---------------------------------------------------------------- the pump finds the stream ended

  /** A part comes in while nothing is written, and with it the last group of a closing response is handed out. */
  predicate Ends(s: State, e: Event)
    requires WellFormed(s)
  {
    && e.Append? && s.open && !s.closing && s.phase.Idle? && Target(s.queue, e.request).Some?
    && var front := Accept(s, Target(s.queue, e.request).value, e).queue[0];
       |front.groups| == 1 && front.flags == Flags(true, true)
  }

  lemma StepCloses(s: State, e: Event)
    requires WellFormed(s) && !e.Pump?
    ensures Step(s, e).closing <==> s.closing || Ends(s, e)
  {
    if e.Append? {
      AppendCloses(s, e);
    } else if e.Handle? {
      HandleKeeps(s, e.starts, e.throws);
    }
  }

  lemma HandleKeeps(s: State, starts: bool, throws: bool)
    requires WellFormed(s)
    ensures DoHandle(s, starts, throws).closing == s.closing
  {
    if s.index >= |s.current.items| {
    } else {
    }
  }

  lemma AppendCloses(s: State, e: Event)
    requires WellFormed(s) && e.Append?
    ensures Step(s, e).closing <==> s.closing || Ends(s, e)
  {
    if s.open && !s.closing && Target(s.queue, e.request).Some? && s.phase.Idle? {
      var t := Accept(s, Target(s.queue, e.request).value, e);
      var front := t.queue[0];
      if front.groups != [] {
        assert front.groups[1..] == [] <==> |front.groups| == 1;
      }
    }
  }

  predicate SomeEnds(s: State, es: seq<Event>)
    requires WellFormed(s)
    decreases |es|
  {
    es != [] && (Ends(s, es[0]) || SomeEnds(Step(s, es[0]), es[1..]))
  }

  predicate NoPump(es: seq<Event>) { forall i :: 0 <= i < |es| ==> !es[i].Pump? }

  /** In a run without a pump the stream ends if and only if a part ends it. */
  lemma {:induction false} RunCloses(s: State, es: seq<Event>)
    requires WellFormed(s) && NoPump(es)
    ensures Exec(s, es).closing <==> s.closing || SomeEnds(s, es)
    decreases |es|
  {
    if es != [] {
      StepCloses(s, es[0]);
      RunCloses(Step(s, es[0]), es[1..]);
      if s.closing {
        assert Step(s, es[0]).closing;
      }
    }
  }

  /**
    `init_write_if_necessary` demands that the coordinator is not closed.  After a group was finished, that holds
    if and only if no part that came in before the call, while reading was resumed, ended the stream.
  */
  lemma PumpDemandIff(s: State, during: seq<Event>)
    requires WellFormed(s) && s.phase.Finishing? && !s.closing && NoPump(during)
    ensures var t := Exec(Step(s, FinishReset), during);
            !t.closing <==> !SomeEnds(Step(s, FinishReset), during)
  {
    RunCloses(Step(s, FinishReset), during);
  }

  /** A run in which it does not hold: the next request is read and answered, for good, before the call. */
  lemma PumpFindsEnd() returns (es: seq<Event>, s: State)
    ensures Reaches(1, 1, es, s) && Enabled(s, Pump) && s.open && s.closing
  {
    s := Finished(1, [], Init(1, 1));
    es := [] + Answered(0);
    assert Init(1, 1).registered % ID_SPACE == 0;
    ReachesNext(1, 1, es, s, FinishReset);
    ResetOne(s);
    es, s := es + [FinishReset], Step(s, FinishReset);
    ReachesNext(1, 1, es, s, Register);
    es, s := es + [Register], Step(s, Register);
    assert s.queue == [Context(1, [], Flags(false, false))];
    AnswerOne(s, true);
    ReachesNext(1, 1, es, s, Whole(1, true));
    es, s := es + [Whole(1, true)], Step(s, Whole(1, true));
  }

  // ---------------------------------------------------------------- a part without items

  const EARLY_EMPTY := [Register, Register, Append(1, Flags(true, false), [], 0, true)]

  /**
    A callback is not told of success as soon as nothing in front of its part is left to write: that of a part
    without items for the second of two requests waits at rest, until the first is answered.
  */
  lemma EmptyPartWaits() returns (t: State)
    ensures Reaches(2, 1, EARLY_EMPTY, t) && WellFormed(t) && Drive(t) == None
    ensures |t.debts| == 1 && t.debts[0].accepted && t.debts[0].response == 1 <= |t.appended|
    ensures DueAt(t.appended, t.debts[0]) == 0 == |t.written| && t.fired == []
  {
    var s0 := Init(2, 1);
    ReachesNext(2, 1, [], s0, Register);
    var s1 := Step(s0, Register);
    ReachesNext(2, 1, [Register], s1, Register);
    var s2 := Step(s1, Register);
    var e := EARLY_EMPTY[2];
    assert [] + [Register] == [Register] && [Register] + [Register] + [e] == EARLY_EMPTY;
    ReachesNext(2, 1, [Register] + [Register], s2, e);
    assert s2.queue[0].groups == [] && Target(s2.queue, 1) == Some(1);
    t := Step(s2, e);
    assert t.appended == [[], []];
    assert Cat(t.appended, 1) == Cat(t.appended, 0) + t.appended[0];
  }
}
