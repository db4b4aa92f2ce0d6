/** What the pipeline promises in every state any run can reach. */
module PipelineTheorems {
  import opened Buffers
  import opened Pipeline
  import opened PipelineInvariant
  import opened PipelineSteps

  /** The state at the end of a run from a fresh connection. */
  ghost predicate Reaches(capacity: nat, maxBatch: nat, es: seq<Event>, s: State) {
    && capacity < ID_SPACE && maxBatch > 0
    && IsRun(Init(capacity, maxBatch), es)
    && s == Exec(Init(capacity, maxBatch), es)
  }

  /** A run can go on with any step that is enabled. */
  lemma ReachesNext(capacity: nat, maxBatch: nat, es: seq<Event>, s: State, e: Event)
    requires Reaches(capacity, maxBatch, es, s) && Enabled(s, e)
    ensures WellFormed(s) && Reaches(capacity, maxBatch, es + [e], Step(s, e))
  {
    RunSnoc(Init(capacity, maxBatch), es, e);
  }

  lemma {:induction false} RunSnoc(s: State, es: seq<Event>, e: Event)
    requires WellFormed(s) && IsRun(s, es) && Enabled(Exec(s, es), e)
    ensures IsRun(s, es + [e]) && Exec(s, es + [e]) == Step(Exec(s, es), e)
    decreases |es|
  {
    if es != [] {
      assert (es + [e])[1..] == es[1..] + [e];
      RunSnoc(Step(s, es[0]), es[1..], e);
    }
  }

  lemma ReachedInv(capacity: nat, maxBatch: nat, es: seq<Event>, s: State)
    requires Reaches(capacity, maxBatch, es, s)
    ensures Inv(s)
  {
    InitInv(capacity, maxBatch);
    RunKeeps(Init(capacity, maxBatch), es);
  }

  // ---------------------------------------------------------------- order

  lemma InvSequential(s: State)
    requires Inv(s)
    ensures Sequential(s.appended, s.flags, Taken(s))
    ensures Taken(s) <= Cat(s.appended, s.registered)
  {
    CoreClosable(s);
    var b: nat :| ReachesTo(s.appended, s.flags, Taken(s), b);
    CatPrefix(s.appended, if b < s.registered then b + 1 else b, s.registered);
  }

  /**
    Section 6.3.2 of RFC 7230: what is handed to the socket is always a beginning of the responses in the
    order of their requests, however the parts of different responses were mixed, queued and merged.
  */
  lemma PipelinedOrder(capacity: nat, maxBatch: nat, es: seq<Event>, s: State)
    requires Reaches(capacity, maxBatch, es, s)
    ensures s.written <= s.sent <= Cat(s.appended, s.registered)
  {
    ReachedInv(capacity, maxBatch, es, s);
    InvSequential(s);
  }

  /** When anything of response r or a later one was handed out, all responses before r are over. */
  lemma NoOvertaking(capacity: nat, maxBatch: nat, es: seq<Event>, s: State, r: nat)
    requires Reaches(capacity, maxBatch, es, s)
    requires r <= s.registered && |s.sent| > |Cat(s.appended, r)|
    ensures AllFinal(s.flags, r)
  {
    ReachedInv(capacity, maxBatch, es, s);
    InvSequential(s);
    var b: nat :| ReachesTo(s.appended, s.flags, Taken(s), b);
    if b < r {
      CatPrefix(s.appended, b + 1, r);
    }
  }

  // ---------------------------------------------------------------- closing

  /** The closing response and those before it are settled. */
  ghost predicate Settled(s: State, t: State) {
    s.closing ==>
      && t.closing && t.closeAt == s.closeAt && |s.appended| <= |t.appended|
      && forall i :: 0 <= i < |s.appended| ==> t.appended[i] == s.appended[i]
  }

  lemma HandleSettled(s: State, starts: bool, throws: bool)
    requires WellFormed(s)
    ensures Settled(s, DoHandle(s, starts, throws))
  {
    if s.index >= |s.current.items| {
    } else {
    }
  }

  lemma StepSettled(s: State, e: Event)
    requires WellFormed(s)
    ensures Settled(s, Step(s, e))
  {
    if e.Handle? {
      HandleSettled(s, e.starts, e.throws);
    }
  }

  lemma {:induction false} RunSettled(s: State, es: seq<Event>)
    requires WellFormed(s)
    ensures Settled(s, Exec(s, es))
    decreases |es|
  {
    if es != [] {
      StepSettled(s, es[0]);
      RunSettled(Step(s, es[0]), es[1..]);
    }
  }

  /**
    Once a final connection-close response was handed out, no item beyond its last one ever reaches the
    socket, whatever happens later.
  */
  lemma NothingAfterClose(capacity: nat, maxBatch: nat, es: seq<Event>, s: State, more: seq<Event>)
    requires Reaches(capacity, maxBatch, es, s) && s.closing && IsRun(s, more)
    ensures 0 < s.closeAt <= s.registered && s.flags[s.closeAt - 1] == Flags(true, true)
    ensures Exec(s, more).sent <= Cat(s.appended, s.closeAt)
  {
    ReachedInv(capacity, maxBatch, es, s);
    RunSettled(s, more);
    var t := Exec(s, more);
    RunKeeps(s, more);
    CatFrame(s.appended, t.appended, s.closeAt);
    assert t.sent <= Taken(t);
  }

  // ---------------------------------------------------------------- callbacks

  lemma NumbersOnce(n: nat, c: nat)
    requires c < n
    ensures multiset(Numbers(n))[c] == 1
  {
    if n > 0 {
      assert Numbers(n) == Numbers(n - 1) + [n - 1];
      if c < n - 1 {
        NumbersOnce(n - 1, c);
      } else {
        assert c !in Numbers(n - 1);
      }
    }
  }

  /** A callback is either still held or was invoked, once, and never both. */
  lemma CallbackOnce(capacity: nat, maxBatch: nat, es: seq<Event>, s: State, c: nat)
    requires Reaches(capacity, maxBatch, es, s) && c < |s.debts|
    ensures multiset(Held(s))[c] + multiset(Ids(s.fired))[c] == 1
  {
    ReachedInv(capacity, maxBatch, es, s);
    NumbersOnce(|s.debts|, c);
    assert (multiset(Held(s)) + multiset(Ids(s.fired)))[c] == 1;
  }

  /** When the connection is over every callback that ever entered it was invoked exactly once. */
  lemma EveryCallbackAtEnd(capacity: nat, maxBatch: nat, es: seq<Event>, s: State, c: nat)
    requires Reaches(capacity, maxBatch, es, s) && c < |s.debts|
    requires !s.alive || (!s.open && s.phase.Idle?)
    ensures multiset(Ids(s.fired))[c] == 1
  {
    ReachedInv(capacity, maxBatch, es, s);
    CallbackOnce(capacity, maxBatch, es, s, c);
    DeadIsOver(Init(capacity, maxBatch), es);
    QuietHoldsNothing(s.queue);
  }

  lemma HandleAlive(s: State, starts: bool, throws: bool)
    requires WellFormed(s)
    ensures DoHandle(s, starts, throws).alive == s.alive
  {
    if s.index >= |s.current.items| {
    } else {
    }
  }

  lemma StepAlive(s: State, e: Event)
    requires WellFormed(s)
    ensures e.Destroy? ==> !Step(s, e).open && Step(s, e).phase.Idle?
    ensures !e.Destroy? ==> Step(s, e).alive == s.alive
  {
    if e.Handle? {
      HandleAlive(s, e.starts, e.throws);
    }
  }

  lemma {:induction false} DeadIsOver(s: State, es: seq<Event>)
    requires WellFormed(s) && IsRun(s, es) && (!s.alive ==> !s.open && s.phase.Idle?)
    ensures !Exec(s, es).alive ==> !Exec(s, es).open && Exec(s, es).phase.Idle?
    decreases |es|
  {
    if es != [] {
      StepAlive(s, es[0]);
      DeadIsOver(Step(s, es[0]), es[1..]);
    }
  }

  /**
    A callback hears of success only when its part was accepted and every item up to the end of its group, in its own
    response and in all responses before it, was written.
  */
  lemma SuccessMeansWritten(capacity: nat, maxBatch: nat, es: seq<Event>, s: State, i: nat)
    requires Reaches(capacity, maxBatch, es, s) && i < |s.fired| && s.fired[i].success
    ensures s.fired[i].callback < |s.debts|
    ensures var d := s.debts[s.fired[i].callback];
            && d.accepted && d.response < s.registered && d.offset <= |s.appended[d.response]|
            && Cat(s.appended, d.response) + s.appended[d.response][..d.offset] <= s.written
  {
    ReachedInv(capacity, maxBatch, es, s);
    InvSequential(s);
    var d := s.debts[s.fired[i].callback];
    assert DueBy(s.appended, d, Fixed(s), |s.written|);
    CatPrefix(s.appended, d.response + 1, s.registered);
    assert Cat(s.appended, d.response + 1) == Cat(s.appended, d.response) + s.appended[d.response];
    PrefixOfBoth(Cat(s.appended, d.response) + s.appended[d.response][..d.offset], s.written, Cat(s.appended, s.registered));
  }

  lemma PrefixOfBoth(a: seq<Item>, b: seq<Item>, whole: seq<Item>)
    requires a <= whole && b <= whole && |a| <= |b|
    ensures a <= b
  {
  }

  // ---------------------------------------------------------------- nothing is forgotten

  /**
    While the socket is open and the stream not ended, an idle connection has nothing it could write: no
    context waits at the front with a group.  The only exception is the moment between the end of one group
    and the call that looks for the next.
  */
  lemma NoLostWrite(capacity: nat, maxBatch: nat, es: seq<Event>, s: State)
    requires Reaches(capacity, maxBatch, es, s)
    requires s.open && !s.closing && s.phase.Idle? && !s.pumpDue
    ensures s.queue == [] || (s.queue[0].groups == [] && !s.queue[0].flags.final)
  {
    ReachedInv(capacity, maxBatch, es, s);
  }

  /** No response that is over stays in the queue with nothing left to send. */
  lemma NoStuckResponse(capacity: nat, maxBatch: nat, es: seq<Event>, s: State, k: nat)
    requires Reaches(capacity, maxBatch, es, s) && k < |s.queue|
    ensures s.queue[k].flags.final ==> s.queue[k].groups != []
  {
    ReachedInv(capacity, maxBatch, es, s);
  }

  /** Reading that was paused for lack of room is resumed by the group in transmission once there is room. */
  lemma NoLostRead(capacity: nat, maxBatch: nat, es: seq<Event>, s: State)
    requires Reaches(capacity, maxBatch, es, s)
    requires s.open && !s.closing && s.paused && |s.queue| < s.capacity
    ensures s.resume && !s.phase.Idle?
  {
    ReachedInv(capacity, maxBatch, es, s);
  }

  lemma IdleLeaves(s: State, e: Event)
    requires WellFormed(s) && Enabled(s, e) && s.phase.Idle? && !Step(s, e).phase.Idle?
    ensures Step(s, e).phase.Ready? && Step(s, e).index == s.index
    ensures s.open || !Quiet(s.queue)
  {
    assert e.Append? || e.Pump?;
    if e.Append? {
    } else {
    }
  }

  /** A group is only ever started at its first item. */
  lemma StartsAtZero(capacity: nat, maxBatch: nat, es: seq<Event>, s: State, e: Event)
    requires Reaches(capacity, maxBatch, es, s) && Enabled(s, e)
    requires s.phase.Idle? && !Step(s, e).phase.Idle?
    ensures Step(s, e).index == 0
  {
    ReachedInv(capacity, maxBatch, es, s);
    IdleLeaves(s, e);
  }
}
