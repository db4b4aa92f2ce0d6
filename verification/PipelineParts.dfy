/** Which parts a connection accepts, that a complete response stays as it is, and when reading is resumed. */
module PipelineParts {
  import opened Wrappers
  import opened Buffers
  import opened Pipeline
  import opened RequestIds
  import opened PipelineInvariant
  import opened PipelineSteps
  import opened PipelineTheorems

  /**
    In every reachable state: a part for a live request is accepted, for just that request's response, if and only if
    the socket is open, the stream not ended, the response not complete and the live ids do not straddle zero.
  */
  lemma AcceptedIff(capacity: nat, maxBatch: nat, es: seq<Event>, s: State, k: nat, e: Event)
    requires Reaches(capacity, maxBatch, es, s) && Enabled(s, e) && e.Append?
    requires k < |s.queue| && e.request == s.queue[k].requestId
    ensures WellFormed(s)
    ensures AcceptedFor(s, e) == Some(Base(s) + k) <==>
            s.open && !s.closing && !s.queue[k].flags.final && !Straddles(s.queue)
    ensures AcceptedFor(s, e).Some? ==> AcceptedFor(s, e) == Some(Base(s) + k)
  {
    ReachedInv(capacity, maxBatch, es, s);
    AcceptedInShape(s, k, e);
  }

  lemma AcceptedInShape(s: State, k: nat, e: Event)
    requires Shape(s) && e.Append? && k < |s.queue| && e.request == s.queue[k].requestId < ID_SPACE
    ensures AcceptedFor(s, e) == if s.open && !s.closing && !s.queue[k].flags.final && !Straddles(s.queue)
                                 then Some(Base(s) + k) else None
  {
    TargetIff(s.queue, s.registered, k);
  }

  lemma TargetIff(queue: seq<Context>, registered: nat, k: nat)
    requires |queue| <= registered && |queue| < ID_SPACE && Consecutive(queue, registered) && k < |queue|
    requires queue[k].requestId < ID_SPACE
    ensures Target(queue, queue[k].requestId) == if queue[k].flags.final || Straddles(queue) then None else Some(k)
  {
    LookupExact(queue, registered, queue[k].requestId);
    if !Straddles(queue) {
      SameId(queue, registered, k, Lookup(queue, queue[k].requestId).value);
    }
  }

  lemma SameId(queue: seq<Context>, registered: nat, j: nat, k: nat)
    requires |queue| <= registered && |queue| < ID_SPACE && Consecutive(queue, registered)
    requires j < |queue| && k < |queue| && queue[j].requestId == queue[k].requestId
    ensures j == k
  {
    var base := registered - |queue|;
    assert IdAt(queue, j) == (base + j) % ID_SPACE && IdAt(queue, k) == (base + k) % ID_SPACE;
    WrapAround(base, j);
    WrapAround(base, k);
  }

  // ---------------------------------------------------------------- complete responses

  /** Responses that are complete keep their flags and items. */
  predicate Kept(flags: seq<Flags>, appended: seq<seq<Item>>, flags': seq<Flags>, appended': seq<seq<Item>>) {
    && |flags| == |appended| <= |appended'| == |flags'|
    && forall r :: 0 <= r < |flags| && flags[r].final ==> flags'[r] == flags[r] && appended'[r] == appended[r]
  }

  predicate CompleteSame(s: State, t: State) { Kept(s.flags, s.appended, t.flags, t.appended) }

  lemma KeptUpdate(flags: seq<Flags>, appended: seq<seq<Item>>, r: nat, f: Flags, items: seq<Item>)
    requires r < |flags| == |appended| && !flags[r].final
    ensures Kept(flags, appended, flags[r := f], appended[r := items])
  {
  }

  lemma AppendComplete(s: State, e: Event)
    requires Shape(s) && e.Append?
    ensures CompleteSame(s, DoAppend(s, e))
  {
    if s.open && !s.closing && Target(s.queue, e.request).Some? {
      var k := Target(s.queue, e.request).value;
      var r := Base(s) + k;
      AppendIs(s, e, k);
      assert s.queue[k].flags == s.flags[r];
      KeptUpdate(s.flags, s.appended, r, e.flags, s.appended[r] + e.items);
    }
  }

  lemma HandleComplete(s: State, starts: bool, throws: bool)
    requires WellFormed(s)
    ensures CompleteSame(s, DoHandle(s, starts, throws))
  {
    if s.index >= |s.current.items| {
    } else {
    }
  }

  lemma StepComplete(s: State, e: Event)
    requires Inv(s)
    ensures CompleteSame(s, Step(s, e))
  {
    match e
    case Append(_, _, _, _, _) => AppendComplete(s, e);
    case Handle(starts, throws) => HandleComplete(s, starts, throws);
    case Pump => InitWriteIs(s.(pumpDue := false));
    case _ =>
  }

  /** Nothing is added to a response, and nothing changes about it, once its final part was accepted. */
  lemma {:induction false} CompleteStays(s: State, es: seq<Event>)
    requires Inv(s) && IsRun(s, es)
    ensures CompleteSame(s, Exec(s, es))
    decreases |es|
  {
    if es != [] {
      StepKeeps(s, es[0]);
      StepComplete(s, es[0]);
      CompleteStays(Step(s, es[0]), es[1..]);
    }
  }

  lemma ReachedComplete(capacity: nat, maxBatch: nat, es: seq<Event>, s: State, more: seq<Event>, r: nat)
    requires Reaches(capacity, maxBatch, es, s) && IsRun(s, more) && r < |s.flags| && s.flags[r].final
    ensures var t := Exec(s, more); r < |t.appended| && t.appended[r] == s.appended[r]
  {
    ReachedInv(capacity, maxBatch, es, s);
    CompleteStays(s, more);
  }

  // ---------------------------------------------------------------- reading

  /**
    When a step hands out a group, reading is to be resumed after it if and only if the table was full and the step
    made room in it.
  */
  lemma ResumesIff(s: State, e: Event)
    requires WellFormed(s) && Enabled(s, e) && s.phase.Idle? && !Step(s, e).phase.Idle?
    ensures Step(s, e).resume <==> |s.queue| == s.capacity && |Step(s, e).queue| < |s.queue|
  {
    assert e.Append? || e.Pump?;
    if e.Append? {
      var k := Target(s.queue, e.request).value;
      AcceptIs(s, k, e);
    } else {
    }
  }
}
