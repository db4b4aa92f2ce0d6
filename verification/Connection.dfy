/**
  The write half of `connection_t` (connection.hpp) over the coordinator and output context objects.  The ghost
  field `s` is the state of the pipeline machine and `run` the steps that led to it: every method is one of
  them, so whatever holds after any run holds of the objects.
*/
module Connection {
  import opened Wrappers
  import opened Buffers
  import opened Pipeline
  import opened PipelineInvariant
  import opened PipelineTheorems
  import opened Coordinator
  import opened OutputContext

  /** The operation at an item of a group, if there is one. */
  function NextOf(items: seq<Item>, index: nat, maxBatch: nat): Option<Operation>
    requires maxBatch > 0
  {
    if index >= |items| then None else Some(OperationOf(items[index..index + NextCount(items, index, maxBatch)]))
  }

  /** The callbacks that were invoked, in order, on the way from one state to another. */
  ghost predicate Told(before: State, after: State, invoked: seq<nat>) {
    Ids(after.fired) == Ids(before.fired) + invoked
  }

  class HttpConnection {
    const coordinator: ResponseCoordinator
    const output: WriteGroupOutput
    var open: bool
    var initReadAfterThisWrite: bool
    ghost var run: seq<Event>
    ghost var s: State

    /** The objects are in a state reached by the machine, but for the queue of contexts and the item index. */
    ghost predicate Tied(queue: seq<Context>, index: nat)
      reads this, coordinator, coordinator.table, coordinator.table.slots, output
    {
      && coordinator.Valid() && output.Valid()
      && coordinator.table.contents == queue
      && coordinator.closed == s.closing && coordinator.registered == s.registered
      && output.index == index
      && output.current == (if s.phase.Idle? then None else Some(s.current))
      && open == s.open && initReadAfterThisWrite == s.resume
      && s.capacity == coordinator.table.slots.Length && s.maxBatch == output.maxBatch
      && Reaches(s.capacity, s.maxBatch, run, s)
    }

    ghost predicate Valid()
      reads this, coordinator, coordinator.table, coordinator.table.slots, output
    {
      Tied(s.queue, s.index)
    }

    /** The machine makes a step. */
    ghost method Advance(e: Event)
      requires Reaches(s.capacity, s.maxBatch, run, s) && Enabled(s, e)
      modifies this`run, this`s
      ensures Reaches(s.capacity, s.maxBatch, run, s) && run == old(run) + [e]
      ensures WellFormed(old(s)) && s == Step(old(s), e)
      ensures s.capacity == old(s).capacity && s.maxBatch == old(s).maxBatch
    {
      ReachesNext(s.capacity, s.maxBatch, run, s, e);
      StepConfig(s, e);
      s := Step(s, e);
      run := run + [e];
    }

    constructor (maxPipelinedRequests: nat, maxIovLen: nat)
      requires maxPipelinedRequests < ID_SPACE && maxIovLen > 0
      ensures Valid() && s == Init(maxPipelinedRequests, if maxIovLen < 64 then maxIovLen else 64)
    {
      coordinator := new ResponseCoordinator(maxPipelinedRequests);
      output := new WriteGroupOutput(maxIovLen);
      open, initReadAfterThisWrite := true, false;
      s, run := Init(maxPipelinedRequests, if maxIovLen < 64 then maxIovLen else 64), [];
    }

    /** A request was read. */
    method Register() returns (r: Result<nat, Refusal>)
      requires Valid() && s.alive
      modifies this, coordinator, coordinator.table, coordinator.table.slots
      ensures Valid()
      ensures r.Ok? <==> Enabled(old(s), Event.Register)
      ensures r.Ok? ==> r.value == old(s).registered % ID_SPACE
      ensures s == if r.Ok? then Step(old(s), Event.Register) else old(s)
    {
      r := coordinator.RegisterNewRequest();
      if r.Ok? {
        Advance(Event.Register);
      }
    }

    /** `on_request_message_complete`: a request that finds no room ends the connection. */
    method ReadRequest() returns (r: Result<nat, Refusal>)
      requires Valid() && s.alive
      modifies this, coordinator, coordinator.table, coordinator.table.slots
      ensures Valid()
      ensures s == if Enabled(old(s), Event.Register) then Step(old(s), Event.Register) else Step(old(s), Event.Close)
      ensures r.Ok? <==> Enabled(old(s), Event.Register)
      ensures r.Ok? ==> r.value == s.queue[|s.queue| - 1].requestId == old(s).registered % ID_SPACE
    {
      r := Register();
      if r.Err? {
        var _ := Close();
      }
    }

    /** `close`. */
    method Close() returns (invoked: seq<nat>)
      requires Valid() && s.alive
      modifies this, coordinator.table, coordinator.table.slots
      ensures Valid() && s == Step(old(s), Event.Close)
      ensures invoked == QueueCallbacks(old(s).queue) && Told(old(s), s, invoked)
    {
      open := false;
      invoked := coordinator.Reset();
      FireIds(s.fired, invoked, false);
      Advance(Event.Close);
    }

    /** `init_write`: the next group of the coordinator, if any, becomes the current one. */
    method InitWrite()
      requires coordinator.Valid() && !coordinator.closed && output.current.None?
      modifies coordinator`closed, coordinator.table, coordinator.table.slots, output`current, this`initReadAfterThisWrite
      ensures coordinator.Valid()
      ensures var q := old(coordinator.table.contents);
              if q == [] || q[0].groups == [] then
                && coordinator.table.contents == q && !coordinator.closed && output.current.None?
                && initReadAfterThisWrite == old(initReadAfterThisWrite)
              else
                && coordinator.table.contents == Popped(q)
                && coordinator.closed == (|Popped(q)| < |q| && q[0].flags.close)
                && output.current == Some(q[0].groups[0])
                && initReadAfterThisWrite ==
                   (|q| == coordinator.table.slots.Length && |Popped(q)| != coordinator.table.slots.Length)
    {
      var fullBefore := coordinator.table.count == coordinator.table.slots.Length;
      var next := coordinator.PopReadyBuffers();
      if next.value.Some? {
        var fullAfter := coordinator.table.count == coordinator.table.slots.Length;
        initReadAfterThisWrite := fullBefore && !fullAfter;
        output.StartNextWriteGroup(next.value.value.0);
      }
    }

    /** The step of the machine for a part. */
    ghost function Part(request: nat, flags: Flags, g: Group): Event {
      Append(request, flags, g.items, g.statusLine, g.callback.Some?)
    }

    /**
      `write_response_parts_impl`.  Callbacks are numbered in the order in which they arrive.  The group loses its
      callback, to the queue if the part is accepted; otherwise it is invoked.  An error makes the caller close the
      connection.
    */
    method WriteResponseParts(request: nat, flags: Flags, wg: WriteGroup)
      returns (r: Result<(), Refusal>, invoked: Option<nat>)
      requires Valid() && s.alive && request < ID_SPACE && StatusLineFits(wg.items, wg.statusLineSize)
      requires wg.notificator.Some? ==> wg.notificator.value == |s.debts|
      modifies this, coordinator`closed, coordinator.table, coordinator.table.slots, output`current, wg
      ensures Valid() && s == Step(old(s), Part(request, flags, old(wg.View())))
      ensures r.Err? <==> old(open) && !old(s).closing && Target(old(s).queue, request).None?
      ensures var accepted := old(open) && !old(s).closing && Target(old(s).queue, request).Some?;
              wg.notificator == None && invoked == if accepted then None else old(wg.notificator)
    {
      ghost var e := Part(request, flags, wg.View());
      if open && !coordinator.closed {
        r, invoked := coordinator.AppendResponse(request, flags, wg);
        if r.Ok? {
          AfterAppend(e);
          return;
        }
      } else {
        r := Ok(());
        invoked := wg.InvokeAfterWriteNotificatorIfExists();
      }
      Refuse(e);
    }

    /** A part was not accepted. */
    ghost method Refuse(e: Event)
      requires Valid() && e.Append? && Enabled(s, e)
      requires !s.open || s.closing || Target(s.queue, e.request).None?
      modifies this`run, this`s
      ensures Valid() && WellFormed(old(s)) && s == Step(old(s), e)
    {
      Advance(e);
    }

    /** `write_response_parts`: a part that cannot be appended ends the connection. */
    method DispatchResponseParts(request: nat, flags: Flags, wg: WriteGroup)
      requires Valid() && s.alive && request < ID_SPACE && StatusLineFits(wg.items, wg.statusLineSize)
      requires wg.notificator.Some? ==> wg.notificator.value == |s.debts|
      modifies this, coordinator`closed, coordinator.table, coordinator.table.slots, output`current, wg
      ensures var t := Step(old(s), Part(request, flags, old(wg.View())));
              && Valid()
              && s == if old(s).open && !old(s).closing && Target(old(s).queue, request).None?
                      then Step(t, Event.Close) else t
    {
      ghost var e := Part(request, flags, wg.View());
      var r, _ := WriteResponseParts(request, flags, wg);
      if r.Err? {
        StepAlive(old(s), e);
        var _ := Close();
      }
    }

    /** A part was queued: if nothing is being written, writing starts. */
    method AfterAppend(ghost e: Event)
      requires WellFormed(s) && e.Append? && Enabled(s, e)
      requires s.open && !s.closing && Target(s.queue, e.request).Some?
      requires Tied(Accept(s, Target(s.queue, e.request).value, e).queue, s.index)
      modifies this, coordinator`closed, coordinator.table, coordinator.table.slots, output`current
      ensures Valid() && WellFormed(old(s)) && s == Step(old(s), e)
    {
      if output.current.None? {
        InitWrite();
      }
      Advance(e);
    }

    /**
      `handle_current_write_ctx`: the next operation is started, or the group is over.  The time limit of a gather
      write is set when the operation is under way already; if that fails, the connection is closed under it.
    */
    method HandleCurrentWriteCtx(starts: bool, limited: bool, throws: bool)
      returns (op: Option<Operation>, invoked: seq<nat>)
      requires Valid() && Enabled(s, Handle(starts, throws))
      modifies this, coordinator.table, coordinator.table.slots, output
      ensures op == NextOf(old(s).current.items, old(s).index, old(s).maxBatch)
      ensures Valid()
      ensures var t := Step(old(s), Handle(starts, throws));
              s == if op.Some? && op.value.Trivial? && starts && !limited then Step(t, Event.Close) else t
      ensures Told(old(s), s, invoked)
    {
      ghost var before := s;
      op, invoked := NextOperation(starts, throws);
      if op.Some? && op.value.Trivial? && starts && !limited {
        StepAlive(before, Handle(starts, throws));
        ghost var between := s;
        var more := Close();
        ToldTwice(before, between, s, invoked, more);
        invoked := invoked + more;
      }
    }

    method NextOperation(starts: bool, throws: bool) returns (op: Option<Operation>, invoked: seq<nat>)
      requires Valid() && Enabled(s, Handle(starts, throws))
      modifies this, coordinator.table, coordinator.table.slots, output
      ensures Valid() && s == Step(old(s), Handle(starts, throws))
      ensures op == NextOf(old(s).current.items, old(s).index, old(s).maxBatch)
      ensures Told(old(s), s, invoked)
    {
      op := output.ExtractNextWriteOperation();
      if op.None? {
        invoked := FinishGroup(starts, throws);
      } else {
        invoked := StartOperation(starts, throws, output.index);
      }
    }

    /** The extracted operation is started, or the connection ends when that fails. */
    method StartOperation(starts: bool, ghost throws: bool, ghost next: nat) returns (invoked: seq<nat>)
      requires WellFormed(s) && Enabled(s, Handle(starts, throws)) && s.index < |s.current.items|
      requires next == s.index + NextCount(s.current.items, s.index, s.maxBatch) && Tied(s.queue, next)
      modifies this, coordinator.table, coordinator.table.slots
      ensures Valid() && WellFormed(old(s)) && s == Step(old(s), Handle(starts, throws)) && Told(old(s), s, invoked)
    {
      invoked := [];
      HandleIs(s, starts, throws, next);
      if !starts {
        open := false;
        invoked := coordinator.Reset();
        FireIds(s.fired, invoked, false);
      }
      Advance(Handle(starts, throws));
    }

    /** `finish_write_group` up to its callback, which ends the connection when it throws. */
    method FinishGroup(ghost starts: bool, throws: bool) returns (invoked: seq<nat>)
      requires Valid() && Enabled(s, Handle(starts, throws)) && s.index >= |s.current.items|
      modifies this, coordinator.table, coordinator.table.slots, output
      ensures Valid() && s == Step(old(s), Handle(starts, throws)) && Told(old(s), s, invoked)
    {
      FinishIs(s, starts, throws);
      FinishTells(s, throws);
      invoked := output.InvokeSuccess();
      if throws {
        output.ResetWriteGroup();
        open := false;
        var more := coordinator.Reset();
        invoked := invoked + more;
        Advance(Handle(starts, throws));
      } else {
        Advance(Handle(starts, throws));
      }
    }

    /** `after_write` with success; handling the next operation is a step of its own. */
    method AfterWriteDone()
      requires Valid() && Enabled(s, OpDone)
      modifies this
      ensures Valid() && s == Step(old(s), OpDone)
    {
      Advance(OpDone);
    }

    /** `after_write` with an error. */
    method AfterWriteFailed(aborted: bool, throws: bool) returns (invoked: seq<nat>)
      requires Valid() && Enabled(s, OpFailed(aborted, throws))
      modifies this, coordinator.table, coordinator.table.slots, output
      ensures Valid() && s == Step(old(s), OpFailed(aborted, throws)) && Told(old(s), s, invoked)
    {
      invoked := [];
      FailureTells(s, aborted, throws);
      if !aborted {
        open := false;
        invoked := coordinator.Reset();
      }
      var more := output.FailWriteGroup(throws);
      invoked := invoked + more;
      Advance(OpFailed(aborted, throws));
    }

    /** The rest of `finish_handling_current_write_ctx`, up to the resumption of reading. */
    method FinishHandling() returns (resumeReading: bool)
      requires Valid() && Enabled(s, FinishReset)
      modifies this, coordinator.table, coordinator.table.slots, output
      ensures Valid() && s == Step(old(s), FinishReset)
      ensures resumeReading == (!old(s).closing && old(s).resume)
    {
      output.ResetWriteGroup();
      if coordinator.closed {
        open := false;
        var _ := coordinator.Reset();
        resumeReading := false;
      } else {
        resumeReading := initReadAfterThisWrite;
      }
      Advance(FinishReset);
    }

    /** `init_write_if_necessary` after reading was resumed. */
    method InitWriteIfNecessary()
      requires Valid() && Enabled(s, Pump)
      modifies this, coordinator`closed, coordinator.table, coordinator.table.slots, output`current
      ensures Valid() && s == Step(old(s), Pump)
    {
      if output.current.None? {
        if coordinator.closed {
          open := false;
          var _ := coordinator.Reset();
        } else {
          InitWrite();
        }
      }
      Advance(Pump);
    }
  }

  lemma FireIds(fired: seq<Fired>, callbacks: seq<nat>, success: bool)
    ensures Ids(fired + FireAll(callbacks, success)) == Ids(fired) + callbacks
  {
    IdsConcat(fired, FireAll(callbacks, success));
    assert Ids(FireAll(callbacks, success)) == callbacks;
  }

  /** At the end of a group its callback is invoked, and if that throws, those of the queue behind it. */
  lemma FinishTells(s: State, throws: bool)
    ensures Told(s, DoFinish(s, throws), CallbackOf(s.current) + if throws then QueueCallbacks(s.queue) else [])
  {
    FireIds(s.fired, CallbackOf(s.current), true);
    FireIds(s.fired + FireAll(CallbackOf(s.current), true), QueueCallbacks(s.queue), false);
  }

  /** When a group fails, the callbacks of the queue are invoked before its own. */
  lemma FailureTells(s: State, aborted: bool, throws: bool)
    requires WellFormed(s)
    ensures var queued := if aborted then [] else QueueCallbacks(s.queue);
            Told(s, DoOpFailed(s, aborted, throws), queued + CallbackOf(s.current))
  {
    var fired := s.fired + FireAll(QueueCallbacks(s.queue), false);
    FireIds(s.fired, QueueCallbacks(s.queue), false);
    FireIds(if aborted then s.fired else fired, CallbackOf(s.current), false);
  }

  lemma ToldTwice(a: State, b: State, c: State, first: seq<nat>, second: seq<nat>)
    requires Told(a, b, first) && Told(b, c, second)
    ensures Told(a, c, first + second)
  {
  }

  lemma HandleIs(s: State, starts: bool, throws: bool, next: nat)
    requires WellFormed(s) && s.index < |s.current.items|
    requires next == s.index + NextCount(s.current.items, s.index, s.maxBatch)
    ensures Step(s, Handle(starts, throws)) == DoNext(s, next, starts)
  {
  }

  lemma FinishIs(s: State, starts: bool, throws: bool)
    requires WellFormed(s) && s.index >= |s.current.items|
    ensures Step(s, Handle(starts, throws)) == DoFinish(s, throws)
  {
  }

  lemma HandleConfig(s: State, starts: bool, throws: bool)
    requires WellFormed(s)
    ensures var t := DoHandle(s, starts, throws); t.capacity == s.capacity && t.maxBatch == s.maxBatch
  {
    if s.index >= |s.current.items| {
    } else {
    }
  }

  lemma StepConfig(s: State, e: Event)
    requires WellFormed(s)
    ensures Step(s, e).capacity == s.capacity && Step(s, e).maxBatch == s.maxBatch
  {
    if e.Handle? {
      HandleConfig(s, e.starts, e.throws);
    }
  }
}
