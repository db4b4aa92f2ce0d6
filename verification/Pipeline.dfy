/**
  The response pipeline of one connection as a state machine: `response_coordinator_t`,
  `write_group_output_ctx_t` and the write half of `connection_t`.

  A step is the code that runs between two points where foreign code may get in: a socket completion, an
  after-write callback (which may call back into the connection), or the resumption of reading.  The
  histories at the end of `State` record what happened; no step reads them.
*/
module Pipeline {
  import opened Wrappers
  import opened Buffers

  /** Request ids are unsigned 32-bit numbers. */
  const ID_SPACE: nat := 0x1_0000_0000

  datatype Flags = Flags(final: bool, close: bool)

  datatype Context = Context(requestId: nat, groups: seq<Group>, flags: Flags)

  /**
    Idle: no group is being transmitted.  Ready: the next operation of the current group is to be extracted.
    Busy(n): the last n handed items are with the socket.  Finishing: the group is written and its callback
    invoked.  Stuck: an operation could not even be started, the group stays until the connection dies.
  */
  datatype Phase = Idle | Ready | Busy(count: nat) | Finishing | Stuck

  datatype Fired = Fired(callback: nat, success: bool)

  datatype State = State(
    capacity: nat,               // max pipelined requests
    maxBatch: nat,               // buffers per gather write
    alive: bool,
    open: bool,                  // the socket is open
    closing: bool,               // a final connection-close response was handed out
    registered: nat,             // requests registered so far
    queue: seq<Context>,         // live contexts, oldest first
    phase: Phase,
    current: Group,
    index: nat,                  // next item of the current group
    pumpDue: bool,               // init_write_if_necessary is still to be called
    resume: bool,                // reading is to be resumed after the current group
    paused: bool,                // reading is paused because no more requests fit
    // Histories.
    appended: seq<seq<Item>>,    // per response: the items accepted for it
    flags: seq<Flags>,           // per response: its latest flags
    closeAt: nat,                // when closing: the number of responses up to the closing one
    sent: seq<Item>,             // items handed to the socket
    written: seq<Item>,          // items whose operation completed well
    debts: seq<Debt>,            // every callback that entered the connection, and what it waits for
    fired: seq<Fired>            // every callback invocation
  )

  datatype Event =
    | Register
    | ReadGate
    | Append(request: nat, flags: Flags, items: seq<Item>, statusLine: nat, hasCallback: bool)
    | Handle(starts: bool, throws: bool)
    | OpDone
    | OpFailed(aborted: bool, throws: bool)
    | FinishReset
    | Pump
    | Close
    | Destroy

  function Init(capacity: nat, maxBatch: nat): (s: State)
    requires maxBatch > 0
    ensures WellFormed(s)
  {
    State(capacity, maxBatch, true, true, false, 0, [], Idle, EMPTY_GROUP, 0, false, false, false,
          [], [], 0, [], [], [], [])
  }

  /** The counts that belong together. */
  predicate WellFormed(s: State) {
    && |s.queue| <= s.registered == |s.appended| == |s.flags|
    && s.maxBatch > 0
  }

  /** The number of responses that left the queue. */
  function Base(s: State): nat
    requires WellFormed(s)
  {
    s.registered - |s.queue|
  }

  // ---------------------------------------------------------------- operations of the coordinator

  /** `get_by_req_id`: the position in the queue of the context with a request id, as the code computes it. */
  function Lookup(queue: seq<Context>, request: nat): Option<nat> {
    if queue == [] || request < queue[0].requestId || queue[|queue| - 1].requestId < request then None
    else Some(request - queue[0].requestId)
  }

  /** The position at which `append_response` accepts a part for `request`, if it does. */
  function Target(queue: seq<Context>, request: nat): Option<nat> {
    match Lookup(queue, request)
    case None => None
    case Some(k) => if k < |queue| && !queue[k].flags.final then Some(k) else None
  }

  /** The queue after the first group of its front context was handed out. */
  function Popped(queue: seq<Context>): seq<Context>
    requires queue != [] && queue[0].groups != []
  {
    var front := queue[0].(groups := queue[0].groups[1..]);
    if front.groups == [] && front.flags.final then queue[1..] else queue[0 := front]
  }

  /** `pop_ready_buffers` and the start of the group it hands out. */
  function Start(s: State): (t: State)
    requires WellFormed(s) && s.queue != [] && s.queue[0].groups != []
    ensures WellFormed(t)
  {
    var queue := Popped(s.queue);
    var complete := |queue| < |s.queue|;
    var close := s.queue[0].flags.close;
    s.(closing := if complete then close else s.closing,
    closeAt := if complete && close then Base(s) + 1 else s.closeAt,
    queue := queue,
    phase := Ready,
    current := s.queue[0].groups[0],
    resume := |s.queue| == s.capacity && |queue| != s.capacity)
  }

  /** `init_write`, called with no group in transmission. */
  function InitWrite(s: State): (t: State)
    requires WellFormed(s)
    ensures WellFormed(t)
  {
    if s.queue != [] && s.queue[0].groups != [] then Start(s) else s
  }

  // ---------------------------------------------------------------- callbacks

  function CallbackOf(g: Group): seq<nat> {
    if g.callback.Some? then [g.callback.value] else []
  }

  function GroupCallbacks(gs: seq<Group>): seq<nat> {
    if gs == [] then [] else CallbackOf(gs[0]) + GroupCallbacks(gs[1..])
  }

  /** The callbacks of queued groups, oldest context first. */
  function QueueCallbacks(queue: seq<Context>): seq<nat> {
    if queue == [] then [] else GroupCallbacks(queue[0].groups) + QueueCallbacks(queue[1..])
  }

  function FireAll(callbacks: seq<nat>, success: bool): seq<Fired> {
    seq(|callbacks|, i requires 0 <= i < |callbacks| => Fired(callbacks[i], success))
  }

  /** Invokes the callback of the current group, if it is still there, and moves on to another phase. */
  function Release(s: State, success: bool, phase: Phase, index: nat): (t: State)
    ensures WellFormed(s) ==> WellFormed(t)
  {
    s.(fired := s.fired + FireAll(CallbackOf(s.current), success),
    current := s.current.(callback := None),
    phase := phase,
    index := index)
  }

  // ---------------------------------------------------------------- steps

  /** `close`: the socket is closed and the coordinator drained, every queued callback getting an error. */
  function DoClose(s: State): State {
    s.(open := false, queue := [], fired := s.fired + FireAll(QueueCallbacks(s.queue), false))
  }

  function DoRegister(s: State): State {
    s.(registered := s.registered + 1,
    queue := s.queue + [Context(s.registered % ID_SPACE, [], Flags(false, false))],
    appended := s.appended + [[]],
    flags := s.flags + [Flags(false, false)])
  }

  /** A response part that is not accepted: only its callback is served. */
  function Reject(s: State, hasCallback: bool): State {
    if hasCallback
    then s.(debts := s.debts + [Debt(|s.debts|, 0, 0, false)], fired := s.fired + [Fired(|s.debts|, false)])
    else s
  }

  function Accept(s: State, k: nat, e: Event): (t: State)
    requires WellFormed(s) && e.Append? && k < |s.queue|
    ensures WellFormed(t)
  {
    var r := Base(s) + k;
    var items := s.appended[r] + e.items;
    var g := Group(e.items, e.statusLine, if e.hasCallback then Some(|s.debts|) else None);
    s.(queue := s.queue[k := s.queue[k].(flags := e.flags, groups := Enqueue(s.queue[k].groups, g))],
    appended := s.appended[r := items],
    flags := s.flags[r := e.flags],
    debts := if e.hasCallback then s.debts + [Debt(|s.debts|, r, |items|, true)] else s.debts)
  }

  /** The response that a part is accepted for, if it is. */
  function AcceptedFor(s: State, e: Event): Option<nat>
    requires WellFormed(s)
  {
    if e.Append? && s.open && !s.closing && Target(s.queue, e.request).Some?
    then Some(Base(s) + Target(s.queue, e.request).value) else None
  }

  /** `write_response_parts_impl`. */
  function DoAppend(s: State, e: Event): (t: State)
    requires WellFormed(s) && e.Append?
    ensures WellFormed(t)
  {
    if !s.open || s.closing || Target(s.queue, e.request).None? then Reject(s, e.hasCallback)
    else
      var t := Accept(s, Target(s.queue, e.request).value, e);
      if t.phase.Idle? then InitWrite(t) else t
  }

  /** The length of the gather write that starts at `from`. */
  function BatchLength(items: seq<Item>, from: nat, room: nat): (n: nat)
    requires from <= |items|
    ensures from + n <= |items|
    decreases room
  {
    if room > 0 && from < |items| && items[from].Buffer? then 1 + BatchLength(items, from + 1, room - 1) else 0
  }

  /** How many items the next write operation takes: one file or a batch of buffers. */
  function NextCount(items: seq<Item>, from: nat, maxBatch: nat): (n: nat)
    requires from < |items| && maxBatch > 0
    ensures 0 < n && from + n <= |items|
  {
    if items[from].File? then 1 else BatchLength(items, from, maxBatch)
  }

  /** The group is written: its callback hears of success, and a callback that throws ends the connection. */
  function DoFinish(s: State, throws: bool): (t: State)
    ensures WellFormed(s) ==> WellFormed(t)
  {
    if throws then DoClose(Release(s, true, Idle, 0)) else Release(s, true, Finishing, s.index)
  }

  /** The next operation of the group is started, or fails to start and ends the connection. */
  function DoNext(s: State, next: nat, starts: bool): (t: State)
    requires s.index <= next <= |s.current.items|
    ensures WellFormed(s) ==> WellFormed(t)
  {
    if starts
    then s.(phase := Busy(next - s.index), sent := s.sent + s.current.items[s.index..next], index := next)
    else DoClose(s.(phase := Stuck, index := next))
  }

  /** `handle_current_write_ctx`. */
  function DoHandle(s: State, starts: bool, throws: bool): (t: State)
    requires WellFormed(s)
    ensures WellFormed(t)
  {
    if s.index >= |s.current.items| then DoFinish(s, throws)
    else DoNext(s, s.index + NextCount(s.current.items, s.index, s.maxBatch), starts)
  }

  /** `after_write` with an error: the connection is closed unless it already is, then the group fails. */
  function DoOpFailed(s: State, aborted: bool, throws: bool): (t: State)
    requires WellFormed(s)
    ensures WellFormed(t)
  {
    Release(if aborted then s else DoClose(s), false, Idle, if throws then 0 else s.index)
  }

  /** The part of `finish_handling_current_write_ctx` after the callback. */
  function DoFinishReset(s: State): State {
    var t := s.(phase := Idle, index := 0);
    if t.closing then DoClose(t) else t.(pumpDue := true, paused := t.paused && !t.resume)
  }

  /** `init_write_if_necessary` after a group was finished. */
  function DoPump(s: State): (t: State)
    requires WellFormed(s)
    ensures WellFormed(t)
  {
    var t := s.(pumpDue := false);
    if !t.phase.Idle? then t
    else if t.closing then DoClose(t)
    else InitWrite(t)
  }

  /** The connection object dies: whatever callback is left is invoked by the destructors of its groups. */
  function DoDestroy(s: State): State {
    Release(DoClose(s), false, Idle, s.index).(alive := false)
  }

  predicate Enabled(s: State, e: Event) {
    && s.alive
    && match e
       case Register => |s.queue| < s.capacity
       case Append(request, _, items, statusLine, _) => request < ID_SPACE && StatusLineFits(items, statusLine)
       case Handle(_, throws) => s.phase.Ready? && (throws ==> s.current.callback.Some?)
       case OpDone => s.phase.Busy?
       // An operation is aborted only when the socket was closed under it.
       case OpFailed(aborted, throws) =>
         s.phase.Busy? && (aborted ==> !s.open) && (throws ==> s.current.callback.Some?)
       case FinishReset => s.phase.Finishing?
       case Pump => s.pumpDue
       case _ => true
  }

  function Step(s: State, e: Event): (t: State)
    requires WellFormed(s)
    ensures WellFormed(t)
  {
    match e
    case Register => DoRegister(s)
    case ReadGate => s.(paused := s.paused || |s.queue| == s.capacity)
    case Append(_, _, _, _, _) => DoAppend(s, e)
    case Handle(starts, throws) => DoHandle(s, starts, throws)
    case OpDone => s.(phase := Ready, written := s.sent)
    case OpFailed(aborted, throws) => DoOpFailed(s, aborted, throws)
    case FinishReset => DoFinishReset(s)
    case Pump => DoPump(s)
    case Close => DoClose(s)
    case Destroy => DoDestroy(s)
  }

  predicate IsRun(s: State, es: seq<Event>)
    requires WellFormed(s)
    decreases |es|
  {
    es == [] || (Enabled(s, es[0]) && IsRun(Step(s, es[0]), es[1..]))
  }

  function Exec(s: State, es: seq<Event>): (t: State)
    requires WellFormed(s)
    ensures WellFormed(t)
    decreases |es|
  {
    if es == [] then s else Exec(Step(s, es[0]), es[1..])
  }
}
