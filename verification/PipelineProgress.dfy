/** The pipeline makes progress: while writes succeed, everything that may be sent is sent. */
module PipelineProgress {
  import opened Wrappers
  import opened Buffers
  import opened Pipeline
  import opened PipelineInvariant
  import opened PipelineSteps
  import opened PipelineTheorems
  import opened PipelineOutcomes

  /** What the connection does next on its own when operations succeed. */
  function Drive(s: State): Option<Event> {
    match s.phase
    case Ready => Some(Handle(true, false))
    case Busy(_) => Some(OpDone)
    case Finishing => Some(FinishReset)
    case Idle => if s.pumpDue then Some(Pump) else None
    case Stuck => None
  }

  /** How many groups are queued. */
  function Waiting(queue: seq<Context>): nat {
    if queue == [] then 0 else |queue[0].groups| + Waiting(queue[1..])
  }

  function Rank(phase: Phase, pumpDue: bool): nat {
    match phase
    case Busy(_) => 4
    case Ready => 3
    case Finishing => 2
    case _ => if pumpDue then 1 else 0
  }

  lemma PopWaiting(queue: seq<Context>)
    requires queue != [] && queue[0].groups != []
    ensures Waiting(Popped(queue)) < Waiting(queue)
  {
    var front := queue[0].(groups := queue[0].groups[1..]);
    if !(front.groups == [] && front.flags.final) {
      assert queue[0 := front][1..] == queue[1..];
    }
  }

  /** The stream ended with its closing response written to the end. */
  ghost predicate Ending(s: State) {
    && !s.open && s.closing && s.phase.Idle?
    && s.closeAt <= |s.appended| && s.sent == s.written == Cat(s.appended, s.closeAt)
    && Served(s, s.closeAt)
  }

  ghost predicate Driven(s: State) {
    Inv(s) && Excused(s) && Before(s) && s.alive && (s.open || Ending(s))
  }

  /** Fewer queued groups; or as many, and less of the current group left; or that too, and a later phase. */
  predicate Less(t: State, s: State) {
    var w, w', r, r' := Waiting(s.queue), Waiting(t.queue), |Rest(s)|, |Rest(t)|;
    w' < w || (w' == w && (r' < r || (r' == r && Rank(t.phase, t.pumpDue) < Rank(s.phase, s.pumpDue))))
  }

  lemma HandleLess(s: State)
    requires WellFormed(s) && Flow(s) && s.phase.Ready?
    ensures Less(DoHandle(s, true, false), s)
  {
    if s.index >= |s.current.items| {
    } else {
    }
  }

  lemma PumpLess(s: State)
    requires Shape(s) && s.phase.Idle? && s.pumpDue
    ensures Less(DoPump(s), s)
  {
    if s.queue != [] && s.queue[0].groups != [] {
      PopWaiting(s.queue);
    }
  }

  lemma FinishLess(s: State)
    requires WellFormed(s) && Flow(s) && s.phase.Finishing?
    ensures Less(DoFinishReset(s), s)
  {
  }

  lemma DriveLess(s: State, e: Event)
    requires Driven(s) && Drive(s) == Some(e)
    ensures Less(Step(s, e), s)
  {
    match s.phase
    case Ready => HandleLess(s);
    case Idle => PumpLess(s);
    case Finishing => FinishLess(s);
    case Busy(_) =>
  }

  /** Handling the current group goes on, or ends it. */
  lemma HandleDrives(s: State)
    requires Driven(s) && s.phase.Ready?
    ensures var t := DoHandle(s, true, false); t.alive && (t.open || Ending(t)) && t.appended == s.appended
  {
    if s.index >= |s.current.items| {
    } else {
    }
  }

  lemma PumpDrives(s: State)
    requires Driven(s) && s.phase.Idle? && Drive(s).Some?
    ensures var t := DoPump(s); t.alive && (t.open || Ending(t)) && t.appended == s.appended
  {
    if s.closing {
      ServedClosed(s.(pumpDue := false), s.closeAt);
    }
  }

  lemma FinishDrives(s: State)
    requires Driven(s) && s.phase.Finishing?
    ensures var t := DoFinishReset(s); t.alive && (t.open || Ending(t)) && t.appended == s.appended
  {
    if s.closing {
      FreeServes(s);
      ServedClosed(s, s.closeAt);
    }
  }

  lemma DriveKeeps(s: State, e: Event)
    requires Driven(s) && Drive(s) == Some(e)
    ensures Enabled(s, e) && Driven(Step(s, e))
    ensures Step(s, e).appended == s.appended && Step(s, e).debts == s.debts
  {
    StepKeeps(s, e);
    StepExcused(s, e);
    StepBefore(s, e);
    StepDebts(s, e);
    match s.phase
    case Ready => HandleDrives(s);
    case Idle => PumpDrives(s);
    case Finishing => FinishDrives(s);
    case Busy(_) =>
  }

  /** The number of responses that are through, or through as far as they are known, when the connection is at rest. */
  function Through(t: State): nat
    requires WellFormed(t)
  {
    if !t.open then t.closeAt else if t.queue == [] then t.registered else Base(t) + 1
  }

  lemma RestServes(s: State)
    requires Driven(s) && Drive(s) == None
    ensures s.open ==> Served(s, Through(s))
    ensures forall c: nat :: Heard(s.fired, c) ==> Within(s.debts, c, Through(s))
  {
    if s.open {
      FreeServes(s);
    }
    forall c: nat | Heard(s.fired, c)
      ensures Within(s.debts, c, Through(s))
    {
      var i :| 0 <= i < |s.fired| && s.fired[i] == Fired(c, true);
      assert DueBy(s.appended, s.debts[s.fired[i].callback], Fixed(s), |s.written|);
    }
  }

  /**
    From every state with an open socket the connection, when its operations succeed and nothing else happens,
    comes to rest.  Either it then closed because a connection-close response was written to its end; or all
    responses before the front one, and all of the front one so far, are written, and that response waits for
    more parts from its handler.
  */
  lemma {:induction false} Drain(s: State) returns (es: seq<Event>, t: State)
    requires Driven(s)
    ensures IsRun(s, es) && t == Exec(s, es) && Driven(t) && t.appended == s.appended && t.debts == s.debts
    ensures Drive(t) == None && (Ending(t) || (t.open && !t.closing))
    ensures t.open && t.queue == [] ==> t.written == Cat(t.appended, t.registered)
    ensures t.open && t.queue != [] ==>
              t.written == Cat(t.appended, Base(t)) + t.appended[Base(t)] && !t.queue[0].flags.final
    decreases Waiting(s.queue), |Rest(s)|, Rank(s.phase, s.pumpDue)
  {
    match Drive(s)
    case None =>
      es, t := [], s;
    case Some(e) =>
      DriveKeeps(s, e);
      DriveLess(s, e);
      es, t := Drain(Step(s, e));
      es := [e] + es;
  }

  /**
    From any state of any run that is still connected: when operations succeed and nothing else happens, everything
    that may be sent gets written, and a callback of an accepted part has heard of success if and only if its response
    is among those that are through.
  */
  lemma Progress(capacity: nat, maxBatch: nat, es: seq<Event>, s: State) returns (more: seq<Event>, t: State)
    requires Reaches(capacity, maxBatch, es, s) && s.alive && s.open
    ensures IsRun(s, more) && t == Exec(s, more) && Drive(t) == None && WellFormed(t)
    ensures t.appended == s.appended && t.debts == s.debts
    ensures Through(t) <= |t.appended| && t.written == Cat(t.appended, Through(t)) && (!t.open ==> t.closing)
    ensures forall c: nat :: c < |t.debts| && t.debts[c].accepted ==>
              (Heard(t.fired, c) <==> t.debts[c].response < Through(t))
  {
    ReachedDriven(capacity, maxBatch, es, s);
    more, t := Drain(s);
    RestWritten(t);
    RestHeard(t);
  }

  lemma ReachedDriven(capacity: nat, maxBatch: nat, es: seq<Event>, s: State)
    requires Reaches(capacity, maxBatch, es, s) && s.alive && s.open
    ensures Driven(s)
  {
    InitInv(capacity, maxBatch);
    RunKeeps(Init(capacity, maxBatch), es);
    RunExcused(Init(capacity, maxBatch), es);
    RunBefore(Init(capacity, maxBatch), es);
  }

  lemma RestWritten(t: State)
    requires Driven(t) && Drive(t) == None && (Ending(t) || (t.open && !t.closing))
    requires t.open && t.queue == [] ==> t.written == Cat(t.appended, t.registered)
    requires t.open && t.queue != [] ==> t.written == Cat(t.appended, Base(t)) + t.appended[Base(t)]
    ensures Through(t) <= |t.appended| && t.written == Cat(t.appended, Through(t))
  {
  }

  lemma RestHeard(t: State)
    requires Driven(t) && Drive(t) == None
    ensures forall c: nat :: c < |t.debts| && t.debts[c].accepted ==>
              (Heard(t.fired, c) <==> t.debts[c].response < Through(t))
  {
    RestServes(t);
  }

  /** So every callback that waits for items, and for no more than were written, has heard of success. */
  lemma DueHeard(appended: seq<seq<Item>>, d: Debt, n: nat)
    requires n <= |appended| && d.response <= |appended| && d.offset > 0
    requires DueAt(appended, d) <= |Cat(appended, n)|
    ensures d.response < n
  {
    if d.response >= n {
      CatPrefix(appended, n, d.response);
    }
  }
}
