/**
  The connection count limiter (connection_count_limiter.hpp) and the acceptor that drives it (acceptor.hpp).

  `Counters` is what the limiter protects with its lock; its three operations are the locked sections.  The
  machine interleaves them with everything that happens outside the lock: callbacks of the acceptor, posted
  attempts, completions of accepts, moves and destruction of lifetime monitors.
*/
module Limiter {
  import opened Wrappers

  datatype Counters = Counters(max: nat, active: int, connections: int, pending: seq<nat>) {
    predicate HasFreeSlots() { active + connections < max }

    /** The locked section of `accept_next`: either an accept may start now, or the index is stacked. */
    function TryAccept(index: nat): (Counters, bool) {
      if HasFreeSlots() then (this.(active := active + 1), true) else (this.(pending := pending + [index]), false)
    }

    /** `increment_parallel_connections`. */
    function Promote(): Counters {
      this.(active := active - 1, connections := connections + 1)
    }

    /** The locked section of `decrement_parallel_connections`: a stacked index may be woken. */
    function Drop(): (Counters, Option<nat>) {
      var c := this.(connections := connections - 1);
      if c.HasFreeSlots() && c.pending != []
      then (c.(pending := c.pending[..|c.pending| - 1]), Some(c.pending[|c.pending| - 1]))
      else (c, None)
    }
  }

  /**
    Where a socket slot is.  Starting: `open` is to call `accept_next` for it.  Granted: the limiter said yes,
    `call_accept_now` is next.  Accepting: `async_accept` is running.  Completed: it completed, the connection
    is being inspected.  Continuing: `accept_next` is to be called again.  Pending: stacked in the limiter.
    Waking: taken off the stack.  Posted: an attempt is posted.  Dead: its accept failed, nobody goes on.
  */
  datatype Place = Starting | Granted | Accepting | Completed | Continuing | Pending | Waking | Posted | Dead

  /** `monitors[m]` tells whether monitor m still refers to the limiter; `lost` counts accepts never promoted. */
  datatype State = State(c: Counters, slots: seq<Place>, monitors: seq<bool>, lost: nat)

  datatype Event =
    | AcceptNext(slot: nat)        // the locked section of accept_next
    | CallAccept(slot: nat)        // call_accept_now
    | AcceptDone(slot: nat)
    | AcceptFailed(slot: nat)      // the accept completes with an error
    | Admit(slot: nat)             // the lifetime monitor of a new connection is created
    | Refuse(slot: nat)            // denied by the IP blocker, or an exception before the monitor exists
    | Post(slot: nat)              // schedule_next_accept_attempt
    | MoveMonitor(from: nat)       // move construction of a new monitor
    | AssignMonitor(to: nat, from: nat)
    | DestroyMonitor(monitor: nat)

  function Init(max: nat, slots: nat): State {
    State(Counters(max, 0, 0, []), seq(slots, _ => Starting), [], 0)
  }

  /** A monitor lets go of the limiter, if it has it. */
  function LetGo(s: State, m: nat): State
    requires m < |s.monitors|
  {
    if s.monitors[m] then
      var (c, woken) := s.c.Drop();
      s.(c := c, monitors := s.monitors[m := false], slots := Wake(s.slots, woken))
    else s
  }

  function Wake(slots: seq<Place>, woken: Option<nat>): seq<Place> {
    if woken.Some? && woken.value < |slots| then slots[woken.value := Waking] else slots
  }

  predicate Enabled(s: State, e: Event) {
    match e
    case AcceptNext(i) => i < |s.slots| && s.slots[i] in {Starting, Continuing, Posted}
    case CallAccept(i) => i < |s.slots| && s.slots[i] == Granted
    case AcceptDone(i) => i < |s.slots| && s.slots[i] == Accepting
    case AcceptFailed(i) => i < |s.slots| && s.slots[i] == Accepting
    case Admit(i) => i < |s.slots| && s.slots[i] == Completed
    case Refuse(i) => i < |s.slots| && s.slots[i] == Completed
    case Post(i) => i < |s.slots| && s.slots[i] == Waking
    case MoveMonitor(m) => m < |s.monitors|
    case AssignMonitor(to, from) => to < |s.monitors| && from < |s.monitors| && to != from
    case DestroyMonitor(m) => m < |s.monitors|
  }

  function Step(s: State, e: Event): State
    requires Enabled(s, e)
  {
    match e
    case AcceptNext(i) =>
      var (c, now) := s.c.TryAccept(i);
      s.(c := c, slots := s.slots[i := if now then Granted else Pending])
    case CallAccept(i) => s.(slots := s.slots[i := Accepting])
    case AcceptDone(i) => s.(slots := s.slots[i := Completed])
    case AcceptFailed(i) => s.(slots := s.slots[i := Dead], lost := s.lost + 1)
    case Admit(i) => s.(c := s.c.Promote(), slots := s.slots[i := Continuing], monitors := s.monitors + [true])
    case Refuse(i) => s.(slots := s.slots[i := Continuing], lost := s.lost + 1)
    case Post(i) => s.(slots := s.slots[i := Posted])
    case MoveMonitor(m) => s.(monitors := s.monitors[m := false] + [s.monitors[m]])
    case AssignMonitor(to, from) =>
      var t := LetGo(s, to);
      t.(monitors := t.monitors[to := t.monitors[from]][from := false])
    case DestroyMonitor(m) => LetGo(s, m)
  }

  predicate IsRun(s: State, es: seq<Event>)
    decreases |es|
  {
    es == [] || (Enabled(s, es[0]) && IsRun(Step(s, es[0]), es[1..]))
  }

  function Exec(s: State, es: seq<Event>): State
    requires IsRun(s, es)
    decreases |es|
  {
    if es == [] then s else Exec(Step(s, es[0]), es[1..])
  }

  // ---------------------------------------------------------------- the invariant

  predicate IsBusy(p: Place) { p == Granted || p == Accepting || p == Completed }

  predicate IsTrying(p: Place) { p == Waking || p == Posted }

  function Busy(slots: seq<Place>): nat {
    multiset(slots)[Granted] + multiset(slots)[Accepting] + multiset(slots)[Completed]
  }

  function Trying(slots: seq<Place>): nat { multiset(slots)[Waking] + multiset(slots)[Posted] }

  /** Accepts the limiter counts that are really under way. */
  function UnderWay(s: State): nat { Busy(s.slots) }

  /** Attempts on their way to the limiter. */
  function Attempts(s: State): nat { Trying(s.slots) }

  function Monitored(s: State): nat { multiset(s.monitors)[true] }

  /** The stack holds every pending slot once and nothing else. */
  predicate Stacked(pending: seq<nat>, slots: seq<Place>) {
    && (forall j :: 0 <= j < |pending| ==> pending[j] < |slots| && slots[pending[j]] == Pending)
    && (forall j, k :: 0 <= j < k < |pending| ==> pending[j] != pending[k])
    && (forall i :: 0 <= i < |slots| && slots[i] == Pending ==> i in pending)
  }

  ghost predicate Inv(s: State) {
    && s.c.active == UnderWay(s) + s.lost
    && s.c.connections == Monitored(s)
    && s.c.active + s.c.connections <= s.c.max
    && Stacked(s.c.pending, s.slots)
    && (s.c.pending != [] ==> s.c.max - (s.c.active + s.c.connections) <= Attempts(s))
  }

  lemma InitInv(max: nat, slots: nat)
    ensures Inv(Init(max, slots))
  {
    var s := Init(max, slots);
    assert forall p :: p in multiset(s.slots) ==> p in s.slots;
  }

  // ---------------------------------------------------------------- every step keeps it

  /** Moving slot i elsewhere changes the count of the place it leaves and of the one it comes to. */
  lemma Moved(slots: seq<Place>, i: nat, p: Place)
    requires i < |slots|
    ensures Busy(slots[i := p]) == Busy(slots) - (if IsBusy(slots[i]) then 1 else 0) + if IsBusy(p) then 1 else 0
    ensures Trying(slots[i := p]) == Trying(slots) - (if IsTrying(slots[i]) then 1 else 0) + if IsTrying(p) then 1 else 0
  {
    MovedCount(slots, i, p, Granted);
    MovedCount(slots, i, p, Accepting);
    MovedCount(slots, i, p, Completed);
    MovedCount(slots, i, p, Waking);
    MovedCount(slots, i, p, Posted);
  }

  lemma MovedCount(slots: seq<Place>, i: nat, p: Place, q: Place)
    requires i < |slots|
    ensures multiset(slots[i := p])[q] ==
            multiset(slots)[q] - (if slots[i] == q then 1 else 0) + if p == q then 1 else 0
  {
    var m, m' := multiset(slots), multiset(slots[i := p]);
    assert slots[i] in m && m' == m - multiset{slots[i]} + multiset{p};
  }

  lemma StackedOther(pending: seq<nat>, slots: seq<Place>, i: nat, p: Place)
    requires Stacked(pending, slots) && i < |slots| && slots[i] != Pending && p != Pending
    ensures Stacked(pending, slots[i := p])
  {
  }

  lemma StackedPush(pending: seq<nat>, slots: seq<Place>, i: nat)
    requires Stacked(pending, slots) && i < |slots| && slots[i] != Pending
    ensures Stacked(pending + [i], slots[i := Pending])
  {
  }

  lemma StackedPop(pending: seq<nat>, slots: seq<Place>)
    requires Stacked(pending, slots) && pending != []
    ensures var n := |pending| - 1; pending[n] < |slots| && Stacked(pending[..n], slots[pending[n] := Waking])
  {
    var n := |pending| - 1;
    forall i | 0 <= i < |slots| && i != pending[n] && slots[i] == Pending
      ensures i in pending[..n]
    {
      var j :| 0 <= j < |pending| && pending[j] == i;
      assert pending[..n][j] == i;
    }
  }

  lemma GrantKeeps(s: State, i: nat)
    requires Inv(s) && Enabled(s, AcceptNext(i)) && s.c.HasFreeSlots()
    ensures Inv(Step(s, AcceptNext(i)))
  {
    Moved(s.slots, i, Granted);
    StackedOther(s.c.pending, s.slots, i, Granted);
  }

  lemma ParkKeeps(s: State, i: nat)
    requires Inv(s) && Enabled(s, AcceptNext(i)) && !s.c.HasFreeSlots()
    ensures Inv(Step(s, AcceptNext(i)))
  {
    Moved(s.slots, i, Pending);
    StackedPush(s.c.pending, s.slots, i);
  }

  lemma AcceptNextKeeps(s: State, i: nat)
    requires Inv(s) && Enabled(s, AcceptNext(i))
    ensures Inv(Step(s, AcceptNext(i)))
  {
    if s.c.HasFreeSlots() {
      GrantKeeps(s, i);
    } else {
      ParkKeeps(s, i);
    }
  }

  /** A slot moves on outside the lock. */
  lemma MoveOnKeeps(s: State, i: nat, p: Place, e: Event)
    requires Inv(s) && Enabled(s, e) && i < |s.slots|
    requires match e
             case CallAccept(j) => j == i && p == Accepting
             case AcceptDone(j) => j == i && p == Completed
             case AcceptFailed(j) => j == i && p == Dead
             case Refuse(j) => j == i && p == Continuing
             case Post(j) => j == i && p == Posted
             case _ => false
    ensures Inv(Step(s, e))
  {
    Moved(s.slots, i, p);
    StackedOther(s.c.pending, s.slots, i, p);
    match e
    case CallAccept(_) =>
    case AcceptDone(_) =>
    case AcceptFailed(_) =>
    case Refuse(_) =>
    case Post(_) =>
  }

  lemma AdmitKeeps(s: State, i: nat)
    requires Inv(s) && Enabled(s, Admit(i))
    ensures Inv(Step(s, Admit(i)))
  {
    Moved(s.slots, i, Continuing);
    StackedOther(s.c.pending, s.slots, i, Continuing);
    OneMore(s.monitors);
  }

  lemma OneMore(monitors: seq<bool>)
    ensures multiset(monitors + [true])[true] == multiset(monitors)[true] + 1
  {
  }

  lemma LetGoKeeps(s: State, m: nat)
    requires Inv(s) && m < |s.monitors|
    ensures Inv(LetGo(s, m))
  {
    if s.monitors[m] {
      assert true in multiset(s.monitors);
      if s.c.pending != [] {
        StackedPop(s.c.pending, s.slots);
        Moved(s.slots, s.c.pending[|s.c.pending| - 1], Waking);
      }
    }
  }

  /** Handing the limiter from one monitor to another, new or empty, keeps the number of monitors that have it. */
  lemma HandedOver(monitors: seq<bool>, from: nat, to: nat)
    requires from < |monitors|
    ensures multiset(monitors[from := false] + [monitors[from]])[true] == multiset(monitors)[true]
    ensures to < |monitors| && to != from && !monitors[to] ==>
              multiset(monitors[to := monitors[from]][from := false])[true] == multiset(monitors)[true]
  {
  }

  lemma MonitorKeeps(s: State, e: Event)
    requires Inv(s) && Enabled(s, e) && (e.MoveMonitor? || e.AssignMonitor?)
    ensures Inv(Step(s, e))
  {
    if e.MoveMonitor? {
      HandedOver(s.monitors, e.from, e.from);
    } else {
      LetGoKeeps(s, e.to);
      HandedOver(LetGo(s, e.to).monitors, e.from, e.to);
    }
  }

  /** Every step under every interleaving keeps the invariant. */
  lemma {:induction false} StepKeeps(s: State, e: Event)
    requires Inv(s) && Enabled(s, e)
    ensures Inv(Step(s, e))
  {
    match e
    case AcceptNext(i) => AcceptNextKeeps(s, i);
    case CallAccept(i) => MoveOnKeeps(s, i, Accepting, e);
    case AcceptDone(i) => MoveOnKeeps(s, i, Completed, e);
    case AcceptFailed(i) => MoveOnKeeps(s, i, Dead, e);
    case Admit(i) => AdmitKeeps(s, i);
    case Refuse(i) => MoveOnKeeps(s, i, Continuing, e);
    case Post(i) => MoveOnKeeps(s, i, Posted, e);
    case MoveMonitor(_) => MonitorKeeps(s, e);
    case AssignMonitor(_, _) => MonitorKeeps(s, e);
    case DestroyMonitor(m) => LetGoKeeps(s, m);
  }

  lemma {:induction false} RunKeeps(s: State, es: seq<Event>)
    requires Inv(s) && IsRun(s, es)
    ensures Inv(Exec(s, es))
    decreases |es|
  {
    if es != [] {
      StepKeeps(s, es[0]);
      RunKeeps(Step(s, es[0]), es[1..]);
    }
  }
}
