/** What the limiter promises under every interleaving, and when it stops accepting for good. */
module LimiterTheorems {
  import opened Limiter

  ghost predicate Reaches(max: nat, slots: nat, es: seq<Event>, s: State) {
    IsRun(Init(max, slots), es) && s == Exec(Init(max, slots), es)
  }

  /** Accepts of a run that were counted but never became connections. */
  function Failures(es: seq<Event>): nat {
    if es == [] then 0 else (if es[0].Refuse? || es[0].AcceptFailed? then 1 else 0) + Failures(es[1..])
  }

  lemma {:induction false} RunFrame(s: State, es: seq<Event>)
    requires IsRun(s, es)
    ensures var t := Exec(s, es); t.c.max == s.c.max && |t.slots| == |s.slots| && t.lost == s.lost + Failures(es)
    decreases |es|
  {
    if es != [] {
      RunFrame(Step(s, es[0]), es[1..]);
    }
  }

  lemma ReachedInv(max: nat, slots: nat, es: seq<Event>, s: State)
    requires Reaches(max, slots, es, s)
    ensures Inv(s) && s.c.max == max && |s.slots| == slots && s.lost == Failures(es)
  {
    InitInv(max, slots);
    RunKeeps(Init(max, slots), es);
    RunFrame(Init(max, slots), es);
  }

  /**
    No wakeup is lost: while slots are stacked, there are no more free places than attempts on their way; so
    with no attempt on its way the limiter is exactly full.
  */
  lemma NoLostWakeup(max: nat, slots: nat, es: seq<Event>, s: State)
    requires Reaches(max, slots, es, s) && s.c.pending != []
    ensures max - (s.c.active + s.c.connections) <= Attempts(s)
    ensures Attempts(s) == 0 ==> s.c.active + s.c.connections == max
  {
    ReachedInv(max, slots, es, s);
  }

  /**
    Connections are counted exactly, the limit is kept, no counter goes below zero, and the stack never
    outgrows its reserved capacity.
  */
  lemma Accounting(max: nat, slots: nat, es: seq<Event>, s: State)
    requires Reaches(max, slots, es, s)
    ensures s.c.connections == Monitored(s) && s.c.active == UnderWay(s) + Failures(es)
    ensures s.c.active + s.c.connections <= max
    ensures |s.c.pending| <= slots
  {
    ReachedInv(max, slots, es, s);
    DistinctFit(s.c.pending, slots);
  }

  /** The active accepts are exactly those under way, if and only if none was refused or failed. */
  lemma ActiveExact(max: nat, slots: nat, es: seq<Event>, s: State)
    requires Reaches(max, slots, es, s)
    ensures s.c.active == UnderWay(s) <==> Failures(es) == 0
  {
    ReachedInv(max, slots, es, s);
  }

  /** A slot is let in if and only if the accepts under way, those that failed and the connections leave a place. */
  lemma GrantedIff(max: nat, slots: nat, es: seq<Event>, s: State, i: nat)
    requires Reaches(max, slots, es, s) && Enabled(s, AcceptNext(i))
    ensures Step(s, AcceptNext(i)).slots[i] ==
            if UnderWay(s) + Failures(es) + Monitored(s) < max then Granted else Pending
  {
    ReachedInv(max, slots, es, s);
  }

  /** The slot that waits the shortest time is woken: the end of a connection right after it was stacked undoes that. */
  lemma WakesLatest(max: nat, slots: nat, es: seq<Event>, s: State, i: nat, m: nat)
    requires Reaches(max, slots, es, s) && Enabled(s, AcceptNext(i)) && m < |s.monitors| && s.monitors[m]
    requires Step(s, AcceptNext(i)).slots[i] == Pending
    ensures var t := Step(Step(s, AcceptNext(i)), DestroyMonitor(m));
            t.slots == s.slots[i := Waking] && t.c.pending == s.c.pending
  {
    ReachedInv(max, slots, es, s);
    var p := s.c.pending + [i];
    assert p[..|p| - 1] == s.c.pending;
    assert s.slots[i := Pending][i := Waking] == s.slots[i := Waking];
  }

  lemma {:induction false} DistinctFit(p: seq<nat>, n: nat)
    requires forall j :: 0 <= j < |p| ==> p[j] < n
    requires forall j, k :: 0 <= j < k < |p| ==> p[j] != p[k]
    ensures |p| <= n
  {
    if p != [] {
      assert n > 0 by { assert p[0] < n; }
      if j :| 0 <= j < |p| && p[j] == n - 1 {
        var q := p[..j] + p[j + 1..];
        forall k | 0 <= k < |q|
          ensures q[k] < n - 1
        {
          assert q[k] == p[if k < j then k else k + 1];
        }
        DistinctFit(q, n - 1);
      } else {
        DistinctFit(p, n - 1);
      }
    }
  }

  // ---------------------------------------------------------------- when accepting stops

  /** Someone can still get in: a run leads to an accept under way. */
  ghost predicate CanAccept(s: State) {
    exists es :: IsRun(s, es) && Accepting in Exec(s, es).slots
  }

  /** With as many failures as there are places, nothing is accepted ever again. */
  lemma Deaf(s: State, es: seq<Event>)
    requires Inv(s) && s.lost >= s.c.max && IsRun(s, es)
    ensures var t := Exec(s, es); UnderWay(t) == 0 && t.c.connections == 0
  {
    RunKeeps(s, es);
    RunFrame(s, es);
  }

  /** A slot that may call accept_next. */
  predicate Caller(s: State, i: nat) { Enabled(s, AcceptNext(i)) }

  lemma NowLeads(s: State)
    requires Accepting in s.slots
    ensures CanAccept(s)
  {
    assert IsRun(s, []) && Exec(s, []) == s;
  }

  lemma StepLeads(s: State, e: Event)
    requires Enabled(s, e) && CanAccept(Step(s, e))
    ensures CanAccept(s)
  {
    var es :| IsRun(Step(s, e), es) && Accepting in Exec(Step(s, e), es).slots;
    assert ([e] + es)[1..] == es;
    assert IsRun(s, [e] + es) && Exec(s, [e] + es) == Exec(Step(s, e), es);
  }

  lemma GrantedLeads(s: State, i: nat)
    requires i < |s.slots| && s.slots[i] == Granted
    ensures CanAccept(s)
  {
    var t := Step(s, CallAccept(i));
    assert t.slots[i] == Accepting;
    NowLeads(t);
    StepLeads(s, CallAccept(i));
  }

  /** With a free place any caller gets an accept. */
  lemma FreeLeads(s: State, i: nat)
    requires Caller(s, i) && s.c.HasFreeSlots()
    ensures CanAccept(s)
  {
    GrantedLeads(Step(s, AcceptNext(i)), i);
    StepLeads(s, AcceptNext(i));
  }

  /** With a connection to end, too. */
  lemma ConnectedLeads(s: State, i: nat)
    requires Inv(s) && Caller(s, i) && s.c.connections > 0
    ensures CanAccept(s)
  {
    assert true in multiset(s.monitors);
    var m :| 0 <= m < |s.monitors| && s.monitors[m];
    FreeLeads(Step(s, DestroyMonitor(m)), i);
    StepLeads(s, DestroyMonitor(m));
  }

  lemma UnderWayLeads(s: State)
    requires Inv(s) && UnderWay(s) > 0
    ensures CanAccept(s)
  {
    if Accepting in multiset(s.slots) {
      NowLeads(s);
    } else if Granted in multiset(s.slots) {
      var i :| 0 <= i < |s.slots| && s.slots[i] == Granted;
      GrantedLeads(s, i);
    } else {
      assert Completed in multiset(s.slots);
      var i :| 0 <= i < |s.slots| && s.slots[i] == Completed;
      StepKeeps(s, Admit(i));
      ConnectedLeads(Step(s, Admit(i)), i);
      StepLeads(s, Admit(i));
    }
  }

  lemma CallerLeads(s: State, i: nat)
    requires Inv(s) && s.lost < s.c.max && Caller(s, i)
    ensures CanAccept(s)
  {
    if s.c.HasFreeSlots() {
      FreeLeads(s, i);
    } else if s.c.connections > 0 {
      ConnectedLeads(s, i);
    } else {
      UnderWayLeads(s);
    }
  }

  lemma WakingLeads(s: State, i: nat)
    requires Inv(s) && s.lost < s.c.max && i < |s.slots| && s.slots[i] == Waking
    ensures CanAccept(s)
  {
    StepKeeps(s, Post(i));
    CallerLeads(Step(s, Post(i)), i);
    StepLeads(s, Post(i));
  }

  lemma PendingLeads(s: State)
    requires Inv(s) && s.lost < s.c.max && s.c.pending != []
    ensures CanAccept(s)
  {
    if Waking in multiset(s.slots) {
      var i :| 0 <= i < |s.slots| && s.slots[i] == Waking;
      WakingLeads(s, i);
    } else if Posted in multiset(s.slots) {
      var i :| 0 <= i < |s.slots| && s.slots[i] == Posted;
      CallerLeads(s, i);
    } else if UnderWay(s) > 0 {
      UnderWayLeads(s);
    } else {
      EndedLeads(s);
    }
  }

  /** The end of a connection wakes the slot on top of the stack. */
  lemma EndedLeads(s: State)
    requires Inv(s) && s.lost < s.c.max && s.c.pending != [] && s.c.connections > 0
    ensures CanAccept(s)
  {
    assert true in multiset(s.monitors);
    var m :| 0 <= m < |s.monitors| && s.monitors[m];
    StepKeeps(s, DestroyMonitor(m));
    EndedWakes(s, m);
    WakingLeads(Step(s, DestroyMonitor(m)), s.c.pending[|s.c.pending| - 1]);
    StepLeads(s, DestroyMonitor(m));
  }

  lemma EndedWakes(s: State, m: nat)
    requires Inv(s) && s.c.pending != [] && m < |s.monitors| && s.monitors[m]
    ensures var t := Step(s, DestroyMonitor(m)); var i := s.c.pending[|s.c.pending| - 1];
            t.lost == s.lost && t.c.max == s.c.max && i < |t.slots| && t.slots[i] == Waking
  {
    assert true in multiset(s.monitors);
  }

  /**
    In every reachable state: a new connection can still be accepted if and only if fewer accepts were refused
    or failed than there are places, and some slot has not died of a failed accept.
  */
  lemma AcceptsIffNotLost(max: nat, slots: nat, es: seq<Event>, s: State)
    requires Reaches(max, slots, es, s)
    ensures CanAccept(s) <==> Failures(es) < max && exists i :: 0 <= i < |s.slots| && s.slots[i] != Dead
  {
    ReachedInv(max, slots, es, s);
    if s.lost < max && exists i :: 0 <= i < |s.slots| && s.slots[i] != Dead {
      var i :| 0 <= i < |s.slots| && s.slots[i] != Dead;
      assert s.slots[i] in multiset(s.slots);
      match s.slots[i]
      case Pending => PendingLeads(s);
      case Waking => WakingLeads(s, i);
      case Starting => CallerLeads(s, i);
      case Continuing => CallerLeads(s, i);
      case Posted => CallerLeads(s, i);
      case Granted => UnderWayLeads(s);
      case Accepting => UnderWayLeads(s);
      case Completed => UnderWayLeads(s);
      case Dead =>
    }
    if CanAccept(s) {
      var more :| IsRun(s, more) && Accepting in Exec(s, more).slots;
      assert Accepting in multiset(Exec(s, more).slots);
      if s.lost >= max {
        Deaf(s, more);
      } else {
        DeadStaysDead(s, more);
        RunFrame(s, more);
        var i :| 0 <= i < |Exec(s, more).slots| && Exec(s, more).slots[i] == Accepting;
        assert s.slots[i] != Dead;
      }
    }
  }

  lemma {:induction false} DeadStaysDead(s: State, es: seq<Event>)
    requires Inv(s) && IsRun(s, es)
    ensures forall i :: 0 <= i < |s.slots| && s.slots[i] == Dead ==> i < |Exec(s, es).slots| && Exec(s, es).slots[i] == Dead
    decreases |es|
  {
    if es != [] {
      StepKeeps(s, es[0]);
      DeadStays(s, es[0]);
      DeadStaysDead(Step(s, es[0]), es[1..]);
    }
    RunFrame(s, es);
  }

  lemma DeadStays(s: State, e: Event)
    requires Inv(s) && Enabled(s, e)
    ensures forall i :: 0 <= i < |s.slots| && s.slots[i] == Dead ==> Step(s, e).slots[i] == Dead
  {
  }

  /** One place and one refused connection: the slot waits for ever, and nothing is accepted again. */
  lemma OneRefusalDeafens()
    ensures var es := [AcceptNext(0), CallAccept(0), AcceptDone(0), Refuse(0), AcceptNext(0)];
            && IsRun(Init(1, 1), es)
            && Exec(Init(1, 1), es) == State(Counters(1, 1, 0, [0]), [Pending], [], 1)
            && !CanAccept(Exec(Init(1, 1), es))
  {
    var es := [AcceptNext(0), CallAccept(0), AcceptDone(0), Refuse(0), AcceptNext(0)];
    OneRefusal();
    assert Failures(es) == 1 by {
      assert Failures(es[4..]) == 0 && Failures(es[3..]) == 1;
      assert es[1..][1..] == es[2..] && es[2..][1..] == es[3..] && es[3..][1..] == es[4..];
    }
    AcceptsIffNotLost(1, 1, es, Exec(Init(1, 1), es));
  }

  lemma OneRefusal()
    ensures var es := [AcceptNext(0), CallAccept(0), AcceptDone(0), Refuse(0), AcceptNext(0)];
            && IsRun(Init(1, 1), es)
            && Exec(Init(1, 1), es) == State(Counters(1, 1, 0, [0]), [Pending], [], 1)
  {
    var s0 := Init(1, 1);
    assert s0.slots == [Starting];
    var s1 := Step(s0, AcceptNext(0));
    var s2 := Step(s1, CallAccept(0));
    var s3 := Step(s2, AcceptDone(0));
    var s4 := Step(s3, Refuse(0));
    assert IsRun(s4, [AcceptNext(0)]);
    assert IsRun(s3, [Refuse(0), AcceptNext(0)]) by { assert [Refuse(0), AcceptNext(0)][1..] == [AcceptNext(0)]; }
    var es2 := [AcceptDone(0), Refuse(0), AcceptNext(0)];
    assert es2[1..] == [Refuse(0), AcceptNext(0)];
    var es1 := [CallAccept(0)] + es2;
    assert es1[1..] == es2;
    var es := [AcceptNext(0)] + es1;
    assert es[1..] == es1;
    assert es == [AcceptNext(0), CallAccept(0), AcceptDone(0), Refuse(0), AcceptNext(0)];
  }
}
