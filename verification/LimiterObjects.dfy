/** `actual_limiter_t` and `connection_lifetime_monitor_t` as objects. */
module LimiterObjects {
  import opened Wrappers
  import opened Limiter

  class ActualLimiter {
    const max: nat
    var active: int
    var connections: int
    var pending: seq<nat>

    ghost function View(): Counters
      reads this
    {
      Counters(max, active, connections, pending)
    }

    constructor (maxParallelConnections: nat)
      ensures View() == Counters(maxParallelConnections, 0, 0, [])
    {
      max := maxParallelConnections;
      active, connections, pending := 0, 0, [];
    }

    method IncrementParallelConnections()
      modifies this
      ensures View() == old(View()).Promote()
    {
      active := active - 1;
      connections := connections + 1;
    }

    /** Tells which stacked slot the acceptor is to schedule. */
    method DecrementParallelConnections() returns (schedule: Option<nat>)
      modifies this
      ensures (View(), schedule) == old(View()).Drop()
    {
      connections := connections - 1;
      if active + connections < max && pending != [] {
        schedule := Some(pending[|pending| - 1]);
        pending := pending[..|pending| - 1];
      } else {
        schedule := None;
      }
    }

    /** Tells whether the acceptor is to call accept now. */
    method AcceptNext(index: nat) returns (acceptNow: bool)
      modifies this
      ensures (View(), acceptNow) == old(View()).TryAccept(index)
    {
      if active + connections < max {
        active := active + 1;
        acceptNow := true;
      } else {
        pending := pending + [index];
        acceptNow := false;
      }
    }
  }

  /** Move-only: at most one monitor answers for a connection. */
  class LifetimeMonitor {
    var manager: ActualLimiter?

    constructor (limiter: ActualLimiter)
      modifies limiter
      ensures manager == limiter && limiter.View() == old(limiter.View()).Promote()
    {
      manager := limiter;
      new;
      limiter.IncrementParallelConnections();
    }

    constructor Moved(other: LifetimeMonitor)
      modifies other
      ensures manager == old(other.manager) && other.manager == null
    {
      manager := other.manager;
      new;
      other.manager := null;
    }

    /** The old connection of this monitor, if any, is let go; the other's is taken over. */
    method Assign(other: LifetimeMonitor) returns (schedule: Option<nat>)
      modifies this, other, manager
      ensures manager == old(other.manager) && (other != this ==> other.manager == null)
      ensures other == this || old(manager) == null ==> schedule == None
      ensures other != this && old(manager) != null ==>
                (old(manager).View(), schedule) == old(manager.View()).Drop()
    {
      var tmp := new LifetimeMonitor.Moved(other);
      manager, tmp.manager := tmp.manager, manager;
      schedule := tmp.Destroy();
    }

    method Destroy() returns (schedule: Option<nat>)
      modifies manager
      ensures manager == null ==> schedule == None
      ensures manager != null ==>
                (manager.View(), schedule) == old(manager.View()).Drop()
    {
      schedule := None;
      if manager != null {
        schedule := manager.DecrementParallelConnections();
      }
    }
  }
}
