/**
  `response_context_table_t` and `response_coordinator_t` (response_coordinator.hpp) as the objects they are:
  a ring of context slots that are recycled without being cleared, and the coordinator on top of it.
*/
module Coordinator {
  import opened Wrappers
  import opened Buffers
  import opened Pipeline
  import opened RequestIds
  import opened Sequences

  /** A position in the ring, at most once around. */
  function Wrap(a: nat, n: nat): (r: nat)
    requires a < 2 * n
    ensures r < n
  {
    if a < n then a else a - n
  }

  lemma WrapIsMod(a: nat, n: nat)
    requires a < 2 * n
    ensures a % n == Wrap(a, n)
  {
  }

  /** `count` slots from `first` on, around the end of the ring. */
  function Window(ring: seq<Context>, first: nat, count: nat): (w: seq<Context>)
    requires count <= |ring| && first <= |ring|
    ensures |w| == count
  {
    if first + count <= |ring| then ring[first..first + count] else ring[first..] + ring[..first + count - |ring|]
  }

  /** The slot behind the window comes into it. */
  lemma WindowMore(ring: seq<Context>, first: nat, count: nat, i: nat, c: Context)
    requires count < |ring| && first < |ring| && i == Wrap(first + count, |ring|)
    ensures i < |ring| && Window(ring[i := c], first, count + 1) == Window(ring, first, count) + [c]
  {
  }

  class ContextTable {
    const slots: array<Context>
    var first: nat
    var count: nat
    ghost var contents: seq<Context>  // the live contexts, oldest first

    /** Whether slot i is inside the window of live contexts. */
    predicate Live(i: nat)
      reads this
    {
      first <= i < first + count || i + slots.Length < first + count
    }

    /**
      The window of live contexts lies in the ring, and slots outside it hold no groups: nobody clears them
      when they are used again.
    */
    ghost predicate Valid()
      reads this, slots
    {
      && |contents| == count <= slots.Length
      && (first < slots.Length || first == count == 0)
      && contents == Window(slots[..], first, count)
      && forall i :: 0 <= i < slots.Length && !Live(i) ==> slots[i].groups == []
    }

    constructor (capacity: nat)
      ensures Valid() && fresh(slots) && slots.Length == capacity && contents == []
    {
      slots := new Context[capacity](_ => Context(0, [], Flags(false, false)));
      first, count, contents := 0, 0, [];
    }

    method Front() returns (c: Context)
      requires Valid() && contents != []
      ensures c == contents[0]
    {
      c := slots[first];
    }

    method Back() returns (c: Context)
      requires Valid() && contents != []
      ensures c == contents[|contents| - 1]
    {
      WrapIsMod(first + (count - 1), slots.Length);
      c := slots[(first + (count - 1)) % slots.Length];
    }

    /** The slot of the context with a request id, as computed from the ids of the first and last context. */
    method GetByRequestId(request: nat) returns (r: Option<nat>)
      requires Valid()
      ensures r == match Lookup(contents, request)
                   case None => None
                   case Some(k) => Some((first + k) % slots.Length)
    {
      if count == 0 {
        return None;
      }
      var front := Front();
      var back := Back();
      if request < front.requestId || request > back.requestId {
        return None;
      }
      return Some((first + (request - front.requestId)) % slots.Length);
    }

    /** Takes the next slot into the window; only its id and flags are reset. */
    method Push(requestId: nat) returns (ok: bool)
      requires Valid()
      modifies this`count, this`contents, slots
      ensures Valid()
      ensures ok == (|old(contents)| < slots.Length)
      ensures contents ==
              if ok then old(contents) + [Context(requestId, [], Flags(false, false))] else old(contents)
    {
      if count == slots.Length {
        return false;
      }
      WrapIsMod(first + count, slots.Length);
      var i := (first + count) % slots.Length;
      WindowMore(slots[..], first, count, i, slots[i].(requestId := requestId, flags := Flags(false, false)));
      slots[i] := slots[i].(requestId := requestId, flags := Flags(false, false));
      contents := contents + [slots[i]];
      count := count + 1;
      return true;
    }

    /** Gives the first slot back. */
    method PopNonchecked()
      requires Valid() && contents != [] && contents[0].groups == []
      modifies this`first, this`count, this`contents
      ensures Valid() && contents == old(contents)[1..]
    {
      count := count - 1;
      first := first + 1;
      if slots.Length == first {
        first := 0;
      }
      contents := contents[1..];
    }

    /** Overwrites the k-th live context in its slot. */
    method Store(i: nat, ghost k: nat, c: Context)
      requires Valid() && k < count && i == Wrap(first + k, slots.Length)
      modifies this`contents, slots
      ensures Valid() && contents == old(contents)[k := c]
    {
      slots[i] := c;
      contents := contents[k := c];
    }
  }

  /** What the coordinator throws. */
  datatype Refusal = TableFull | CoordinatorClosed | UnknownRequest | AlreadyComplete

  class ResponseCoordinator {
    const table: ContextTable
    var counter: nat
    var closed: bool
    ghost var registered: nat

    ghost predicate Valid()
      reads this, table, table.slots
    {
      && table.Valid() && table.count <= registered && table.slots.Length < ID_SPACE
      && counter == registered % ID_SPACE
      && Consecutive(table.contents, registered)
    }

    constructor (maxRequests: nat)
      requires maxRequests < ID_SPACE
      ensures Valid() && fresh(table) && fresh(table.slots) && table.slots.Length == maxRequests
      ensures table.contents == [] && !closed && registered == 0
    {
      table := new ContextTable(maxRequests);
      counter, closed, registered := 0, false, 0;
    }

    /** Reserves a context for the next request; fails when all are taken. */
    method RegisterNewRequest() returns (r: Result<nat, Refusal>)
      requires Valid()
      modifies this`counter, this`registered, table, table.slots
      ensures Valid()
      ensures r == if |old(table.contents)| < table.slots.Length then Ok(old(registered) % ID_SPACE) else Err(TableFull)
      ensures r.Err? ==> table.contents == old(table.contents) && registered == old(registered)
      ensures r.Ok? ==>
                && registered == old(registered) + 1
                && table.contents == old(table.contents) + [Context(r.value, [], Flags(false, false))]
    {
      ConsecutiveNext(table.contents, registered, Context(counter, [], Flags(false, false)));
      var ok := table.Push(counter);
      if !ok {
        return Err(TableFull);
      }
      r := Ok(counter);
      counter := (counter + 1) % ID_SPACE;
      registered := registered + 1;
    }

    /** Queues a part of the response to a request; a group that is refused dies, and its callback hears of it. */
    method AppendResponse(request: nat, flags: Flags, wg: WriteGroup)
      returns (r: Result<(), Refusal>, invoked: Option<nat>)
      requires Valid() && request < ID_SPACE
      modifies table`contents, table.slots, wg
      ensures wg.notificator == None && invoked == if r.Err? then old(wg.notificator) else None
      ensures Valid()
      ensures r == if closed then Err(CoordinatorClosed)
                   else if Lookup(old(table.contents), request).None? then Err(UnknownRequest)
                   else if Target(old(table.contents), request).None? then Err(AlreadyComplete)
                   else Ok(())
      ensures r.Err? ==> table.contents == old(table.contents)
      ensures r.Ok? ==>
                var k := Target(old(table.contents), request).value;
                table.contents == old(table.contents)[k := old(table.contents)[k].(flags := flags, groups := Enqueue(old(table.contents)[k].groups, old(wg.View())))]
    {
      if closed {
        invoked := wg.Destroy();
        return Err(CoordinatorClosed), invoked;
      }
      LookupExact(table.contents, registered, request);
      var i := table.GetByRequestId(request);
      if i.None? {
        invoked := wg.Destroy();
        return Err(UnknownRequest), invoked;
      }
      ghost var k := Lookup(table.contents, request).value;
      WrapIsMod(table.first + k, table.slots.Length);
      var ctx := table.slots[i.value];
      assert ctx == table.contents[k];
      if ctx.flags.final {
        invoked := wg.Destroy();
        return Err(AlreadyComplete), invoked;
      }
      var g := wg.MoveOut();
      ctx := ctx.(flags := flags, groups := Enqueue(ctx.groups, g));
      ConsecutiveKeeps(table.contents, registered, k, ctx);
      table.Store(i.value, k, ctx);
      return Ok(()), None;
    }

    /** Hands out the next group of the oldest response, retiring its context when that response is over. */
    method PopReadyBuffers() returns (r: Result<Option<(Group, nat)>, Refusal>)
      requires Valid()
      modifies this`closed, table, table.slots
      ensures Valid()
      ensures r.Err? <==> old(closed)
      ensures r.Ok? ==> (r.value.Some? <==> old(table.contents) != [] && old(table.contents)[0].groups != [])
      ensures r.Err? || r.value.None? ==> table.contents == old(table.contents) && closed == old(closed)
      ensures r.Err? ==> r.error == CoordinatorClosed
      ensures r.Ok? && r.value.Some? ==>
                && r.value.value == (old(table.contents)[0].groups[0], old(table.contents)[0].requestId)
                && table.contents == Popped(old(table.contents))
                && closed == (|table.contents| < |old(table.contents)| && old(table.contents)[0].flags.close)
    {
      if closed {
        return Err(CoordinatorClosed);
      }
      r := Ok(None);
      if table.count != 0 {
        var front := table.Front();
        if front.groups != [] {
          var g := DequeueFront();
          r := Ok(Some((g, front.requestId)));
          front := front.(groups := front.groups[1..]);
          if front.groups == [] && front.flags.final {
            closed := front.flags.final && front.flags.close;
            ConsecutiveKeeps(table.contents, registered, 0, front);
            table.PopNonchecked();
          }
        }
      }
    }

    /** Drains the table; the callbacks of all queued groups are invoked, in order. */
    method Reset() returns (invoked: seq<nat>)
      requires Valid()
      modifies table, table.slots
      ensures Valid() && table.contents == []
      ensures invoked == QueueCallbacks(old(table.contents))
    {
      invoked := [];
      while table.count != 0
        invariant Valid()
        invariant invoked + QueueCallbacks(table.contents) == QueueCallbacks(old(table.contents))
        decreases table.count
      {
        invoked := DrainFront(invoked);
        ConsecutiveKeeps(table.contents, registered, 0, table.contents[0]);
        table.PopNonchecked();
      }
    }

    /** Dequeues every group of the front context. */
    method DrainFront(before: seq<nat>) returns (invoked: seq<nat>)
      requires Valid() && table.contents != []
      modifies table`contents, table.slots
      ensures Valid() && |table.contents| == |old(table.contents)| && table.contents[0].groups == []
      ensures invoked + QueueCallbacks(table.contents[1..]) == before + QueueCallbacks(old(table.contents))
    {
      invoked := before;
      var front := table.Front();
      while front.groups != []
        invariant Valid() && |table.contents| == |old(table.contents)| && front == table.contents[0]
        invariant invoked + QueueCallbacks(table.contents) == before + QueueCallbacks(old(table.contents))
        decreases |front.groups|
      {
        DequeueCallbacks(table.contents);
        var g := DequeueFront();
        Regroup(invoked, CallbackOf(g), QueueCallbacks(table.contents));
        invoked := invoked + CallbackOf(g);
        front := front.(groups := front.groups[1..]);
      }
      Regroup([], [], QueueCallbacks(table.contents[1..]));
    }

    /** Takes the first group out of the front context. */
    method DequeueFront() returns (g: Group)
      requires Valid() && table.contents != [] && table.contents[0].groups != []
      modifies table`contents, table.slots
      ensures Valid() && g == old(table.contents[0].groups[0])
      ensures table.contents == old(table.contents)[0 := old(table.contents[0].(groups := table.contents[0].groups[1..]))]
    {
      var front := table.Front();
      g := front.groups[0];
      front := front.(groups := front.groups[1..]);
      ConsecutiveKeeps(table.contents, registered, 0, front);
      table.Store(table.first, 0, front);
    }
  }

  lemma DequeueCallbacks(queue: seq<Context>)
    requires queue != [] && queue[0].groups != []
    ensures QueueCallbacks(queue) ==
            CallbackOf(queue[0].groups[0]) + QueueCallbacks(queue[0 := queue[0].(groups := queue[0].groups[1..])])
  {
  }
}
