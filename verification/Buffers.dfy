/**
  Writable items and write groups (buffers.hpp).

  A `Group` is the value of a `write_group_t`: its items, the size of the status line at the head of its
  first item, and its one-shot after-write callback, named by a number.  `WriteGroup` is the object itself.
*/
module Buffers {
  import opened Wrappers

  datatype Item = Buffer(data: string) | File(fd: nat, length: nat) {
    function Size(): nat { if Buffer? then |data| else length }
  }

  datatype Group = Group(items: seq<Item>, statusLine: nat, callback: Option<nat>)

  const EMPTY_GROUP := Group([], 0, None)

  /** A status line can only be recorded for a group that starts with a buffer holding it. */
  predicate StatusLineFits(items: seq<Item>, n: nat) {
    n == 0 || (items != [] && items[0].Buffer? && n <= items[0].Size())
  }

  /** The items of a list of groups, in order. */
  function Flat(gs: seq<Group>): seq<Item> {
    if gs == [] then [] else gs[0].items + Flat(gs[1..])
  }

  lemma {:induction false} FlatConcat(a: seq<Group>, b: seq<Group>)
    ensures Flat(a + b) == Flat(a) + Flat(b)
  {
    if a == [] {
      assert a + b == b;
    } else {
      assert (a + b)[1..] == a[1..] + b;
      FlatConcat(a[1..], b);
    }
  }

  /** Joins two groups: the first keeps its status line, the callback of the second takes over. */
  function Merge(first: Group, second: Group): Group {
    Group(first.items + second.items, first.statusLine, second.callback)
  }

  /** `response_context_t::enqueue_group`: merge into the last group when that is allowed. */
  function Enqueue(gs: seq<Group>, g: Group): seq<Group> {
    if gs != [] && gs[|gs| - 1].callback.None? && g.statusLine == 0
    then gs[..|gs| - 1] + [Merge(gs[|gs| - 1], g)]
    else gs + [g]
  }

  /**
    A callback owed to the handler.  If its part was accepted it belongs to response `response` and is due when the
    first `offset` items of that response are written.
  */
  datatype Debt = Debt(callback: nat, response: nat, offset: nat, accepted: bool)

  /** The callbacks owed by a list of groups that starts `at` items into `response`. */
  function Owed(gs: seq<Group>, response: nat, at: nat): seq<Debt> {
    if gs == [] then []
    else
      var end := at + |gs[0].items|;
      (if gs[0].callback.Some? then [Debt(gs[0].callback.value, response, end, true)] else [])
      + Owed(gs[1..], response, end)
  }

  lemma {:induction false} OwedConcat(a: seq<Group>, b: seq<Group>, response: nat, at: nat)
    ensures Owed(a + b, response, at) == Owed(a, response, at) + Owed(b, response, at + |Flat(a)|)
  {
    if a == [] {
      assert a + b == b;
    } else {
      var end := at + |a[0].items|;
      assert (a + b)[1..] == a[1..] + b;
      assert at + |Flat(a)| == end + |Flat(a[1..])|;
      OwedConcat(a[1..], b, response, end);
    }
  }

  /** The debt that comes with a group queued behind `before` items of a response. */
  function NewDebt(g: Group, response: nat, before: nat): seq<Debt> {
    if g.callback.Some? then [Debt(g.callback.value, response, before + |g.items|, true)] else []
  }

  /** Queueing a group, merged or not, loses no item. */
  lemma EnqueueKeepsItems(gs: seq<Group>, g: Group)
    ensures Flat(Enqueue(gs, g)) == Flat(gs) + g.items
    ensures Enqueue(gs, g) != []
  {
    var n := |gs|;
    if n > 0 && gs[n - 1].callback.None? && g.statusLine == 0 {
      assert gs == gs[..n - 1] + [gs[n - 1]];
      FlatConcat(gs[..n - 1], [gs[n - 1]]);
      FlatConcat(gs[..n - 1], [Merge(gs[n - 1], g)]);
    } else {
      FlatConcat(gs, [g]);
    }
  }

  /** Queueing a group loses no callback and moves no group boundary that carries one. */
  lemma EnqueueKeepsDebts(gs: seq<Group>, g: Group, response: nat, at: nat)
    ensures Owed(Enqueue(gs, g), response, at) == Owed(gs, response, at) + NewDebt(g, response, at + |Flat(gs)|)
  {
    var n := |gs|;
    if n > 0 && gs[n - 1].callback.None? && g.statusLine == 0 {
      var init, last := gs[..n - 1], gs[n - 1];
      assert gs == init + [last];
      FlatConcat(init, [last]);
      OwedConcat(init, [last], response, at);
      OwedConcat(init, [Merge(last, g)], response, at);
    } else {
      OwedConcat(gs, [g], response, at);
    }
  }

  /** The status lines of a list of groups that starts `at` items into a response: where they are, and their sizes. */
  function Marks(gs: seq<Group>, at: nat): seq<(nat, nat)> {
    if gs == [] then [] else MarkOf(gs[0], at) + Marks(gs[1..], at + |gs[0].items|)
  }

  function MarkOf(g: Group, at: nat): seq<(nat, nat)> { if g.statusLine > 0 then [(at, g.statusLine)] else [] }

  lemma {:induction false} MarksConcat(a: seq<Group>, b: seq<Group>, at: nat)
    ensures Marks(a + b, at) == Marks(a, at) + Marks(b, at + |Flat(a)|)
    decreases |a|
  {
    if a == [] {
      assert a + b == b;
    } else {
      assert (a + b)[1..] == a[1..] + b;
      MarksConcat(a[1..], b, at + |a[0].items|);
    }
  }

  lemma MarksOne(g: Group, at: nat)
    ensures Marks([g], at) == MarkOf(g, at)
  {
    assert [g][1..] == [];
  }

  /** Queueing a group keeps every status line at the head of a group. */
  lemma EnqueueKeepsMarks(gs: seq<Group>, g: Group, at: nat)
    ensures Marks(Enqueue(gs, g), at) == Marks(gs, at) + MarkOf(g, at + |Flat(gs)|)
  {
    var n := |gs|;
    if n > 0 && gs[n - 1].callback.None? && g.statusLine == 0 {
      var init, last := gs[..n - 1], gs[n - 1];
      assert gs == init + [last];
      MarksConcat(init, [last], at);
      MarksConcat(init, [Merge(last, g)], at);
      MarksOne(last, at + |Flat(init)|);
      MarksOne(Merge(last, g), at + |Flat(init)|);
    } else {
      MarksConcat(gs, [g], at);
      MarksOne(g, at + |Flat(gs)|);
    }
  }

  /** No two neighbours could be one group: between them is a callback or a status line. */
  predicate Compact(gs: seq<Group>) {
    forall i :: 0 < i < |gs| ==> gs[i - 1].callback.Some? || gs[i].statusLine > 0
  }

  /** Queueing makes as few groups as possible. */
  lemma EnqueueCompact(gs: seq<Group>, g: Group)
    requires Compact(gs)
    ensures Compact(Enqueue(gs, g)) && (gs != [] ==> Compact(gs[1..]))
  {
  }

  /** Why a status line size is refused. */
  datatype StatusLineError = NoItems | FirstItemIsFile | FirstItemTooShort

  /** A move-only object: every callback is in one object at a time or was invoked. */
  class WriteGroup {
    var items: seq<Item>
    var statusLineSize: nat
    var notificator: Option<nat>

    ghost function View(): Group
      reads this
    {
      Group(items, statusLineSize, notificator)
    }

    constructor (items: seq<Item>)
      ensures View() == Group(items, 0, None)
    {
      this.items, statusLineSize, notificator := items, 0, None;
    }

    /** The move constructor leaves the source empty. */
    constructor Moved(from: WriteGroup)
      modifies from
      ensures View() == old(from.View()) && from.View() == EMPTY_GROUP
    {
      items, statusLineSize, notificator := from.items, from.statusLineSize, from.notificator;
      new;
      from.items, from.statusLineSize, from.notificator := [], 0, None;
    }

    /** Accepted exactly when the status line fits into the first item; zero is ignored. */
    method SetStatusLineSize(n: nat) returns (r: Result<(), StatusLineError>)
      modifies this`statusLineSize
      ensures r.Ok? <==> StatusLineFits(items, n)
      ensures r.Err? ==> r.error == if items == [] then NoItems
                                    else if items[0].File? then FirstItemIsFile else FirstItemTooShort
      ensures statusLineSize == if r.Ok? && n != 0 then n else old(statusLineSize)
    {
      if n != 0 {
        if items == [] {
          return Err(NoItems);
        }
        if !items[0].Buffer? {
          return Err(FirstItemIsFile);
        }
        if items[0].Size() < n {
          return Err(FirstItemTooShort);
        }
        statusLineSize := n;
      }
      return Ok(());
    }

    /** Invokes the callback if it is still there; a second call finds none. */
    method InvokeAfterWriteNotificatorIfExists() returns (invoked: Option<nat>)
      modifies this`notificator
      ensures invoked == old(notificator) && notificator == None
    {
      invoked := notificator;
      notificator := None;
    }

    /** Everything moves to where it is queued; what is left dies without a callback. */
    method MoveOut() returns (g: Group)
      modifies this
      ensures g == old(View()) && View() == EMPTY_GROUP
    {
      g := Group(items, statusLineSize, notificator);
      items, statusLineSize, notificator := [], 0, None;
    }

    /** Takes over the items and the callback of another group, which dies without a callback. */
    method MergeWith(second: WriteGroup) returns (invoked: Option<nat>)
      requires second != this
      modifies this, second
      ensures View() == Merge(old(View()), old(second.View()))
      ensures second.notificator == None && invoked == None
    {
      items := items + second.items;
      notificator := second.notificator;
      second.items, second.notificator := [], None;
      invoked := second.Destroy();
    }

    /** The destructor reports an error to a callback that was never invoked. */
    method Destroy() returns (invoked: Option<nat>)
      modifies this`notificator
      ensures invoked == old(notificator) && notificator == None
    {
      invoked := None;
      if notificator.Some? {
        invoked := InvokeAfterWriteNotificatorIfExists();
      }
    }
  }

  /** Merging keeps both callbacks exactly when the first group has none, which is when it is allowed. */
  lemma MergeConserves(first: Group, second: Group)
    ensures Owed([Merge(first, second)], 0, 0) == Owed([first, second], 0, 0) <==> first.callback.None?
  {
    var merged := Merge(first, second);
    assert [merged][1..] == [] && [first, second][1..] == [second] && [second][1..] == [];
    assert Owed([second], 0, |first.items|) == NewDebt(second, 0, |first.items|);
    assert Owed([merged], 0, 0) == NewDebt(merged, 0, 0);
    assert Owed([first, second], 0, 0) == NewDebt(first, 0, 0) + NewDebt(second, 0, |first.items|);
  }
}
