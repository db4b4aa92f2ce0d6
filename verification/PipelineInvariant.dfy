/**
  The invariant of the pipeline.  Its clauses speak about the few components they need, so that each
  operation on the queue has one small lemma per clause.
*/
module PipelineInvariant {
  import opened Buffers
  import opened Pipeline
  import opened RequestIds
  import opened Sequences

  // ---------------------------------------------------------------- vocabulary

  /** The items of the first n responses, one response after the other. */
  function Cat(responses: seq<seq<Item>>, n: nat): seq<Item>
    requires n <= |responses|
  {
    if n == 0 then [] else Cat(responses, n - 1) + responses[n - 1]
  }

  /** The items of the current group that are not handed to the socket yet. */
  function Rest(s: State): seq<Item> {
    if s.phase.Idle? || s.phase.Stuck? || s.index > |s.current.items| then [] else s.current.items[s.index..]
  }

  /** What was handed to the socket followed by what is bound to follow. */
  function Taken(s: State): seq<Item> { s.sent + Rest(s) }

  function Held(s: State): seq<nat> { CallbackOf(s.current) + QueueCallbacks(s.queue) }

  function Ids(fired: seq<Fired>): seq<nat> {
    seq(|fired|, i requires 0 <= i < |fired| => fired[i].callback)
  }

  function Numbers(n: nat): seq<nat> { seq(n, i => i) }

  // ---------------------------------------------------------------- clauses

  /** No context has a group queued. */
  predicate Quiet(queue: seq<Context>) {
    forall k :: 0 <= k < |queue| ==> queue[k].groups == []
  }

  /** No context waits in the queue although its response is over. */
  predicate Unstuck(queue: seq<Context>) {
    forall k :: 0 <= k < |queue| ==> !(queue[k].flags.final && queue[k].groups == [])
  }

  /** The contexts are those of the last registered requests, in order. */
  predicate Numbered(queue: seq<Context>, flags: seq<Flags>)
    requires |queue| <= |flags|
  {
    Consecutive(queue, |flags|) && forall k :: 0 <= k < |queue| ==> queue[k].flags == flags[|flags| - |queue| + k]
  }

  predicate AllFinal(flags: seq<Flags>, n: nat)
    requires n <= |flags|
  {
    forall r :: 0 <= r < n ==> flags[r].final
  }

  /** The items taken so far and then the queued ones are the responses in the order of their requests. */
  predicate InOrder(queue: seq<Context>, appended: seq<seq<Item>>, taken: seq<Item>)
    requires |queue| <= |appended|
  {
    var base := |appended| - |queue|;
    if queue == [] then taken == Cat(appended, base)
    else
      && taken + Flat(queue[0].groups) == Cat(appended, base) + appended[base]
      && forall k :: 1 <= k < |queue| ==> appended[base + k] == Flat(queue[k].groups)
  }

  /** Nothing of a response was taken before all earlier responses were over. */
  ghost predicate Sequential(appended: seq<seq<Item>>, flags: seq<Flags>, taken: seq<Item>) {
    |appended| == |flags| && exists b: nat :: ReachesTo(appended, flags, taken, b)
  }

  predicate ReachesTo(appended: seq<seq<Item>>, flags: seq<Flags>, taken: seq<Item>, b: nat) {
    && b <= |appended| && b <= |flags| && AllFinal(flags, b)
    && taken <= Cat(appended, if b < |appended| then b + 1 else b)
  }

  /** A final connection-close response ended the stream. */
  predicate Ended(appended: seq<seq<Item>>, flags: seq<Flags>, closeAt: nat) {
    0 < closeAt <= |appended| == |flags| && flags[closeAt - 1] == Flags(true, true)
  }

  predicate Recorded(debts: seq<Debt>, ds: seq<Debt>) {
    forall i :: 0 <= i < |ds| ==> ds[i].callback < |debts| && debts[ds[i].callback] == ds[i]
  }

  /** The queued groups of response r owe what is recorded. */
  predicate Filed(gs: seq<Group>, r: nat, items: seq<Item>, debts: seq<Debt>) {
    |Flat(gs)| <= |items| && Recorded(debts, Owed(gs, r, |items| - |Flat(gs)|))
  }

  predicate AllFiled(queue: seq<Context>, appended: seq<seq<Item>>, debts: seq<Debt>)
    requires |queue| <= |appended|
  {
    var base := |appended| - |queue|;
    forall k :: 0 <= k < |queue| ==> Filed(queue[k].groups, base + k, appended[base + k], debts)
  }

  /** The number of items that are written when a debt is due. */
  function DueAt(appended: seq<seq<Item>>, d: Debt): nat
    requires d.response <= |appended|
  {
    |Cat(appended, d.response)| + d.offset
  }

  /** A debt of one of the first n responses, due by the time `count` items are written. */
  predicate DueBy(appended: seq<seq<Item>>, d: Debt, n: nat, count: nat)
  {
    && d.accepted && d.response <= n && d.response < |appended| && d.offset <= |appended[d.response]|
    && DueAt(appended, d) <= count
  }

  /** The callback of the current group is due, at the latest, when that group is written. */
  predicate CurrentDue(current: Group, phase: Phase, debts: seq<Debt>, appended: seq<seq<Item>>, n: nat, count: nat) {
    current.callback.Some? ==>
      && !phase.Idle?
      && current.callback.value < |debts|
      && (!phase.Stuck? ==> DueBy(appended, debts[current.callback.value], n, count))
  }

  /** The callbacks held and the callbacks invoked are all there are, each once. */
  predicate Conserved(held: seq<nat>, fired: seq<Fired>, n: nat) {
    multiset(held) + multiset(Ids(fired)) == multiset(Numbers(n))
  }

  /** A callback that was invoked with success was due by the time `count` items were written. */
  predicate Honest(fired: seq<Fired>, debts: seq<Debt>, appended: seq<seq<Item>>, n: nat, count: nat) {
    forall i :: 0 <= i < |fired| && fired[i].success ==>
      fired[i].callback < |debts| && DueBy(appended, debts[fired[i].callback], n, count)
  }

  // ---------------------------------------------------------------- the invariant

  ghost predicate Shape(s: State) {
    && WellFormed(s)
    && |s.queue| <= s.capacity < ID_SPACE
    && Numbered(s.queue, s.flags)
    && Unstuck(s.queue)
    && (s.open ==> AllFinal(s.flags, Base(s)))
    && (!s.open ==> Quiet(s.queue))
  }

  ghost predicate Order(s: State)
    requires WellFormed(s)
  {
    && (s.open ==> InOrder(s.queue, s.appended, Taken(s)))
    && (!s.open ==> Sequential(s.appended, s.flags, Taken(s)))
    && (s.closing ==>
          && Ended(s.appended, s.flags, s.closeAt)
          && (!s.open ==> Taken(s) <= Cat(s.appended, s.closeAt))
          && (s.open ==> s.closeAt == Base(s) && Taken(s) == Cat(s.appended, s.closeAt)))
  }

  /** The item index, the operation in flight and what was written. */
  ghost predicate Flow(s: State) {
    && s.written <= s.sent
    && (s.phase.Idle? && s.open ==> s.index == 0)
    && (!s.phase.Idle? ==> s.index <= |s.current.items|)
    && (s.phase.Finishing? ==> s.index == |s.current.items| && s.current.callback.None?)
    && (s.phase.Stuck? ==> !s.open)
    && (s.phase.Ready? || s.phase.Finishing? || (s.phase.Idle? && s.open) ==> s.sent == s.written)
    && (s.phase.Busy? ==>
          && 0 < s.phase.count <= s.index
          && s.sent == s.written + s.current.items[s.index - s.phase.count..s.index])
  }

  /** Nothing that could be written or read is forgotten. */
  ghost predicate Live(s: State) {
    && (s.open && !s.closing && s.phase.Idle? && !s.pumpDue ==> s.queue == [] || s.queue[0].groups == [])
    && (s.open && s.closing ==> !s.phase.Idle?)
    && (s.open && !s.closing && s.paused ==> |s.queue| == s.capacity || (s.resume && !s.phase.Idle?))
  }

  /** Responses that can no longer grow. */
  function Fixed(s: State): nat
    requires WellFormed(s)
  {
    if s.open then Base(s) else s.registered
  }

  /** Every callback is in exactly one place, and success means that all it waits for is written. */
  ghost predicate Ledger(s: State)
    requires WellFormed(s)
  {
    && Conserved(Held(s), s.fired, |s.debts|)
    && AllFiled(s.queue, s.appended, s.debts)
    && CurrentDue(s.current, s.phase, s.debts, s.appended, Fixed(s), |Taken(s)|)
    && Honest(s.fired, s.debts, s.appended, Fixed(s), |s.written|)
  }

  ghost predicate Core(s: State) {
    Shape(s) && Order(s) && Flow(s) && Ledger(s)
  }

  ghost predicate Inv(s: State) {
    Core(s) && Live(s)
  }

  // ---------------------------------------------------------------- concatenations

  lemma {:induction false} CatPrefix(a: seq<seq<Item>>, m: nat, n: nat)
    requires m <= n <= |a|
    ensures Cat(a, m) <= Cat(a, n)
  {
    if m < n {
      CatPrefix(a, m, n - 1);
    }
  }

  /** Responses from number n on do not matter for the first n. */
  lemma {:induction false} CatFrame(a: seq<seq<Item>>, b: seq<seq<Item>>, n: nat)
    requires n <= |a| && n <= |b| && forall i :: 0 <= i < n ==> a[i] == b[i]
    ensures Cat(a, n) == Cat(b, n)
  {
    if n > 0 {
      CatFrame(a, b, n - 1);
    }
  }

  lemma InOrderSequential(queue: seq<Context>, appended: seq<seq<Item>>, flags: seq<Flags>, taken: seq<Item>)
    requires |queue| <= |appended| == |flags| && InOrder(queue, appended, taken)
    requires AllFinal(flags, |appended| - |queue|)
    ensures Sequential(appended, flags, taken)
  {
    assert ReachesTo(appended, flags, taken, |appended| - |queue|);
  }

  /** Less taken, more registered. */
  lemma SequentialKeeps(appended: seq<seq<Item>>, flags: seq<Flags>, taken: seq<Item>, taken': seq<Item>, f: Flags)
    requires Sequential(appended, flags, taken) && taken' <= taken
    ensures Sequential(appended, flags, taken')
    ensures Sequential(appended + [[]], flags + [f], taken')
  {
    var b: nat :| ReachesTo(appended, flags, taken, b);
    assert ReachesTo(appended, flags, taken', b);
    var n := if b < |appended| then b + 1 else b;
    CatFrame(appended, appended + [[]], n);
    CatPrefix(appended + [[]], n, b + 1);
    assert ReachesTo(appended + [[]], flags + [f], taken', b);
  }

  lemma IdsConcat(a: seq<Fired>, b: seq<Fired>)
    ensures Ids(a + b) == Ids(a) + Ids(b)
  {
  }

  /** A new callback enters the connection. */
  lemma ConserveNew(held: seq<nat>, fired: seq<Fired>, n: nat, held': seq<nat>)
    requires Conserved(held, fired, n) && multiset(held') == multiset(held) + multiset{n}
    ensures Conserved(held', fired, n + 1)
  {
    assert Numbers(n + 1) == Numbers(n) + [n];
  }

  /** Held callbacks are invoked. */
  lemma ConserveFire(held: seq<nat>, fired: seq<Fired>, n: nat, held': seq<nat>, callbacks: seq<nat>, success: bool)
    requires Conserved(held, fired, n) && multiset(held) == multiset(held') + multiset(callbacks)
    ensures Conserved(held', fired + FireAll(callbacks, success), n)
  {
    var more := FireAll(callbacks, success);
    IdsConcat(fired, more);
    assert Ids(more) == callbacks;
  }

  /** A new callback is invoked at once. */
  lemma ConserveReject(held: seq<nat>, fired: seq<Fired>, n: nat)
    requires Conserved(held, fired, n)
    ensures Conserved(held, fired + [Fired(n, false)], n + 1)
  {
    ConserveNew(held, fired, n, [n] + held);
    ConserveFire([n] + held, fired, n + 1, held, [n], false);
    assert FireAll([n], false) == [Fired(n, false)];
  }

  lemma {:induction false} QueueCallbacksConcat(a: seq<Context>, b: seq<Context>)
    ensures QueueCallbacks(a + b) == QueueCallbacks(a) + QueueCallbacks(b)
  {
    if a == [] {
      assert a + b == b;
    } else {
      assert (a + b)[1..] == a[1..] + b;
      QueueCallbacksConcat(a[1..], b);
    }
  }

  lemma {:induction false} GroupCallbacksConcat(a: seq<Group>, b: seq<Group>)
    ensures GroupCallbacks(a + b) == GroupCallbacks(a) + GroupCallbacks(b)
  {
    if a == [] {
      assert a + b == b;
    } else {
      assert (a + b)[1..] == a[1..] + b;
      GroupCallbacksConcat(a[1..], b);
    }
  }

  lemma {:induction false} QuietHoldsNothing(queue: seq<Context>)
    requires Quiet(queue)
    ensures QueueCallbacks(queue) == []
  {
    if queue != [] {
      QuietHoldsNothing(queue[1..]);
    }
  }

  // ---------------------------------------------------------------- a request is registered

  const FRESH := Flags(false, false)

  lemma RegisterNumbered(queue: seq<Context>, flags: seq<Flags>)
    requires |queue| <= |flags| && Numbered(queue, flags)
    ensures Numbered(queue + [Context(|flags| % ID_SPACE, [], FRESH)], flags + [FRESH])
  {
    ConsecutiveNext(queue, |flags|, Context(|flags| % ID_SPACE, [], FRESH));
  }

  lemma RegisterInOrder(queue: seq<Context>, appended: seq<seq<Item>>, taken: seq<Item>, c: Context)
    requires |queue| <= |appended| && InOrder(queue, appended, taken) && c.groups == []
    ensures InOrder(queue + [c], appended + [[]], taken)
  {
    CatFrame(appended, appended + [[]], |appended| - |queue|);
  }

  lemma RegisterFiled(queue: seq<Context>, appended: seq<seq<Item>>, debts: seq<Debt>, c: Context)
    requires |queue| <= |appended| && AllFiled(queue, appended, debts) && c.groups == []
    ensures AllFiled(queue + [c], appended + [[]], debts)
  {
    var base := |appended| - |queue|;
    forall k | 0 <= k <= |queue|
      ensures Filed((queue + [c])[k].groups, base + k, (appended + [[]])[base + k], debts)
    {
      if k < |queue| {
        assert Filed(queue[k].groups, base + k, appended[base + k], debts);
      }
    }
  }

  /** Responses only ever grow, and the first n do not change at all. */
  predicate Grown(a: seq<seq<Item>>, b: seq<seq<Item>>, n: nat) {
    |a| <= |b| && forall i :: 0 <= i < |a| ==> a[i] <= b[i] && (i < n ==> a[i] == b[i])
  }

  lemma GrownBy(a: seq<seq<Item>>, r: nat, items: seq<Item>, n: nat)
    requires n <= r
    ensures Grown(a, a, n) && Grown(a, a + [[]], n)
    ensures r < |a| ==> Grown(a, a[r := a[r] + items], n)
  {
  }

  lemma GrowDueBy(a: seq<seq<Item>>, b: seq<seq<Item>>, d: Debt, m: nat, n: nat, count: nat, count': nat)
    requires m <= n && count <= count'
    requires Grown(a, b, m)
    requires DueBy(a, d, m, count)
    ensures DueBy(b, d, n, count')
  {
    CatFrame(a, b, d.response);
  }

  /** What was promised by earlier invocations stays true when responses that may still grow do. */
  lemma GrowHonest(fired: seq<Fired>, debts: seq<Debt>, a: seq<seq<Item>>, m: nat, count: nat,
                   debts': seq<Debt>, b: seq<seq<Item>>, n: nat, count': nat)
    requires m <= n && count <= count' && debts <= debts'
    requires Grown(a, b, m)
    requires Honest(fired, debts, a, m, count)
    ensures Honest(fired, debts', b, n, count')
  {
    forall i | 0 <= i < |fired| && fired[i].success
      ensures fired[i].callback < |debts'| && DueBy(b, debts'[fired[i].callback], n, count')
    {
      GrowDueBy(a, b, debts[fired[i].callback], m, n, count, count');
    }
  }

  lemma GrowCurrentDue(current: Group, phase: Phase, debts: seq<Debt>, a: seq<seq<Item>>, m: nat, count: nat,
                       debts': seq<Debt>, b: seq<seq<Item>>, n: nat, count': nat)
    requires m <= n && count <= count' && debts <= debts'
    requires Grown(a, b, m)
    requires CurrentDue(current, phase, debts, a, m, count)
    ensures CurrentDue(current, phase, debts', b, n, count')
  {
    if current.callback.Some? && !phase.Stuck? {
      GrowDueBy(a, b, debts[current.callback.value], m, n, count, count');
    }
  }

  // ---------------------------------------------------------------- a response part is accepted

  lemma AcceptShape(queue: seq<Context>, flags: seq<Flags>, k: nat, c: Context)
    requires k < |queue| <= |flags| && Numbered(queue, flags) && Unstuck(queue) && AllFinal(flags, |flags| - |queue|)
    requires c.requestId == queue[k].requestId && c.groups != []
    ensures var flags' := flags[|flags| - |queue| + k := c.flags];
            Numbered(queue[k := c], flags') && Unstuck(queue[k := c]) && AllFinal(flags', |flags| - |queue|)
  {
    ConsecutiveKeeps(queue, |flags|, k, c);
  }

  lemma AcceptInOrder(queue: seq<Context>, appended: seq<seq<Item>>, taken: seq<Item>, k: nat, c: Context, items: seq<Item>)
    requires k < |queue| <= |appended| && InOrder(queue, appended, taken)
    requires Flat(c.groups) == Flat(queue[k].groups) + items
    ensures var r := |appended| - |queue| + k; InOrder(queue[k := c], appended[r := appended[r] + items], taken)
  {
    var base := |appended| - |queue|;
    var appended' := appended[base + k := appended[base + k] + items];
    CatFrame(appended, appended', base);
    if k == 0 {
      assert taken + Flat(c.groups) == Cat(appended, base) + appended[base] + items;
    }
  }

  lemma RecordNew(debts: seq<Debt>, ds: seq<Debt>, more: seq<Debt>)
    requires Recorded(debts, ds) && |more| <= 1 && (more != [] ==> more[0].callback == |debts|)
    ensures Recorded(debts + more, ds + more)
  {
  }

  lemma AcceptGroupFiled(gs: seq<Group>, r: nat, items: seq<Item>, debts: seq<Debt>, g: Group)
    requires Filed(gs, r, items, debts) && (g.callback.Some? ==> g.callback.value == |debts|)
    ensures Filed(Enqueue(gs, g), r, items + g.items, debts + NewDebt(g, r, |items|))
  {
    var at := |items| - |Flat(gs)|;
    RecordNew(debts, Owed(gs, r, at), NewDebt(g, r, |items|));
    var gs' := Enqueue(gs, g);
    assert |items + g.items| - |Flat(gs')| == at by {
      EnqueueKeepsItems(gs, g);
    }
    assert Owed(gs', r, at) == Owed(gs, r, at) + NewDebt(g, r, |items|) by {
      EnqueueKeepsDebts(gs, g, r, at);
    }
  }

  lemma GrowFiled(gs: seq<Group>, r: nat, items: seq<Item>, debts: seq<Debt>, debts': seq<Debt>)
    requires Filed(gs, r, items, debts) && debts <= debts'
    ensures Filed(gs, r, items, debts')
  {
  }

  lemma GrowAllFiled(queue: seq<Context>, appended: seq<seq<Item>>, debts: seq<Debt>, debts': seq<Debt>)
    requires |queue| <= |appended| && AllFiled(queue, appended, debts) && debts <= debts'
    ensures AllFiled(queue, appended, debts')
  {
    var base := |appended| - |queue|;
    forall k | 0 <= k < |queue|
      ensures Filed(queue[k].groups, base + k, appended[base + k], debts')
    {
      GrowFiled(queue[k].groups, base + k, appended[base + k], debts, debts');
    }
  }

  lemma AcceptFiled(queue: seq<Context>, appended: seq<seq<Item>>, debts: seq<Debt>, k: nat, c: Context, g: Group)
    requires k < |queue| <= |appended| && AllFiled(queue, appended, debts)
    requires c.groups == Enqueue(queue[k].groups, g)
    requires g.callback.Some? ==> g.callback.value == |debts|
    ensures var r := |appended| - |queue| + k;
            AllFiled(queue[k := c], appended[r := appended[r] + g.items], debts + NewDebt(g, r, |appended[r]|))
  {
    var base := |appended| - |queue|;
    var r := base + k;
    var queue', appended' := queue[k := c], appended[r := appended[r] + g.items];
    var debts' := debts + NewDebt(g, r, |appended[r]|);
    forall j | 0 <= j < |queue|
      ensures Filed(queue'[j].groups, base + j, appended'[base + j], debts')
    {
      assert Filed(queue[j].groups, base + j, appended[base + j], debts);
      if j == k {
        AcceptGroupFiled(queue[k].groups, r, appended[r], debts, g);
      } else {
        GrowFiled(queue[j].groups, base + j, appended[base + j], debts, debts');
      }
    }
  }

  lemma QueueAround(queue: seq<Context>, k: nat)
    requires k < |queue|
    ensures QueueCallbacks(queue) ==
            QueueCallbacks(queue[..k]) + (GroupCallbacks(queue[k].groups) + QueueCallbacks(queue[k + 1..]))
  {
    var before, after := queue[..k], queue[k + 1..];
    Divided(queue, k);
    QueueCallbacksConcat(before, [queue[k]] + after);
    FrontCallbacks(queue[k], after);
  }

  lemma Inserted(a: seq<nat>, b: seq<nat>, more: seq<nat>, c: seq<nat>)
    ensures multiset(a + (b + more + c)) == multiset(a + (b + c)) + multiset(more)
  {
  }

  lemma AcceptCallbacks(queue: seq<Context>, k: nat, c: Context, g: Group)
    requires k < |queue| && c.groups == Enqueue(queue[k].groups, g)
    ensures multiset(QueueCallbacks(queue[k := c])) == multiset(QueueCallbacks(queue)) + multiset(CallbackOf(g))
  {
    EnqueueCallbacks(queue[k].groups, g);
    var queue' := queue[k := c];
    QueueAround(queue, k);
    QueueAround(queue', k);
    assert queue'[..k] == queue[..k] && queue'[k + 1..] == queue[k + 1..];
    Inserted(QueueCallbacks(queue[..k]), GroupCallbacks(queue[k].groups), CallbackOf(g), QueueCallbacks(queue[k + 1..]));
  }

  lemma AcceptHeld(current: seq<nat>, queue: seq<Context>, k: nat, c: Context, g: Group, fired: seq<Fired>, n: nat,
                   held: seq<nat>, m: nat)
    requires k < |queue| && c.groups == Enqueue(queue[k].groups, g) && Conserved(current + QueueCallbacks(queue), fired, n)
    requires g.callback.Some? ==> g.callback.value == n
    requires held == current + QueueCallbacks(queue[k := c]) && m == if g.callback.Some? then n + 1 else n
    ensures Conserved(held, fired, m)
  {
    AcceptCallbacks(queue, k, c, g);
    HoldMore(current, QueueCallbacks(queue), QueueCallbacks(queue[k := c]), CallbackOf(g));
    if g.callback.Some? {
      ConserveNew(current + QueueCallbacks(queue), fired, n, current + QueueCallbacks(queue[k := c]));
    }
  }

  lemma HoldMore(current: seq<nat>, before: seq<nat>, after: seq<nat>, more: seq<nat>)
    requires multiset(after) == multiset(before) + multiset(more)
    ensures multiset(current + after) == multiset(current + before) + multiset(more)
  {
  }

  lemma EnqueueCallbacks(gs: seq<Group>, g: Group)
    ensures GroupCallbacks(Enqueue(gs, g)) == GroupCallbacks(gs) + CallbackOf(g)
  {
    var n := |gs|;
    if n > 0 && gs[n - 1].callback.None? && g.statusLine == 0 {
      assert gs == gs[..n - 1] + [gs[n - 1]];
      GroupCallbacksConcat(gs[..n - 1], [gs[n - 1]]);
      GroupCallbacksConcat(gs[..n - 1], [Merge(gs[n - 1], g)]);
    } else {
      GroupCallbacksConcat(gs, [g]);
    }
  }

  // ---------------------------------------------------------------- a group is handed out

  lemma PopShape(queue: seq<Context>, flags: seq<Flags>)
    requires 0 < |queue| <= |flags| && queue[0].groups != []
    requires Numbered(queue, flags) && Unstuck(queue) && AllFinal(flags, |flags| - |queue|)
    ensures |queue| - 1 <= |Popped(queue)| <= |queue|
    ensures Numbered(Popped(queue), flags) && Unstuck(Popped(queue)) && AllFinal(flags, |flags| - |Popped(queue)|)
    ensures |Popped(queue)| < |queue| ==> flags[|flags| - |queue|] == queue[0].flags && queue[0].flags.final
  {
    assert queue[0].flags == flags[|flags| - |queue|];
    var front := queue[0].(groups := queue[0].groups[1..]);
    if front.groups == [] && front.flags.final {
      TailShape(queue, flags);
    } else {
      FrontShape(queue, flags, front);
    }
  }

  /** The front context leaves. */
  lemma TailShape(queue: seq<Context>, flags: seq<Flags>)
    requires 0 < |queue| <= |flags| && Numbered(queue, flags) && Unstuck(queue)
    ensures Numbered(queue[1..], flags) && Unstuck(queue[1..])
  {
    var rest := queue[1..];
    forall k | 0 <= k < |rest|
      ensures rest[k].flags == flags[|flags| - |rest| + k]
    {
      assert rest[k] == queue[k + 1];
    }
    forall k | 0 <= k < |rest|
      ensures !(rest[k].flags.final && rest[k].groups == [])
    {
      assert rest[k] == queue[k + 1];
    }
    forall k: nat | k < |rest|
      ensures IdAt(rest, k) == IdAt(queue, k + 1)
    {
    }
  }

  /** The front context changes its groups. */
  lemma FrontShape(queue: seq<Context>, flags: seq<Flags>, front: Context)
    requires 0 < |queue| <= |flags| && Numbered(queue, flags) && Unstuck(queue)
    requires front.requestId == queue[0].requestId && front.flags == queue[0].flags
    requires !(front.flags.final && front.groups == [])
    ensures Numbered(queue[0 := front], flags) && Unstuck(queue[0 := front])
  {
    ConsecutiveKeeps(queue, |flags|, 0, front);
  }

  lemma PopInOrder(queue: seq<Context>, appended: seq<seq<Item>>, taken: seq<Item>)
    requires 0 < |queue| <= |appended| && queue[0].groups != [] && InOrder(queue, appended, taken)
    ensures InOrder(Popped(queue), appended, taken + queue[0].groups[0].items)
  {
    var gs := queue[0].groups;
    var front := queue[0].(groups := gs[1..]);
    Regroup(taken, gs[0].items, Flat(gs[1..]));
    if front.groups == [] && front.flags.final {
      assert taken + Flat(gs) == taken + gs[0].items;
      LeaveInOrder(queue, appended, taken);
    }
  }

  /** When all of the front response is taken, the next one is at the front. */
  lemma LeaveInOrder(queue: seq<Context>, appended: seq<seq<Item>>, taken: seq<Item>)
    requires 0 < |queue| <= |appended| && InOrder(queue, appended, taken)
    ensures InOrder(queue[1..], appended, taken + Flat(queue[0].groups))
  {
    var base, rest := |appended| - |queue|, queue[1..];
    var base' := |appended| - |rest|;
    assert base' == base + 1;
    assert Cat(appended, base') == Cat(appended, base) + appended[base];
    forall k | 0 <= k < |rest|
      ensures appended[base' + k] == Flat(rest[k].groups)
    {
      var j := k + 1;
      assert appended[base + j] == Flat(queue[j].groups) && rest[k] == queue[j];
    }
  }

  lemma PopGroupFiled(gs: seq<Group>, r: nat, items: seq<Item>, debts: seq<Debt>)
    requires gs != [] && Filed(gs, r, items, debts)
    ensures Filed(gs[1..], r, items, debts)
  {
    var all := Owed(gs, r, |items| - |Flat(gs)|);
    var later := Owed(gs[1..], r, |items| - |Flat(gs[1..])|);
    assert all == NewDebt(gs[0], r, |items| - |Flat(gs)|) + later;
    assert forall i :: 0 <= i < |later| ==> later[i] == all[i + |all| - |later|];
  }

  lemma PopFiled(queue: seq<Context>, appended: seq<seq<Item>>, debts: seq<Debt>)
    requires 0 < |queue| <= |appended| && queue[0].groups != [] && AllFiled(queue, appended, debts)
    ensures AllFiled(Popped(queue), appended, debts)
  {
    var base := |appended| - |queue|;
    var front := queue[0].(groups := queue[0].groups[1..]);
    assert Filed(queue[0].groups, base + 0, appended[base + 0], debts);
    PopGroupFiled(queue[0].groups, base, appended[base], debts);
    if front.groups == [] && front.flags.final {
      LeaveFiled(queue, appended, debts);
    }
  }

  lemma LeaveFiled(queue: seq<Context>, appended: seq<seq<Item>>, debts: seq<Debt>)
    requires 0 < |queue| <= |appended| && AllFiled(queue, appended, debts)
    ensures AllFiled(queue[1..], appended, debts)
  {
    var base, rest := |appended| - |queue|, queue[1..];
    var base' := |appended| - |rest|;
    forall k | 0 <= k < |rest|
      ensures Filed(rest[k].groups, base' + k, appended[base' + k], debts)
    {
      var j := k + 1;
      assert Filed(queue[j].groups, base + j, appended[base + j], debts);
      assert base + j == base' + k && rest[k] == queue[j];
    }
  }

  /** The callback of the group handed out is due exactly when that group is written. */
  lemma PopDue(queue: seq<Context>, appended: seq<seq<Item>>, debts: seq<Debt>, taken: seq<Item>)
    requires 0 < |queue| <= |appended| && queue[0].groups != [] && queue[0].groups[0].callback.Some?
    requires InOrder(queue, appended, taken) && AllFiled(queue, appended, debts)
    ensures var c := queue[0].groups[0].callback.value;
            c < |debts| &&
            DueBy(appended, debts[c], |appended| - |queue|, |taken| + |queue[0].groups[0].items|)
  {
    var base := |appended| - |queue|;
    var gs := queue[0].groups;
    assert Filed(gs, base, appended[base], debts);
    var all := Owed(gs, base, |appended[base]| - |Flat(gs)|);
    assert all[0] == Debt(gs[0].callback.value, base, |appended[base]| - |Flat(gs)| + |gs[0].items|, true);
    assert |taken| + |Flat(gs)| == |Cat(appended, base)| + |appended[base]|;
  }

  lemma FrontCallbacks(front: Context, rest: seq<Context>)
    ensures QueueCallbacks([front] + rest) == GroupCallbacks(front.groups) + QueueCallbacks(rest)
  {
    assert ([front] + rest)[1..] == rest;
  }

  lemma PopCallbacks(queue: seq<Context>)
    requires queue != [] && queue[0].groups != []
    ensures QueueCallbacks(queue) == CallbackOf(queue[0].groups[0]) + QueueCallbacks(Popped(queue))
  {
    var gs, rest := queue[0].groups, queue[1..];
    Regroup(CallbackOf(gs[0]), GroupCallbacks(gs[1..]), QueueCallbacks(rest));
    var front := queue[0].(groups := gs[1..]);
    if front.groups == [] && front.flags.final {
      Regroup([], [], QueueCallbacks(rest));
    } else {
      assert queue[0 := front] == [front] + rest;
      FrontCallbacks(front, rest);
    }
  }
}
