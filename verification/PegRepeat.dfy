/** What a repetition leaves in its target: exactly which item lists can be trusted with it. */
module PegRepeat {
  import opened Peg
  import opened PegLaws

  /** How many iterations succeed; no more do (RepeatGreedy). */
  function Made<V>(items: seq<Clause<V>>, s: string, pos: nat, target: V, blank: V, max: nat): nat
    requires pos <= |s|
  {
    Iterate(items, s, pos, target, blank, max, 0).0
  }

  /** The target of a repetition is that of the iterations that succeed. */
  predicate Clean<V(==)>(min: nat, max: nat, items: seq<Clause<V>>, s: string, pos: nat, target: V, blank: V)
    requires pos <= |s|
  {
    var last := After(items, s, pos, target, blank, Made(items, s, pos, target, blank, max));
    last.Some? && Process(Repeat(min, max, items), s, pos, target, blank).target == last.value.target
  }

  /** The items leave the target alone when they fail. */
  predicate Restored<V(==)>(items: seq<Clause<V>>, s: string, pos: nat, target: V, blank: V)
    requires pos <= |s|
  {
    var r := All(items, s, pos, target, blank);
    r.error.Some? ==> r.target == target
  }

  ghost predicate AlwaysClean<V(!new)>(items: seq<Clause<V>>) {
    forall min: nat, max: nat, s, pos: nat, target, blank ::
      pos <= |s| ==> Clean(min, max, items, s, pos, target, blank)
  }

  ghost predicate AlwaysRestored<V(!new)>(items: seq<Clause<V>>) {
    forall s, pos: nat, target, blank :: pos <= |s| ==> Restored(items, s, pos, target, blank)
  }

  lemma RestoredClean<V(!new)>(items: seq<Clause<V>>, min: nat, max: nat, s: string, pos: nat, target: V, blank: V)
    requires pos <= |s| && AlwaysRestored(items)
    ensures Clean(min, max, items, s, pos, target, blank)
  {
    IterateGreedy(items, s, pos, target, blank, max, 0);
    var n := Made(items, s, pos, target, blank, max);
    var last := After(items, s, pos, target, blank, n).value;
    assert Restored(items, s, last.next, last.target, blank);
  }

  lemma CleanRestored<V(!new)>(items: seq<Clause<V>>, s: string, pos: nat, target: V, blank: V)
    requires pos <= |s| && AlwaysClean(items)
    ensures Restored(items, s, pos, target, blank)
  {
    assert Clean(0, 1, items, s, pos, target, blank);
  }

  /** Repetitions of some items are clean on every text, with every target, if and only if the items restore it. */
  lemma CleanIff<V(!new)>(items: seq<Clause<V>>)
    ensures AlwaysClean(items) <==> AlwaysRestored(items)
  {
    if AlwaysRestored(items) {
      forall min: nat, max: nat, s, pos: nat, target: V, blank: V | pos <= |s|
        ensures Clean(min, max, items, s, pos, target, blank)
      {
        RestoredClean(items, min, max, s, pos, target, blank);
      }
    }
    if AlwaysClean(items) {
      forall s, pos: nat, target: V, blank: V | pos <= |s|
        ensures Restored(items, s, pos, target, blank)
      {
        CleanRestored(items, s, pos, target, blank);
      }
    }
  }

  // ---------------------------------------------------------------- what can be read off a grammar

  /** The clause succeeds on every text. */
  predicate CannotFail<V>(c: Clause<V>)
    decreases c, 0
  {
    match c
    case Consume(producer, _) => producer.Produce? && NoneFails(producer.items)
    case Alternatives(options) => options != [] && CannotFail(options[0])
    case Maybe(_) => true
    case Not(_) => false
    case And(items) => NoneFails(items)
    case Sequence(items) => NoneFails(items)
    case Forced(items) => NoneFails(items)
    case Repeat(min, max, items) => min == 0 || (min <= max && NoneFails(items))
  }

  predicate NoneFails<V>(items: seq<Clause<V>>)
    decreases items, 1
  {
    items == [] || (CannotFail(items[0]) && NoneFails(items[1..]))
  }

  /** The clause never changes the target: lookaheads, values that are skipped, and clauses made of these. */
  ghost predicate Untouching<V(!new)>(c: Clause<V>)
    decreases c, 0
  {
    match c
    case Consume(_, into) => forall t, v :: into(t, v) == t
    case Alternatives(options) => NoneTouches(options)
    case Maybe(items) => NoneTouches(items)
    case Not(_) => true
    case And(_) => true
    case Sequence(items) => NoneTouches(items)
    case Forced(items) => NoneTouches(items)
    case Repeat(_, _, items) => NoneTouches(items)
  }

  ghost predicate NoneTouches<V(!new)>(items: seq<Clause<V>>)
    decreases items, 1
  {
    items == [] || (Untouching(items[0]) && NoneTouches(items[1..]))
  }

  /**
    Once something is put into the target nothing can fail any more; and a repetition that may fail puts nothing
    into it.
  */
  ghost predicate Settled<V(!new)>(items: seq<Clause<V>>)
    decreases items
  {
    items != [] ==>
      && (CannotFail(items[0]) || !items[0].Repeat? || Untouching(items[0]))
      && (NoneFails(items[1..]) || (Untouching(items[0]) && Settled(items[1..])))
  }

  lemma {:induction false} CannotFailHolds<V>(c: Clause<V>, s: string, pos: nat, target: V, blank: V)
    requires pos <= |s| && CannotFail(c)
    ensures Process(c, s, pos, target, blank).error.None?
    decreases c, 0
  {
    match c
    case Consume(producer, _) => NoneFailsHolds(producer.items, s, pos, producer.initial, producer.initial);
    case Alternatives(options) => CannotFailHolds(options[0], s, pos, target, blank);
    case Maybe(_) =>
    case And(items) => NoneFailsHolds(items, s, pos, blank, blank);
    case Sequence(items) => NoneFailsHolds(items, s, pos, target, blank);
    case Forced(items) => NoneFailsHolds(items, s, pos, target, blank);
    case Repeat(min, max, items) =>
      if min > 0 {
        NoneFailsIterate(items, s, pos, target, blank, max, 0);
      }
  }

  lemma {:induction false} NoneFailsHolds<V>(items: seq<Clause<V>>, s: string, pos: nat, target: V, blank: V)
    requires pos <= |s| && NoneFails(items)
    ensures All(items, s, pos, target, blank).error.None?
    decreases items, 1
  {
    if items != [] {
      CannotFailHolds(items[0], s, pos, target, blank);
      var r := Process(items[0], s, pos, target, blank);
      NoneFailsHolds(items[1..], s, r.next, r.target, blank);
    }
  }

  lemma {:induction false} NoneFailsIterate<V>(
      items: seq<Clause<V>>, s: string, pos: nat, target: V, blank: V, max: nat, count: nat)
    requires pos <= |s| && NoneFails(items) && count <= max
    ensures Iterate(items, s, pos, target, blank, max, count).0 == max
    decreases items, 2, max - count
  {
    if count < max {
      NoneFailsHolds(items, s, pos, target, blank);
      var r := All(items, s, pos, target, blank);
      NoneFailsIterate(items, s, r.next, r.target, blank, max, count + 1);
    }
  }

  lemma {:induction false} UntouchingHolds<V(!new)>(c: Clause<V>, s: string, pos: nat, target: V, blank: V)
    requires pos <= |s| && Untouching(c)
    ensures Process(c, s, pos, target, blank).target == target
    decreases c, 0
  {
    match c
    case Consume(_, _) =>
    case Alternatives(options) => UntouchedChoose(options, s, pos, target, blank);
    case Maybe(items) => UntouchedAll(items, s, pos, target, blank);
    case Not(_) =>
    case And(_) =>
    case Sequence(items) => UntouchedAll(items, s, pos, target, blank);
    case Forced(items) => UntouchedAll(items, s, pos, target, blank);
    case Repeat(_, max, items) => UntouchedIterate(items, s, pos, target, blank, max, 0);
  }

  lemma {:induction false} UntouchedAll<V(!new)>(items: seq<Clause<V>>, s: string, pos: nat, target: V, blank: V)
    requires pos <= |s| && NoneTouches(items)
    ensures All(items, s, pos, target, blank).target == target
    decreases items, 1
  {
    if items != [] {
      UntouchingHolds(items[0], s, pos, target, blank);
      UntouchedAll(items[1..], s, Process(items[0], s, pos, target, blank).next, target, blank);
    }
  }

  lemma {:induction false} UntouchedChoose<V(!new)>(options: seq<Clause<V>>, s: string, pos: nat, target: V, blank: V)
    requires pos <= |s| && NoneTouches(options)
    ensures Choose(options, s, pos, target, blank).target == target
    decreases options, 1
  {
    if options != [] {
      UntouchingHolds(options[0], s, pos, target, blank);
      UntouchedChoose(options[1..], s, pos, target, blank);
    }
  }

  lemma {:induction false} UntouchedIterate<V(!new)>(
      items: seq<Clause<V>>, s: string, pos: nat, target: V, blank: V, max: nat, count: nat)
    requires pos <= |s| && NoneTouches(items) && count <= max
    ensures Iterate(items, s, pos, target, blank, max, count).1.target == target
    decreases items, 2, max - count
  {
    if count < max {
      UntouchedAll(items, s, pos, target, blank);
      var r := All(items, s, pos, target, blank);
      if r.error.None? {
        UntouchedIterate(items, s, r.next, target, blank, max, count + 1);
      }
    }
  }

  lemma {:induction false} SettledRestored<V(!new)>(items: seq<Clause<V>>, s: string, pos: nat, target: V, blank: V)
    requires pos <= |s| && Settled(items)
    ensures Restored(items, s, pos, target, blank)
    decreases items
  {
    if items != [] {
      var c := items[0];
      var r := Process(c, s, pos, target, blank);
      if CannotFail(c) {
        CannotFailHolds(c, s, pos, target, blank);
      }
      if Untouching(c) {
        UntouchingHolds(c, s, pos, target, blank);
      }
      FailureRestores(c, s, pos, target, blank);
      if NoneFails(items[1..]) {
        NoneFailsHolds(items[1..], s, r.next, r.target, blank);
      } else {
        SettledRestored(items[1..], s, r.next, target, blank);
      }
    }
  }

  /** Any repetition of a settled list is clean; one clause that is not a repetition always is such a list. */
  lemma SettledClean<V(!new)>(items: seq<Clause<V>>)
    requires Settled(items) || (|items| == 1 && !items[0].Repeat?)
    ensures AlwaysClean(items)
  {
    assert |items| == 1 ==> items[1..] == [];
    forall s, pos: nat, target: V, blank: V | pos <= |s|
      ensures Restored(items, s, pos, target, blank)
    {
      SettledRestored(items, s, pos, target, blank);
    }
    CleanIff(items);
  }

  // ---------------------------------------------------------------- the remedy

  lemma SequencedAll<V>(items: seq<Clause<V>>, s: string, pos: nat, target: V, blank: V)
    requires pos <= |s|
    ensures var r, q := All(items, s, pos, target, blank), All([Sequence(items)], s, pos, target, blank);
            q.error == r.error && (r.error.None? ==> q == r)
  {
    AllCons(Sequence(items), [], s, pos, target, blank);
  }

  lemma {:induction false} SequencedIterate<V>(
      items: seq<Clause<V>>, s: string, pos: nat, target: V, blank: V, max: nat, count: nat)
    requires pos <= |s| && count <= max
    ensures var (n, r) := Iterate(items, s, pos, target, blank, max, count);
            var (m, q) := Iterate([Sequence(items)], s, pos, target, blank, max, count);
            m == n && q.next == r.next
    decreases max - count
  {
    if count < max {
      SequencedAll(items, s, pos, target, blank);
      var r := All(items, s, pos, target, blank);
      if r.error.None? {
        SequencedIterate(items, s, r.next, r.target, blank, max, count + 1);
      }
    }
  }

  lemma {:induction false} SequencedAfter<V>(items: seq<Clause<V>>, s: string, pos: nat, target: V, blank: V, n: nat)
    requires pos <= |s|
    ensures After([Sequence(items)], s, pos, target, blank, n) == After(items, s, pos, target, blank, n)
    decreases n
  {
    if n > 0 {
      SequencedAll(items, s, pos, target, blank);
      var r := All(items, s, pos, target, blank);
      if r.error.None? {
        SequencedAfter(items, s, r.next, r.target, blank, n - 1);
      }
    }
  }

  /**
    Items put into a sequence first are repeated with the same error and the same text taken, and the target is
    always that of the iterations of the items that succeed.
  */
  lemma RepeatSequenced<V(!new)>(
      min: nat, max: nat, items: seq<Clause<V>>, s: string, pos: nat, target: V, blank: V)
    requires pos <= |s|
    ensures var r := Process(Repeat(min, max, items), s, pos, target, blank);
            var q := Process(Repeat(min, max, [Sequence(items)]), s, pos, target, blank);
            var last := After(items, s, pos, target, blank, Made(items, s, pos, target, blank, max));
            q.error == r.error && q.next == r.next && last.Some? && q.target == last.value.target
  {
    SequencedIterate(items, s, pos, target, blank, max, 0);
    SequencedAfter(items, s, pos, target, blank, Made(items, s, pos, target, blank, max));
    SettledClean([Sequence(items)]);
    assert Clean(min, max, [Sequence(items)], s, pos, target, blank);
  }
}
