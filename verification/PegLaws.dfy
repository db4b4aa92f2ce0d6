/** Laws of the clauses: what a reader of a grammar relies on. */
module PegLaws {
  import opened Wrappers
  import opened Peg

  /** A clause accepts at a position. */
  predicate Accepts<V>(c: Clause<V>, s: string, pos: nat, target: V, blank: V)
    requires pos <= |s|
  {
    Process(c, s, pos, target, blank).error.None?
  }

  lemma AllCons<V>(c: Clause<V>, rest: seq<Clause<V>>, s: string, pos: nat, target: V, blank: V)
    requires pos <= |s|
    ensures var r := Process(c, s, pos, target, blank);
            All([c] + rest, s, pos, target, blank) ==
            if r.error.Some? then r else All(rest, s, r.next, r.target, blank)
    ensures All([c], s, pos, target, blank) == Process(c, s, pos, target, blank)
  {
    assert ([c] + rest)[1..] == rest && [c][1..] == [];
    var r := Process(c, s, pos, target, blank);
    assert All([], s, r.next, r.target, blank) == Outcome(None, r.next, r.target);
  }

  lemma ChooseCons<V>(c: Clause<V>, rest: seq<Clause<V>>, s: string, pos: nat, target: V, blank: V)
    requires pos <= |s|
    ensures var r := Process(c, s, pos, target, blank);
            Choose([c] + rest, s, pos, target, blank) ==
            if r.error.None? then r
            else if IsCut(r.error) then Outcome(Fail(pos, NoAppropriateAlternative), pos, target)
            else Choose(rest, s, pos, target, blank)
  {
    assert ([c] + rest)[1..] == rest;
  }

  // ---------------------------------------------------------------- position and target

  /**
    A failed clause leaves the position where it started, unless it is a bare producer; lookaheads leave it
    there in any case.  Only a repetition can touch the target and fail.
  */
  lemma FailureRestores<V>(c: Clause<V>, s: string, pos: nat, target: V, blank: V)
    requires pos <= |s|
    ensures var r := Process(c, s, pos, target, blank);
            && (r.error.Some? && !c.Consume? ==> r.next == pos)
            && (r.error.Some? && !c.Repeat? ==> r.target == target)
            && (c.Not? || c.And? ==> r.next == pos && r.target == target)
  {
    if c.Alternatives? {
      ChooseFirst(c.options, s, pos, target, blank);
    }
  }

  /** What a clause accepts, how far and why not, does not depend on the value it is filling. */
  lemma {:induction false} TargetIrrelevant<V>(c: Clause<V>, s: string, pos: nat, t: V, b: V, t': V, b': V)
    requires pos <= |s|
    ensures var r, r' := Process(c, s, pos, t, b), Process(c, s, pos, t', b'); r.error == r'.error && r.next == r'.next
    decreases c, 0
  {
    match c
    case Consume(producer, into) =>
    case Alternatives(options) => ChooseIrrelevant(options, s, pos, t, b, t', b');
    case Not(items) => AllIrrelevant(items, s, pos, b, b, b', b');
    case And(items) => AllIrrelevant(items, s, pos, b, b, b', b');
    case Maybe(items) => AllIrrelevant(items, s, pos, t, b, t', b');
    case Sequence(items) => AllIrrelevant(items, s, pos, t, b, t', b');
    case Forced(items) => AllIrrelevant(items, s, pos, t, b, t', b');
    case Repeat(min, max, items) => IterateIrrelevant(items, s, pos, t, b, t', b', max, 0);
  }

  lemma {:induction false} AllIrrelevant<V>(items: seq<Clause<V>>, s: string, pos: nat, t: V, b: V, t': V, b': V)
    requires pos <= |s|
    ensures var r, r' := All(items, s, pos, t, b), All(items, s, pos, t', b'); r.error == r'.error && r.next == r'.next
    decreases items, 0
  {
    if items != [] {
      TargetIrrelevant(items[0], s, pos, t, b, t', b');
      var r, r' := Process(items[0], s, pos, t, b), Process(items[0], s, pos, t', b');
      if r.error.None? {
        AllIrrelevant(items[1..], s, r.next, r.target, b, r'.target, b');
      }
    }
  }

  lemma {:induction false} ChooseIrrelevant<V>(options: seq<Clause<V>>, s: string, pos: nat, t: V, b: V, t': V, b': V)
    requires pos <= |s|
    ensures var r, r' := Choose(options, s, pos, t, b), Choose(options, s, pos, t', b'); r.error == r'.error && r.next == r'.next
    decreases options, 0
  {
    if options != [] {
      TargetIrrelevant(options[0], s, pos, t, b, t', b');
      ChooseIrrelevant(options[1..], s, pos, t, b, t', b');
    }
  }

  lemma {:induction false} IterateIrrelevant<V>(items: seq<Clause<V>>, s: string, pos: nat, t: V, b: V, t': V, b': V, max: nat, count: nat)
    requires pos <= |s| && count <= max
    ensures var (n, r), (n', r') := Iterate(items, s, pos, t, b, max, count), Iterate(items, s, pos, t', b', max, count);
            n == n' && r.next == r'.next
    decreases items, 1, max - count
  {
    if count < max {
      AllIrrelevant(items, s, pos, t, b, t', b');
      var r, r' := All(items, s, pos, t, b), All(items, s, pos, t', b');
      if r.error.None? {
        IterateIrrelevant(items, s, r.next, r.target, b, r'.target, b', max, count + 1);
      }
    }
  }

  // ---------------------------------------------------------------- ordered choice and the cut

  /** Option k is chosen: it accepts, and all before it fail without a cut. */
  predicate Chosen<V>(options: seq<Clause<V>>, k: nat, s: string, pos: nat, target: V, blank: V)
    requires pos <= |s|
  {
    && k < |options| && Accepts(options[k], s, pos, target, blank)
    && forall j :: 0 <= j < k ==>
         var e := Process(options[j], s, pos, target, blank).error; e.Some? && !IsCut(e)
  }

  lemma {:induction false} ChosenWins<V>(options: seq<Clause<V>>, k: nat, s: string, pos: nat, target: V, blank: V)
    requires pos <= |s| && Chosen(options, k, s, pos, target, blank)
    ensures Choose(options, s, pos, target, blank) == Process(options[k], s, pos, target, blank)
  {
    if k > 0 {
      var rest := options[1..];
      assert options[0] == options[0] && forall j :: 0 <= j < k - 1 ==> rest[j] == options[j + 1];
      ChosenWins(rest, k - 1, s, pos, target, blank);
    }
  }

  lemma {:induction false} SomeChosen<V>(options: seq<Clause<V>>, s: string, pos: nat, target: V, blank: V) returns (k: nat)
    requires pos <= |s| && Choose(options, s, pos, target, blank).error.None?
    ensures Chosen(options, k, s, pos, target, blank)
  {
    if Accepts(options[0], s, pos, target, blank) {
      k := 0;
    } else {
      k := SomeChosen(options[1..], s, pos, target, blank);
      k := k + 1;
      assert forall j :: 0 < j < k ==> options[j] == options[1..][j - 1];
    }
  }

  lemma {:induction false} ChooseFails<V>(options: seq<Clause<V>>, s: string, pos: nat, target: V, blank: V)
    requires pos <= |s|
    ensures var r := Choose(options, s, pos, target, blank);
            r.error.Some? ==> r == Outcome(Fail(pos, NoAppropriateAlternative), pos, target)
  {
    if options != [] {
      ChooseFails(options[1..], s, pos, target, blank);
    }
  }

  /**
    Alternatives accept exactly when some option is the chosen one, do what that option does, and otherwise
    fail at their start with an error that is no cut.
  */
  lemma ChooseFirst<V>(options: seq<Clause<V>>, s: string, pos: nat, target: V, blank: V)
    requires pos <= |s|
    ensures var r := Process(Alternatives(options), s, pos, target, blank);
            && (r.error.None? <==> exists k: nat :: Chosen(options, k, s, pos, target, blank))
            && (forall k: nat :: Chosen(options, k, s, pos, target, blank) ==> r == Process(options[k], s, pos, target, blank))
            && (r.error.Some? ==> r == Outcome(Fail(pos, NoAppropriateAlternative), pos, target))
  {
    forall k: nat | Chosen(options, k, s, pos, target, blank)
      ensures Choose(options, s, pos, target, blank) == Process(options[k], s, pos, target, blank)
    {
      ChosenWins(options, k, s, pos, target, blank);
    }
    if Choose(options, s, pos, target, blank).error.None? {
      var k := SomeChosen(options, s, pos, target, blank);
    }
    ChooseFails(options, s, pos, target, blank);
  }

  /** Only a forced clause, a sequence, or a producer around one can fail with a cut. */
  lemma CutStops<V>(c: Clause<V>, s: string, pos: nat, target: V, blank: V)
    requires pos <= |s| && IsCut(Process(c, s, pos, target, blank).error)
    ensures c.Forced? || c.Sequence? || c.Consume?
  {
    if c.Alternatives? {
      ChooseFails(c.options, s, pos, target, blank);
    }
  }

  /** The clauses of a sequence, cut in two. */
  lemma {:induction false} AllConcat<V>(a: seq<Clause<V>>, b: seq<Clause<V>>, s: string, pos: nat, target: V, blank: V)
    requires pos <= |s|
    ensures var r := All(a, s, pos, target, blank);
            All(a + b, s, pos, target, blank) ==
            if r.error.None? then All(b, s, r.next, r.target, blank) else r
  {
    if a == [] {
      assert a + b == b;
    } else {
      assert (a + b)[1..] == a[1..] + b;
      var r := Process(a[0], s, pos, target, blank);
      if r.error.None? {
        AllConcat(a[1..], b, s, r.next, r.target, blank);
      }
    }
  }

  /**
    A forced clause that fails behind a prefix that matches ends the nearest alternatives around it, even from
    inside a sequence and whatever the other options are; alternatives around those go on with their next option.
  */
  lemma CutEndsNearest<V>(before: seq<Clause<V>>, forced: seq<Clause<V>>, after: seq<Clause<V>>,
                          others: seq<Clause<V>>, outer: seq<Clause<V>>,
                          s: string, pos: nat, target: V, blank: V)
    requires pos <= |s|
    requires var r := All(before, s, pos, target, blank);
             r.error.None? && All(forced, s, r.next, r.target, blank).error.Some?
    ensures var inner := Alternatives([Sequence(before + [Forced(forced)] + after)] + others);
            && !Accepts(inner, s, pos, target, blank)
            && Process(Alternatives([inner] + outer), s, pos, target, blank) ==
               Process(Alternatives(outer), s, pos, target, blank)
  {
    var items := before + [Forced(forced)] + after;
    var r := All(before, s, pos, target, blank);
    AllConcat(before + [Forced(forced)], after, s, pos, target, blank);
    AllConcat(before, [Forced(forced)], s, pos, target, blank);
    AllCons(Forced(forced), [], s, r.next, r.target, blank);
    assert Process(Forced(forced), s, r.next, r.target, blank).error == Fail(r.next, ForcedFailed);
    assert IsCut(All(items, s, pos, target, blank).error);
    assert IsCut(Process(Sequence(items), s, pos, target, blank).error);
    ChooseCons(Sequence(items), others, s, pos, target, blank);
    var inner := Alternatives([Sequence(items)] + others);
    assert Process(inner, s, pos, target, blank) == Outcome(Fail(pos, NoAppropriateAlternative), pos, target);
    ChooseCons(inner, outer, s, pos, target, blank);
  }

  /** Grouping part of a sequence changes nothing, not even the error. */
  lemma SequenceFlattens<V>(a: seq<Clause<V>>, b: seq<Clause<V>>, s: string, pos: nat, target: V, blank: V)
    requires pos <= |s|
    ensures Process(Sequence([Sequence(a)] + b), s, pos, target, blank) == Process(Sequence(a + b), s, pos, target, blank)
  {
    AllConcat(a, b, s, pos, target, blank);
    AllCons(Sequence(a), b, s, pos, target, blank);
    var r := All(a, s, pos, target, blank);
    assert Process(Sequence(a), s, pos, target, blank) == if r.error.None? then r else Outcome(r.error, pos, target);
  }

  // ---------------------------------------------------------------- what the clauses mean in terms of each other

  /** A sequence of none takes nothing; one of more takes its first clause and, from where that ends, the others. */
  lemma SequenceIs<V>(c: Clause<V>, rest: seq<Clause<V>>, s: string, pos: nat, target: V, blank: V)
    requires pos <= |s|
    ensures Process(Sequence([]), s, pos, target, blank) == Outcome(None, pos, target)
    ensures var r := Process(c, s, pos, target, blank);
            var q := Process(Sequence([c] + rest), s, pos, target, blank);
            if r.error.Some? then q == Outcome(r.error, pos, target)
            else
              var n := Process(Sequence(rest), s, r.next, r.target, blank);
              if n.error.None? then q == n else q == Outcome(n.error, pos, target)
  {
    AllCons(c, rest, s, pos, target, blank);
  }

  /** The lookaheads: one accepts where a sequence of its clauses does, the other where it does not. */
  lemma LookaheadIff<V>(items: seq<Clause<V>>, s: string, pos: nat, target: V, blank: V, t: V, b: V)
    requires pos <= |s|
    ensures Accepts(And(items), s, pos, target, blank) <==> Accepts(Sequence(items), s, pos, t, b)
    ensures Accepts(Not(items), s, pos, target, blank) <==> !Accepts(Sequence(items), s, pos, t, b)
    ensures !Accepts(And(items), s, pos, target, blank) ==>
              Process(And(items), s, pos, target, blank).error == Fail(pos, PatternNotFound)
    ensures !Accepts(Not(items), s, pos, target, blank) ==>
              Process(Not(items), s, pos, target, blank).error == Fail(pos, PatternNotFound)
  {
    AllIrrelevant(items, s, pos, blank, blank, t, b);
  }

  /** A forced clause accepts as a sequence does, with the same outcome, and fails where it began, with a cut. */
  lemma ForcedIsSequence<V>(items: seq<Clause<V>>, s: string, pos: nat, target: V, blank: V)
    requires pos <= |s|
    ensures var f, q := Process(Forced(items), s, pos, target, blank), Process(Sequence(items), s, pos, target, blank);
            if q.error.None? then f == q else f == Outcome(Fail(pos, ForcedFailed), pos, target)
  {
  }

  /** An optional clause is a choice between a sequence and nothing, if and only if the sequence does not fail with a cut. */
  lemma MaybeIsChoice<V>(items: seq<Clause<V>>, s: string, pos: nat, target: V, blank: V)
    requires pos <= |s|
    ensures Accepts(Maybe(items), s, pos, target, blank)
    ensures Process(Maybe(items), s, pos, target, blank) ==
            Process(Alternatives([Sequence(items), Sequence([])]), s, pos, target, blank)
       <==> !IsCut(Process(Sequence(items), s, pos, target, blank).error)
  {
    assert [Sequence(items), Sequence([])] == [Sequence(items)] + [Sequence([])];
    ChooseCons(Sequence(items), [Sequence([])], s, pos, target, blank);
    var nothing: Clause<V> := Sequence([]);
    assert [nothing] == [nothing] + [];
    ChooseCons(nothing, [], s, pos, target, blank);
  }

  /** A symbol is taken if and only if there is one and it is accepted; the error tells which it is not. */
  lemma SymbolIff<V>(accepts: char -> bool, make: char -> V, s: string, pos: nat)
    requires pos <= |s|
    ensures var r := Parse(Symbol(accepts, make), s, pos);
            && (r.value.Ok? <==> pos < |s| && accepts(s[pos]))
            && (r.value.Ok? ==> r == Product(Ok(make(s[pos])), pos + 1))
            && (r.value.Err? ==> r.next == pos && r.value.error.position == pos)
            && (r.value.Err? ==> (r.value.error.reason == UnexpectedEof <==> pos == |s|))
            && (r.value.Err? ==> (r.value.error.reason == UnexpectedCharacter <==> pos < |s|))
  {
  }

  /** A production gives what its clauses, as a sequence, make of a fresh value. */
  lemma ProduceIsSequence<V>(initial: V, items: seq<Clause<V>>, s: string, pos: nat)
    requires pos <= |s|
    ensures var r, q := Parse(Produce(initial, items), s, pos), Process(Sequence(items), s, pos, initial, initial);
            if q.error.None? then r == Product(Ok(q.target), q.next) else r.value == Err(q.error.value)
  {
  }

  function Then<V>(f: V -> Result<V, Reason>, g: V -> Result<V, Reason>): V -> Result<V, Reason> {
    v => match f(v) case Ok(w) => g(w) case Err(e) => Err(e)
  }

  /** A producer of one consumed value is that value put into the initial one. */
  lemma ConsumeIsTransform<V>(initial: V, p: Producer<V>, into: (V, V) -> V, s: string, pos: nat)
    requires pos <= |s|
    ensures Parse(Produce(initial, [Consume(p, into)]), s, pos)
            == Parse(Transformed(p, v => Ok(into(initial, v))), s, pos)
  {
    var c := Consume(p, into);
    var r := Process(c, s, pos, initial, initial);
    assert [c][1..] == [];
    assert All([c], s, pos, initial, initial)
        == if r.error.Some? then r else All([], s, r.next, r.target, initial);
  }

  /** Transforming twice is transforming by both in turn; a failed producer, and a value that stays as it is, stay so. */
  lemma TransformTwice<V>(p: Producer<V>, f: V -> Result<V, Reason>, g: V -> Result<V, Reason>, s: string, pos: nat)
    requires pos <= |s|
    ensures Parse(Transformed(Transformed(p, f), g), s, pos) == Parse(Transformed(p, Then(f, g)), s, pos)
    ensures var r := Parse(p, s, pos);
            r.value.Err? || f(r.value.value) == Ok(r.value.value) ==> Parse(Transformed(p, f), s, pos) == r
  {
  }

  /** Looking ahead twice negated is looking ahead. */
  lemma AndIsNotNot<V>(items: seq<Clause<V>>, s: string, pos: nat, target: V, blank: V)
    requires pos <= |s|
    ensures Process(And(items), s, pos, target, blank) == Process(Not([Not(items)]), s, pos, target, blank)
  {
    AllCons(Not(items), [], s, pos, blank, blank);
    assert Process(Not(items), s, pos, blank, blank).error.None? <==> All(items, s, pos, blank, blank).error.Some?;
  }

  // ---------------------------------------------------------------- repetition

  /** The state after n iterations that all succeed. */
  function After<V>(items: seq<Clause<V>>, s: string, pos: nat, target: V, blank: V, n: nat): (r: Option<Outcome<V>>)
    requires pos <= |s|
    ensures r.Some? ==> r.value.next <= |s|
    decreases n
  {
    if n == 0 then Some(Outcome(None, pos, target))
    else
      var r := All(items, s, pos, target, blank);
      if r.error.Some? then None else After(items, s, r.next, r.target, blank, n - 1)
  }

  /** The iterations made are as many as possible, up to the maximum. */
  lemma {:induction false} IterateGreedy<V>(items: seq<Clause<V>>, s: string, pos: nat, target: V, blank: V, max: nat, count: nat)
    requires pos <= |s| && count <= max
    ensures var (n, r) := Iterate(items, s, pos, target, blank, max, count);
            var last := After(items, s, pos, target, blank, n - count);
            && last.Some? && r.next == last.value.next
            && (n == max ==> r.target == last.value.target)
            && (n < max ==>
                  var failed := All(items, s, r.next, last.value.target, blank);
                  failed.error.Some? && r.target == failed.target)
    decreases max - count
  {
    if count < max {
      var r := All(items, s, pos, target, blank);
      if r.error.None? {
        IterateGreedy(items, s, r.next, r.target, blank, max, count + 1);
      }
    }
  }

  lemma {:induction false} AfterShorter<V>(items: seq<Clause<V>>, s: string, pos: nat, target: V, blank: V, m: nat, n: nat)
    requires pos <= |s| && m <= n && After(items, s, pos, target, blank, n).Some?
    ensures After(items, s, pos, target, blank, m).Some?
    decreases m
  {
    if m > 0 {
      var r := All(items, s, pos, target, blank);
      AfterShorter(items, s, r.next, r.target, blank, m - 1, n - 1);
    }
  }

  lemma {:induction false} AfterNext<V>(items: seq<Clause<V>>, s: string, pos: nat, target: V, blank: V, n: nat)
    requires pos <= |s| && After(items, s, pos, target, blank, n).Some?
    ensures var last := After(items, s, pos, target, blank, n).value;
            After(items, s, pos, target, blank, n + 1).Some? <==> All(items, s, last.next, last.target, blank).error.None?
    decreases n
  {
    var r := All(items, s, pos, target, blank);
    if n > 0 {
      AfterNext(items, s, r.next, r.target, blank, n - 1);
    } else if r.error.None? {
      assert After(items, s, r.next, r.target, blank, 0).Some?;
    }
  }

  /** A repetition accepts exactly when the minimum can be reached, and then takes as much as it can. */
  lemma RepeatGreedy<V>(min: nat, max: nat, items: seq<Clause<V>>, s: string, pos: nat, target: V, blank: V)
    requires pos <= |s|
    ensures var r := Process(Repeat(min, max, items), s, pos, target, blank);
            var n := Iterate(items, s, pos, target, blank, max, 0).0;
            && (r.error.None? <==> min <= max && After(items, s, pos, target, blank, min).Some?)
            && (forall m :: n < m <= max ==> After(items, s, pos, target, blank, m).None?)
            && After(items, s, pos, target, blank, n).Some?
            && (r.error.None? ==> r.next == After(items, s, pos, target, blank, n).value.next)
            && (r.error.Some? ==>
                  r.next == pos && r.error == Fail(After(items, s, pos, target, blank, n).value.next, PatternNotFound))
  {
    var n := Iterate(items, s, pos, target, blank, max, 0).0;
    IterateGreedy(items, s, pos, target, blank, max, 0);
    if min <= n {
      AfterShorter(items, s, pos, target, blank, min, n);
    }
    forall m | n < m <= max
      ensures After(items, s, pos, target, blank, m).None?
    {
      AfterNext(items, s, pos, target, blank, n);
      if After(items, s, pos, target, blank, m).Some? {
        AfterShorter(items, s, pos, target, blank, n + 1, m);
      }
    }
  }

  /** One optional iteration matches the same text as an optional clause, but may leave another target behind. */
  lemma RepeatOnceIsMaybe<V>(items: seq<Clause<V>>, s: string, pos: nat, target: V, blank: V)
    requires pos <= |s|
    ensures var r, m := Process(Repeat(0, 1, items), s, pos, target, blank), Process(Maybe(items), s, pos, target, blank);
            var a := All(items, s, pos, target, blank);
            && r.error == m.error && r.next == m.next
            && (r.target == m.target <==> a.error.None? || a.target == target)
  {
    assert Iterate(items, s, pos, target, blank, 1, 0) ==
           var a := All(items, s, pos, target, blank);
           if a.error.Some? then (0, Outcome(None, pos, a.target)) else (1, Outcome(None, a.next, a.target));
  }

  function Letter(): Clause<string> {
    Consume(Symbol(ch => ch == 'a', ch => [ch]), (t: string, v: string) => t + v)
  }

  function Comma(): Clause<string> {
    Consume(Symbol(ch => ch == ',', ch => [ch]), (t: string, v: string) => t)
  }

  /** Letters each followed by a comma, on a text without one: no text is taken, but the letter is kept. */
  lemma RepeatKeepsFailedItem()
    ensures Process(Repeat(0, 1, [Letter(), Comma()]), "a", 0, "", "") == Outcome(None, 0, "a")
  {
    var letter, comma := Letter(), Comma();
    assert Parse(letter.producer, "a", 0) == Product(Ok("a"), 1);
    assert "" + "a" == "a";
    assert Process(letter, "a", 0, "", "") == Outcome(None, 1, "a");
    AllCons(letter, [comma], "a", 0, "", "");
    AllCons(comma, [], "a", 1, "a", "");
    assert [letter, comma] == [letter] + [comma];
    assert Process(comma, "a", 1, "a", "") == Outcome(Fail(1, UnexpectedEof), 1, "a");
    assert All([letter, comma], "a", 0, "", "") == Outcome(Fail(1, UnexpectedEof), 1, "a");
    assert Iterate([letter, comma], "a", 0, "", "", 1, 0) == (0, Outcome(None, 0, "a"));
  }
}
