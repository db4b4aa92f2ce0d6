/**
  The parser of easy_parser.hpp as it runs: one cursor that clauses move forward and scope guards put back.
  Every clause is proved to do what its meaning says.
*/
module PegInterpreter {
  import opened Wrappers
  import opened Peg

  /** `source_t`. */
  class Source {
    const data: string
    var index: nat

    ghost predicate Valid()
      reads this
    {
      index <= |data|
    }

    constructor (data: string)
      ensures Valid() && this.data == data && index == 0
    {
      this.data, index := data, 0;
    }

    /** The next character, or none at the end. */
    method GetCh() returns (ch: Option<char>)
      requires Valid()
      modifies this`index
      ensures Valid()
      ensures if old(index) < |data| then ch == Some(data[old(index)]) && index == old(index) + 1
              else ch == None && index == old(index)
    {
      if index < |data| {
        ch := Some(data[index]);
        index := index + 1;
      } else {
        ch := None;
      }
    }

    method PutBack()
      requires Valid()
      modifies this`index
      ensures Valid() && index == if old(index) == 0 then 0 else old(index) - 1
    {
      if index != 0 {
        index := index - 1;
      }
    }

    method BackTo(pos: nat)
      requires Valid()
      modifies this`index
      ensures Valid() && index == if pos <= |data| then pos else old(index)
    {
      if pos <= |data| {
        index := pos;
      }
    }
  }

  method TryParseProducer<V>(p: Producer<V>, from: Source) returns (value: Result<V, ParseError>)
    requires from.Valid()
    modifies from`index
    ensures from.Valid() && Parse(p, from.data, old(from.index)) == Product(value, from.index)
    decreases p, 0
  {
    match p
    case Symbol(accepts, make) =>
      var ch := from.GetCh();
      if ch.Some? {
        if accepts(ch.value) {
          value := Ok(make(ch.value));
        } else {
          from.PutBack();
          value := Err(ParseError(from.index, UnexpectedCharacter));
        }
      } else {
        value := Err(ParseError(from.index, UnexpectedEof));
      }
    case Produce(initial, items) =>
      var error, target := TryAll(items, from, initial, initial);
      value := if error.None? then Ok(target) else Err(error.value);
    case Transformed(source, convert) =>
      value := TryParseProducer(source, from);
      if value.Ok? {
        value := match convert(value.value)
        case Ok(w) => Ok(w)
        case Err(reason) => Err(ParseError(from.index, reason));
      }
  }

  /** `try_process` of every kind of clause. */
  method TryProcess<V>(c: Clause<V>, from: Source, target: V, blank: V) returns (error: Option<ParseError>, t: V)
    requires from.Valid()
    modifies from`index
    ensures from.Valid() && Process(c, from.data, old(from.index), target, blank) == Outcome(error, from.index, t)
    decreases c, 0
  {
    var startedAt := from.index;
    t := target;
    match c
    case Consume(producer, into) =>
      var value := TryParseProducer(producer, from);
      if value.Ok? {
        error, t := None, into(target, value.value);
      } else {
        error := Some(value.error);
      }
    case Alternatives(options) =>
      error, t := TryAlternatives(options, from, target, blank);
    case Maybe(items) =>
      var failure, tmp := TryAll(items, from, target, blank);
      if failure.None? {
        t := tmp;
      } else {
        from.BackTo(startedAt);
      }
      error := None;
    case Not(items) =>
      var failure, dummy := TryAll(items, from, blank, blank);
      from.BackTo(startedAt);
      error := if failure.None? then Fail(startedAt, PatternNotFound) else None;
    case And(items) =>
      var failure, dummy := TryAll(items, from, blank, blank);
      from.BackTo(startedAt);
      error := if failure.None? then None else Fail(startedAt, PatternNotFound);
    case Sequence(items) =>
      error, t := TrySequence(items, from, target, blank);
    case Forced(items) =>
      error, t := TrySequence(items, from, target, blank);
      if error.Some? {
        error := Fail(startedAt, ForcedFailed);
      }
    case Repeat(min, max, items) =>
      error, t := TryRepeat(min, max, items, from, target, blank);
  }

  /** `all_of` over a tuple of clauses: left to right, up to the first failure. */
  method TryAll<V>(items: seq<Clause<V>>, from: Source, target: V, blank: V)
    returns (error: Option<ParseError>, t: V)
    requires from.Valid()
    modifies from`index
    ensures from.Valid() && All(items, from.data, old(from.index), target, blank) == Outcome(error, from.index, t)
    decreases items, 0
  {
    if items == [] {
      error, t := None, target;
    } else {
      error, t := TryProcess(items[0], from, target, blank);
      if error.None? {
        error, t := TryAll(items[1..], from, t, blank);
      }
    }
  }

  /** `sequence_clause_t`: a copy of the target is filled, and moved back on success only. */
  method TrySequence<V>(items: seq<Clause<V>>, from: Source, target: V, blank: V)
    returns (error: Option<ParseError>, t: V)
    requires from.Valid()
    modifies from`index
    ensures from.Valid()
    ensures var r := All(items, from.data, old(from.index), target, blank);
            if r.error.None? then r == Outcome(error, from.index, t)
            else error == r.error && from.index == old(from.index) && t == target
    decreases items, 1
  {
    var startedAt := from.index;
    var tmp;
    error, tmp := TryAll(items, from, target, blank);
    if error.None? {
      t := tmp;
    } else {
      t := target;
      from.BackTo(startedAt);
    }
  }

  /** `alternatives_clause_t`: `any_of` with a guard and a copy of the target for every option. */
  method TryAlternatives<V>(options: seq<Clause<V>>, from: Source, target: V, blank: V)
    returns (error: Option<ParseError>, t: V)
    requires from.Valid()
    modifies from`index
    ensures from.Valid() && Choose(options, from.data, old(from.index), target, blank) == Outcome(error, from.index, t)
    decreases options, 0
  {
    var startedAt := from.index;
    if options == [] {
      return Fail(startedAt, NoAppropriateAlternative), target;
    }
    error, t := TryProcess(options[0], from, target, blank);
    if error.Some? {
      from.BackTo(startedAt);
      if IsCut(error) {
        return Fail(startedAt, NoAppropriateAlternative), target;
      }
      error, t := TryAlternatives(options[1..], from, target, blank);
    }
  }

  /** `repeat_clause_t`: a guard for the whole and one for every iteration, but none for the target. */
  method TryRepeat<V>(min: nat, max: nat, items: seq<Clause<V>>, from: Source, target: V, blank: V)
    returns (error: Option<ParseError>, t: V)
    requires from.Valid()
    modifies from`index
    ensures from.Valid()
    ensures var (count, r) := Iterate(items, from.data, old(from.index), target, blank, max, 0);
            && t == r.target
            && if count >= min then error == None && from.index == r.next
               else error == Fail(r.next, PatternNotFound) && from.index == old(from.index)
    decreases items, 2
  {
    var wholeStartedAt := from.index;
    var count, failureDetected := 0, false;
    t := target;
    while !failureDetected && count != max
      invariant from.Valid() && count <= max
      invariant Iterate(items, from.data, old(from.index), target, blank, max, 0) ==
                if failureDetected then (count, Outcome(None, from.index, t))
                else Iterate(items, from.data, from.index, t, blank, max, count)
      decreases max - count, !failureDetected
    {
      var itemStartedAt := from.index;
      var failure;
      failure, t := TryAll(items, from, t, blank);
      failureDetected := failure.Some?;
      if !failureDetected {
        count := count + 1;
      } else {
        from.BackTo(itemStartedAt);
      }
    }
    if count >= min {
      error := None;
    } else {
      error := Fail(from.index, PatternNotFound);
      from.BackTo(wholeStartedAt);
    }
  }

  // ---------------------------------------------------------------- the entry point

  method RemoveTrailingSpaces(s: string) returns (r: string)
    ensures r == StripTrailing(s)
  {
    var n := |s|;
    assert s[..n] == s;
    while n != 0 && IsSpace(s[n - 1])
      invariant 0 <= n <= |s| && StripTrailing(s) == StripTrailing(s[..n])
    {
      assert s[..n][..n - 1] == s[..n - 1];
      n := n - 1;
    }
    r := s[..n];
  }

  /** `ensure_no_remaining_content`. */
  method EnsureNoRemainingContent(from: Source) returns (error: Option<ParseError>)
    requires from.Valid()
    modifies from`index
    ensures from.Valid()
    ensures error.None? <==> forall i :: old(from.index) <= i < |from.data| ==> IsSpace(from.data[i])
    ensures error.Some? ==>
              var at := error.value.position;
              && error.value.reason == UnconsumedInput && old(from.index) <= at < |from.data|
              && !IsSpace(from.data[at]) && forall i :: old(from.index) <= i < at ==> IsSpace(from.data[i])
  {
    error := None;
    while from.index < |from.data|
      invariant from.Valid() && old(from.index) <= from.index
      invariant forall i :: old(from.index) <= i < from.index ==> IsSpace(from.data[i])
      decreases |from.data| - from.index
    {
      var ch := from.GetCh();
      if !IsSpace(ch.value) {
        from.PutBack();
        return Fail(from.index, UnconsumedInput);
      }
    }
  }

  /** `try_parse`: the producer has to match the whole text but for trailing spaces. */
  method TryParse<V>(text: string, p: Producer<V>) returns (value: Result<V, ParseError>)
    ensures var s := StripTrailing(text);
            var r := Parse(p, s, 0);
            && (value.Ok? <==> r.value.Ok? && r.next == |s|)
            && (r.value.Err? || value.Ok? ==> value == r.value)
            && (r.value.Ok? && value.Err? ==>
                  var at := value.error.position;
                  && value.error.reason == UnconsumedInput && r.next <= at < |s|
                  && !IsSpace(s[at]) && forall i :: r.next <= i < at ==> IsSpace(s[i]))
  {
    var s := RemoveTrailingSpaces(text);
    var from := new Source(s);
    value := TryParseProducer(p, from);
    if value.Ok? {
      var rest := EnsureNoRemainingContent(from);
      StripLeavesNoSpace(text);
      if rest.Some? {
        value := Err(rest.value);
      }
    }
  }

  /** All trailing spaces are removed, and nothing else. */
  lemma {:induction false} StripLeavesNoSpace(text: string)
    ensures var s := StripTrailing(text);
            s <= text && (s == [] || !IsSpace(s[|s| - 1])) && forall i :: |s| <= i < |text| ==> IsSpace(text[i])
  {
    if text != [] && IsSpace(text[|text| - 1]) {
      StripLeavesNoSpace(text[..|text| - 1]);
    }
  }
}
