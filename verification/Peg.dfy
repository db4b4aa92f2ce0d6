/**
  The clauses of easy_parser.hpp as data, and what they mean: parsing expressions with ordered choice, greedy
  repetition, both lookaheads and a cut.  The meaning is a function of the text, a position and the target
  value; it knows no cursor that is moved and put back.
*/
module Peg {
  import opened Wrappers

  datatype Reason =
    | UnexpectedCharacter | UnexpectedEof | NoAppropriateAlternative | PatternNotFound
    | UnconsumedInput | IllegalValue | ForcedFailed

  datatype ParseError = ParseError(position: nat, reason: Reason)

  /** `V` is the type of all values, produced ones and targets alike. */
  datatype Producer<!V> =
    | Symbol(accepts: char -> bool, make: char -> V)                  // symbol_producer_template_t
    | Produce(initial: V, items: seq<Clause<V>>)                      // produce_t
    | Transformed(source: Producer<V>, convert: V -> Result<V, Reason>)  // transformed_value_producer_t

  datatype Clause<!V> =
    | Consume(producer: Producer<V>, into: (V, V) -> V)               // consume_value_clause_t
    | Alternatives(options: seq<Clause<V>>)
    | Maybe(items: seq<Clause<V>>)
    | Not(items: seq<Clause<V>>)
    | And(items: seq<Clause<V>>)
    | Sequence(items: seq<Clause<V>>)
    | Forced(items: seq<Clause<V>>)                                   // force_only_this_alternative
    | Repeat(min: nat, max: nat, items: seq<Clause<V>>)

  /** What a clause leaves behind: an error or none, the position, and the target. */
  datatype Outcome<V> = Outcome(error: Option<ParseError>, next: nat, target: V)

  datatype Product<V> = Product(value: Result<V, ParseError>, next: nat)

  function Fail(position: nat, reason: Reason): Option<ParseError> { Some(ParseError(position, reason)) }

  predicate IsCut(error: Option<ParseError>) { error.Some? && error.value.reason.ForcedFailed? }

  function Parse<V>(p: Producer<V>, s: string, pos: nat): (r: Product<V>)
    requires pos <= |s|
    ensures pos <= r.next <= |s|
    decreases p, 0
  {
    match p
    case Symbol(accepts, make) =>
      if pos == |s| then Product(Err(ParseError(pos, UnexpectedEof)), pos)
      else if accepts(s[pos]) then Product(Ok(make(s[pos])), pos + 1)
      else Product(Err(ParseError(pos, UnexpectedCharacter)), pos)
    case Produce(initial, items) =>
      // A failed production leaves the position where it failed.
      var r := All(items, s, pos, initial, initial);
      Product(if r.error.None? then Ok(r.target) else Err(r.error.value), r.next)
    case Transformed(source, convert) =>
      var r := Parse(source, s, pos);
      Product(match r.value
              case Err(e) => Err(e)
              case Ok(v) =>
                match convert(v)
                case Ok(w) => Ok(w)
                case Err(reason) => Err(ParseError(r.next, reason)),
              r.next)
  }

  /** `blank` is the default value of the target's type. */
  function Process<V>(c: Clause<V>, s: string, pos: nat, target: V, blank: V): (r: Outcome<V>)
    requires pos <= |s|
    ensures pos <= r.next <= |s|
    decreases c, 0
  {
    match c
    case Consume(producer, into) =>
      var r := Parse(producer, s, pos);
      (match r.value
       case Ok(v) => Outcome(None, r.next, into(target, v))
       case Err(e) => Outcome(Some(e), r.next, target))
    case Alternatives(options) => Choose(options, s, pos, target, blank)
    case Maybe(items) =>
      var r := All(items, s, pos, target, blank);
      if r.error.None? then r else Outcome(None, pos, target)
    case Not(items) =>
      var r := All(items, s, pos, blank, blank);
      Outcome(if r.error.None? then Fail(pos, PatternNotFound) else None, pos, target)
    case And(items) =>
      var r := All(items, s, pos, blank, blank);
      Outcome(if r.error.None? then None else Fail(pos, PatternNotFound), pos, target)
    case Sequence(items) =>
      var r := All(items, s, pos, target, blank);
      if r.error.None? then r else Outcome(r.error, pos, target)
    case Forced(items) =>
      var r := All(items, s, pos, target, blank);
      if r.error.None? then r else Outcome(Fail(pos, ForcedFailed), pos, target)
    case Repeat(min, max, items) =>
      var (count, r) := Iterate(items, s, pos, target, blank, max, 0);
      if count >= min then Outcome(None, r.next, r.target)
      else Outcome(Fail(r.next, PatternNotFound), pos, r.target)
  }

  /** All clauses in turn, up to the first that fails; the position and target are left as they are then. */
  function All<V>(items: seq<Clause<V>>, s: string, pos: nat, target: V, blank: V): (r: Outcome<V>)
    requires pos <= |s|
    ensures pos <= r.next <= |s|
    decreases items, 0
  {
    if items == [] then Outcome(None, pos, target)
    else
      var r := Process(items[0], s, pos, target, blank);
      if r.error.Some? then r else All(items[1..], s, r.next, r.target, blank)
  }

  /** The first option that succeeds; a failed forced option ends the search. */
  function Choose<V>(options: seq<Clause<V>>, s: string, pos: nat, target: V, blank: V): (r: Outcome<V>)
    requires pos <= |s|
    ensures pos <= r.next <= |s|
    decreases options, 0
  {
    if options == [] then Outcome(Fail(pos, NoAppropriateAlternative), pos, target)
    else
      var r := Process(options[0], s, pos, target, blank);
      if r.error.None? then r
      else if IsCut(r.error) then Outcome(Fail(pos, NoAppropriateAlternative), pos, target)
      else Choose(options[1..], s, pos, target, blank)
  }

  /**
    Iterations of a repetition after `count` of them, and where they end.  A failed iteration gives its text
    back, but what it did to the target stays.
  */
  function Iterate<V>(items: seq<Clause<V>>, s: string, pos: nat, target: V, blank: V, max: nat, count: nat)
    : (r: (nat, Outcome<V>))
    requires pos <= |s| && count <= max
    ensures count <= r.0 <= max && pos <= r.1.next <= |s|
    decreases items, 1, max - count
  {
    if count == max then (count, Outcome(None, pos, target))
    else
      var r := All(items, s, pos, target, blank);
      if r.error.Some? then (count, Outcome(None, pos, r.target))
      else Iterate(items, s, r.next, r.target, blank, max, count + 1)
  }

  // ---------------------------------------------------------------- the whole text

  predicate IsSpace(ch: char) { ch == ' ' || ch == '\t' }

  function StripTrailing(s: string): (r: string)
    ensures r <= s
  {
    if s != [] && IsSpace(s[|s| - 1]) then StripTrailing(s[..|s| - 1]) else s
  }
}
