/** Unescaping of percent-encoded text, also in the place where the text stands (percent_encoding.hpp). */
module PercentEncoding {
  import opened Wrappers
  import opened Utf8

  const PERCENT: bv8 := 0x25
  const PLUS: bv8 := 0x2B
  const SPACE: bv8 := 0x20

  /** Positions count from the beginning of the text that is unescaped. */
  datatype Failure =
    | NextByteExpected(at: nat)
    | InvalidUtf8Sequence(at: nat)
    | InvalidEscapeSequence(at: nat)
    | InvalidNonEscapedChar(code: bv8, at: nat)
    | UnfinishedUtf8Sequence

  predicate IsHexDigit(c: bv8) { 0x30 <= c <= 0x39 || 0x61 <= c <= 0x66 || 0x41 <= c <= 0x46 }

  function HexValue(c: bv8): bv8 { if 0x30 <= c <= 0x39 then c - 0x30 else 10 + (c | 0x20) - 0x61 }

  function ExtractEscapedChar(c1: bv8, c2: bv8): bv8 { (HexValue(c1) << 4) + HexValue(c2) }

  predicate EscapeAt(data: seq<bv8>, pos: nat) {
    pos + 3 <= |data| && IsHexDigit(data[pos + 1]) && IsHexDigit(data[pos + 2])
  }

  // ---------------------------------------------------------------- unescaping a copy

  type Unescaping = Result<seq<bv8>, Failure>

  function Behind(done: seq<bv8>, more: Unescaping): Unescaping {
    match more
    case Ok(s) => Ok(done + s)
    case Err(e) => Err(e)
  }

  /** A character the text means, how much of the text it takes, and where the UTF-8 check then stands. */
  datatype Taken = Taken(ch: bv8, size: nat, checker: Checker)

  function Take(ordinary: bv8 -> bool, data: seq<bv8>, pos: nat, checker: Checker): (r: Result<Taken, Failure>)
    requires pos < |data|
    ensures r.Ok? ==> 1 <= r.value.size <= |data| - pos
  {
    var c := data[pos];
    if checker.rest > 0 && c != PERCENT then Err(NextByteExpected(pos))
    else if c == PERCENT then
      if !EscapeAt(data, pos) then Err(InvalidEscapeSequence(pos))
      else
        var ch := ExtractEscapedChar(data[pos + 1], data[pos + 2]);
        var next := Process(checker, ch);
        if !Accepting(next) then Err(InvalidUtf8Sequence(pos)) else Ok(Taken(ch, 3, Settled(next)))
    else if c == PLUS then Ok(Taken(SPACE, 1, checker))
    else if ordinary(c) then Ok(Taken(c, 1, checker))
    else Err(InvalidNonEscapedChar(c, pos))
  }

  /** What the text means from a position on, in the middle of a UTF-8 sequence or not. */
  function UnescapeFrom(ordinary: bv8 -> bool, data: seq<bv8>, pos: nat, checker: Checker): Unescaping
    decreases |data| - pos
  {
    if pos >= |data| then
      if checker.rest > 0 then Err(UnfinishedUtf8Sequence) else Ok([])
    else
      match Take(ordinary, data, pos, checker)
      case Err(e) => Err(e)
      case Ok(t) => Behind([t.ch], UnescapeFrom(ordinary, data, pos + t.size, t.checker))
  }

  function Unescape(ordinary: bv8 -> bool, data: seq<bv8>): Unescaping { UnescapeFrom(ordinary, data, 0, START) }

  // ---------------------------------------------------------------- unescaping in place

  lemma BehindBehind(a: seq<bv8>, b: seq<bv8>, more: Unescaping)
    ensures Behind(a, Behind(b, more)) == Behind(a + b, more) && Behind([], more) == more
  {
    if more.Ok? {
      assert a + (b + more.value) == (a + b) + more.value;
      assert [] + more.value == more.value;
    }
  }

  /** One character more. */
  lemma UnescapeStep(
      ordinary: bv8 -> bool, data: seq<bv8>, pos: nat, checker: Checker, done: seq<bv8>, t: Result<Taken, Failure>)
    requires pos < |data| && t == Take(ordinary, data, pos, checker)
    ensures Behind(done, UnescapeFrom(ordinary, data, pos, checker))
         == match t
            case Err(e) => Err(e)
            case Ok(v) => Behind(done + [v.ch], UnescapeFrom(ordinary, data, pos + v.size, v.checker))
  {
    if t.Ok? {
      BehindBehind(done, [t.value.ch], UnescapeFrom(ordinary, data, pos + t.value.size, t.value.checker));
    }
  }

  /** What the loop does with the text at a position, up to the point where the character is written. */
  method TakeChar(ordinary: bv8 -> bool, a: array<bv8>, from: nat, pos: nat, charsToHandle: nat, checker: Utf8Checker,
                  ghost data: seq<bv8>)
    returns (r: Result<Taken, Failure>)
    requires 0 < charsToHandle && from + |data| <= a.Length && pos + charsToHandle == |data|
    requires forall j :: pos <= j < |data| ==> a[from + j] == data[j]
    modifies checker
    ensures r == Take(ordinary, data, pos, old(checker.Value()))
    ensures r.Ok? ==> checker.Value() == r.value.checker
  {
    var d := from + pos;
    var c := a[d];
    assert c == data[pos];
    if !checker.Finalized() && c != PERCENT {
      return Err(NextByteExpected(pos));
    }
    if c == PERCENT {
      if charsToHandle >= 3 {
        assert a[from + (pos + 1)] == data[pos + 1] && a[from + (pos + 2)] == data[pos + 2];
      }
      if charsToHandle >= 3 && IsHexDigit(a[d + 1]) && IsHexDigit(a[d + 2]) {
        var ch := ExtractEscapedChar(a[d + 1], a[d + 2]);
        var accepted := checker.ProcessByte(ch);
        if !accepted {
          return Err(InvalidUtf8Sequence(pos));
        }
        if checker.Finalized() {
          checker.Reset();
        }
        return Ok(Taken(ch, 3, checker.Value()));
      }
      return Err(InvalidEscapeSequence(pos));
    }
    if c == PLUS {
      return Ok(Taken(SPACE, 1, checker.Value()));
    }
    if ordinary(c) {
      return Ok(Taken(c, 1, checker.Value()));
    }
    return Err(InvalidNonEscapedChar(c, pos));
  }

  /** The part that was written stands before the part that is still to be read. */
  ghost predicate Underway(a: array<bv8>, from: nat, data: seq<bv8>, pos: nat, written: seq<bv8>)
    reads a
  {
    && |written| <= pos <= |data| && from + |data| <= a.Length
    && a[from..from + |written|] == written
    && forall j :: pos <= j < |data| ==> a[from + j] == data[j]
  }

  /** One turn of the loop: the character goes behind those written before. */
  method Move(ordinary: bv8 -> bool, a: array<bv8>, from: nat, pos: nat, dest: nat, charsToHandle: nat,
              checker: Utf8Checker, ghost data: seq<bv8>, ghost written: seq<bv8>)
    returns (r: Result<Taken, Failure>, after: nat)
    requires 0 < charsToHandle && pos + charsToHandle == |data| && dest == from + |written|
    requires Underway(a, from, data, pos, written)
    modifies a, checker
    ensures Behind(written, UnescapeFrom(ordinary, data, pos, old(checker.Value())))
         == match r
            case Err(e) => Err(e)
            case Ok(t) => Behind(written + [t.ch], UnescapeFrom(ordinary, data, after, checker.Value()))
    ensures r.Ok? ==> pos < after == pos + r.value.size && Underway(a, from, data, after, written + [r.value.ch])
    ensures forall i :: 0 <= i < a.Length && !(from <= i < from + |data|) ==> a[i] == old(a[i])
  {
    ghost var value := checker.Value();
    r := TakeChar(ordinary, a, from, pos, charsToHandle, checker, data);
    UnescapeStep(ordinary, data, pos, value, written, r);
    after := pos;
    if r.Ok? {
      a[dest] := r.value.ch;
      after := pos + r.value.size;
    }
  }

  /**
    The text is overwritten with what it means while it is still being read. The result is the same as for a copy,
    it stands where the text began, and nothing outside of the text is touched.
  */
  method InplaceUnescape(ordinary: bv8 -> bool, a: array<bv8>, from: nat, size: nat) returns (r: Result<nat, Failure>)
    requires from + size <= a.Length
    modifies a
    ensures forall i :: 0 <= i < a.Length && !(from <= i < from + size) ==> a[i] == old(a[i])
    ensures match Unescape(ordinary, old(a[from..from + size]))
            case Err(e) => r == Err(e)
            case Ok(s) => r.Ok? && r.value <= size && a[from..from + r.value] == s
  {
    ghost var data := a[from..from + size];
    ghost var written: seq<bv8> := [];
    var charsToHandle, pos, dest := size, 0, from;
    var checker := new Utf8Checker();
    ghost var total := Unescape(ordinary, data);
    BehindBehind([], [], total);
    while 0 < charsToHandle
      invariant 0 <= charsToHandle && pos + charsToHandle == size && dest == from + |written|
      invariant forall i :: 0 <= i < a.Length && !(from <= i < from + size) ==> a[i] == old(a[i])
      invariant Underway(a, from, data, pos, written)
      invariant total == Behind(written, UnescapeFrom(ordinary, data, pos, checker.Value()))
      modifies a, checker
    {
      var taken;
      taken, pos := Move(ordinary, a, from, pos, dest, charsToHandle, checker, data, written);
      if taken.Err? {
        return Err(taken.error);
      }
      dest := dest + 1;
      written := written + [taken.value.ch];
      charsToHandle := charsToHandle - taken.value.size;
    }
    if !checker.Finalized() {
      return Err(UnfinishedUtf8Sequence);
    }
    assert written == written + [];
    return Ok(dest - from);
  }
}
