/** The byte-wise UTF-8 check (utf8_checker.hpp) accepts exactly the strings of section 4 of RFC 3629. */
module Utf8 {

  datatype State = Valid | Invalid | MayBeOverlong | Overlong

  /** A symbol in the making, the bytes it still needs, and the verdict so far. */
  datatype Checker = Checker(symbol: bv32, rest: nat, state: State)

  const START := Checker(0, 0, Valid)

  predicate Accepting(c: Checker) { c.state == Valid || c.state == MayBeOverlong }

  predicate IsScalar(symbol: bv32) { !(0xD800 <= symbol <= 0xDFFF) && symbol < 0x110000 }

  predicate OverlongTail(rest: nat, byte: bv8) {
    || (rest == 2 && byte & 0xE0 == 0x80)
    || (rest == 3 && byte & 0xF0 == 0x80)
    || (rest == 4 && byte & 0xF8 == 0x80)
    || (rest == 5 && byte & 0xFC == 0x80)
  }

  function CheckOverlong(c: Checker, byte: bv8): State {
    if c.rest > 0 && c.state == MayBeOverlong then
      if OverlongTail(c.rest, byte) then Overlong else Valid
    else if byte == 0xC0 || byte == 0xC1 then Overlong
    else if byte == 0xE0 || byte == 0xF0 || byte == 0xF8 || byte == 0xFC then MayBeOverlong
    else c.state
  }

  function Extended(symbol: bv32, byte: bv8): bv32 { (symbol << 6) | (byte & 0x3F) as bv32 }

  /** How many bytes follow the first one, if it may be a first one. */
  function Following(byte: bv8): int {
    if byte & 0x80 == 0 then 0
    else if byte & 0xE0 == 0xC0 then 1
    else if byte & 0xF0 == 0xE0 then 2
    else if byte & 0xF8 == 0xF0 then 3
    else if byte & 0xFC == 0xF8 then 4
    else if byte & 0xFE == 0xFC then 5
    else -1
  }

  /** What the first byte gives to the symbol. */
  function FirstBits(byte: bv8): bv8 {
    match Following(byte)
    case 1 => byte & 0x1F
    case 2 => byte & 0x0F
    case 3 => byte & 0x07
    case 4 => byte & 0x03
    case 5 => byte & 0x01
    case _ => byte
  }

  function Process(c: Checker, byte: bv8): Checker {
    var state := CheckOverlong(c, byte);
    if c.rest > 0 then
      if byte & 0xC0 != 0x80 then c.(state := Invalid)
      else
        var symbol := Extended(c.symbol, byte);
        Checker(symbol, c.rest - 1, if c.rest == 1 && !IsScalar(symbol) then Invalid else state)
    else if Following(byte) < 0 then Checker(byte as bv32, 0, Invalid)
    else Checker(FirstBits(byte) as bv32, Following(byte), state)
  }

  /** A finished symbol makes room for the next; the verdict stays. */
  function Settled(c: Checker): Checker { if c.rest == 0 then Checker(0, 0, c.state) else c }

  class Utf8Checker {
    var currentSymbol: bv32
    var currentSymbolRestBytes: nat
    var state: State

    constructor ()
      ensures Value() == START
    {
      currentSymbol, currentSymbolRestBytes, state := 0, 0, Valid;
    }

    function Value(): Checker
      reads this
    {
      Checker(currentSymbol, currentSymbolRestBytes, state)
    }

    method ProcessByte(byte: bv8) returns (accepted: bool)
      modifies this
      ensures Value() == Process(old(Value()), byte)
      ensures accepted <==> Accepting(Value())
    {
      state := CheckOverlong(Value(), byte);
      if currentSymbolRestBytes > 0 {
        if byte & 0xC0 == 0x80 {
          currentSymbol := Extended(currentSymbol, byte);
          currentSymbolRestBytes := currentSymbolRestBytes - 1;
          if currentSymbolRestBytes == 0 && !IsScalar(currentSymbol) {
            state := Invalid;
          }
        } else {
          state := Invalid;
        }
      } else if Following(byte) < 0 {
        state := Invalid;
        currentSymbol := byte as bv32;
      } else {
        currentSymbolRestBytes := Following(byte);
        currentSymbol := FirstBits(byte) as bv32;
      }
      accepted := state == Valid || state == MayBeOverlong;
    }

    predicate Finalized()
      reads this
    {
      currentSymbolRestBytes == 0
    }

    method Reset()
      modifies this
      ensures Value() == Checker(0, 0, old(state))
    {
      currentSymbol, currentSymbolRestBytes := 0, 0;
    }
  }

  // ---------------------------------------------------------------- the strings of RFC 3629

  predicate IsTail(byte: bv8) { 0x80 <= byte <= 0xBF }

  predicate Second3(a: bv8, b: bv8) {
    || (a == 0xE0 && 0xA0 <= b <= 0xBF) || (0xE1 <= a <= 0xEC && IsTail(b))
    || (a == 0xED && 0x80 <= b <= 0x9F) || (0xEE <= a <= 0xEF && IsTail(b))
  }

  predicate Second4(a: bv8, b: bv8) {
    || (a == 0xF0 && 0x90 <= b <= 0xBF) || (0xF1 <= a <= 0xF3 && IsTail(b)) || (a == 0xF4 && 0x80 <= b <= 0x8F)
  }

  /** The length of the character a string begins with, or zero if it begins with none. */
  function CharLength(s: seq<bv8>): (n: nat)
    ensures n <= |s|
  {
    if |s| >= 1 && s[0] <= 0x7F then 1
    else if |s| >= 2 && 0xC2 <= s[0] <= 0xDF && IsTail(s[1]) then 2
    else if |s| >= 3 && Second3(s[0], s[1]) && IsTail(s[2]) then 3
    else if |s| >= 4 && Second4(s[0], s[1]) && IsTail(s[2]) && IsTail(s[3]) then 4
    else 0
  }

  predicate IsUtf8(s: seq<bv8>) {
    s == [] || (CharLength(s) > 0 && IsUtf8(s[CharLength(s)..]))
  }

  // ---------------------------------------------------------------- the check accepts just these

  /** The check lets all bytes pass and is between two symbols at the end. */
  predicate Accepts(c: Checker, s: seq<bv8>)
    decreases |s|
  {
    if s == [] then c.rest == 0
    else
      var next := Process(c, s[0]);
      Accepting(next) && Accepts(Settled(next), s[1..])
  }

  /** One byte within a symbol. */
  lemma Continue(c: Checker, s: seq<bv8>)
    requires c.rest > 0 && Accepting(c)
    ensures Accepts(c, s) <==>
            && s != [] && IsTail(s[0]) && !(c.state == MayBeOverlong && OverlongTail(c.rest, s[0]))
            && (c.rest == 1 ==> IsScalar(Extended(c.symbol, s[0])))
            && Accepts(if c.rest == 1 then START else Checker(Extended(c.symbol, s[0]), c.rest - 1, Valid), s[1..])
  {
    if s != [] {
      assert s[0] & 0xC0 == 0x80 <==> IsTail(s[0]);
    }
  }

  /** The symbol is beyond Unicode already, whatever comes. */
  predicate Doomed(c: Checker) {
    && c.state == Valid
    && ((c.rest == 5 && 1 <= c.symbol < 2) || (c.rest == 4 && 1 <= c.symbol < 0x80)
        || (c.rest == 3 && 5 <= c.symbol < 0x2000) || (c.rest == 2 && 0x140 <= c.symbol < 0x80000)
        || (c.rest == 1 && 0x5000 <= c.symbol < 0x2000000))
  }

  lemma {:induction false} DoomedFails(c: Checker, s: seq<bv8>)
    requires Doomed(c)
    ensures !Accepts(c, s)
    decreases |s|
  {
    Continue(c, s);
    if s != [] && IsTail(s[0]) && c.rest > 1 {
      DoomedFails(Checker(Extended(c.symbol, s[0]), c.rest - 1, Valid), s[1..]);
    }
  }

  lemma OneByte(s: seq<bv8>)
    requires s != [] && s[0] <= 0x7F
    ensures Accepts(START, s) <==> Accepts(START, s[1..])
  {
  }

  lemma TwoBytes(s: seq<bv8>)
    requires s != [] && 0xC2 <= s[0] <= 0xDF
    ensures Accepts(START, s) <==> |s| >= 2 && IsTail(s[1]) && Accepts(START, s[2..])
  {
    var c := Process(START, s[0]);
    Continue(c, s[1..]);
    if |s| >= 2 {
      assert s[1..][1..] == s[2..];
    }
  }

  lemma ThreeBytes(s: seq<bv8>)
    requires s != [] && 0xE0 <= s[0] <= 0xEF
    ensures Accepts(START, s) <==> |s| >= 3 && Second3(s[0], s[1]) && IsTail(s[2]) && Accepts(START, s[3..])
  {
    var c := Process(START, s[0]);
    Continue(c, s[1..]);
    if |s| >= 2 {
      assert s[1..][1..] == s[2..];
      var d := Checker(Extended(c.symbol, s[1]), 1, Valid);
      Continue(d, s[2..]);
      if |s| >= 3 {
        assert s[2..][1..] == s[3..];
        Scalar3(s[0], s[1], s[2]);
      }
    }
  }

  lemma Scalar3(a: bv8, b: bv8, c: bv8)
    requires 0xE0 <= a <= 0xEF
    ensures IsTail(b) && IsTail(c) ==> (!(a == 0xE0 && OverlongTail(2, b)) && IsScalar(Extended(Extended((a & 0x0F) as bv32, b), c))
       <==> Second3(a, b))
  {
  }

  lemma FourBytes(s: seq<bv8>)
    requires s != [] && 0xF0 <= s[0] <= 0xF4
    ensures Accepts(START, s) <==>
            |s| >= 4 && Second4(s[0], s[1]) && IsTail(s[2]) && IsTail(s[3]) && Accepts(START, s[4..])
  {
    var c := Process(START, s[0]);
    Continue(c, s[1..]);
    if |s| >= 2 {
      assert s[1..][1..] == s[2..];
      var d := Checker(Extended(c.symbol, s[1]), 2, Valid);
      Continue(d, s[2..]);
      if |s| >= 3 {
        assert s[2..][1..] == s[3..];
        var e := Checker(Extended(d.symbol, s[2]), 1, Valid);
        Continue(e, s[3..]);
        if |s| >= 4 {
          assert s[3..][1..] == s[4..];
          Scalar4(s[0], s[1], s[2], s[3]);
        }
      }
    }
  }

  lemma Scalar4(a: bv8, b: bv8, c: bv8, d: bv8)
    requires 0xF0 <= a <= 0xF4
    ensures IsTail(b) && IsTail(c) && IsTail(d) ==>
            (!(a == 0xF0 && OverlongTail(3, b)) && IsScalar(Extended(Extended(Extended((a & 0x07) as bv32, b), c), d))
       <==> Second4(a, b))
  {
  }

  lemma NoChar(s: seq<bv8>)
    requires s != [] && (0x80 <= s[0] <= 0xC1 || 0xF5 <= s[0])
    ensures !Accepts(START, s)
  {
    var c := Process(START, s[0]);
    if Accepting(c) {
      if s[0] == 0xF8 || s[0] == 0xFC {
        Continue(c, s[1..]);
        if |s| >= 2 && IsTail(s[1]) && !OverlongTail(c.rest, s[1]) {
          DoomedFails(Checker(Extended(c.symbol, s[1]), c.rest - 1, Valid), s[1..][1..]);
        }
      } else {
        DoomedFails(c, s[1..]);
      }
    }
  }

  /** The check lets a string pass, from its start to its end, if and only if it is UTF-8. */
  lemma {:induction false} AcceptsIffUtf8(s: seq<bv8>)
    ensures Accepts(START, s) <==> IsUtf8(s)
    decreases |s|
  {
    if s != [] {
      if s[0] <= 0x7F {
        OneByte(s);
      } else if 0xC2 <= s[0] <= 0xDF {
        TwoBytes(s);
      } else if 0xE0 <= s[0] <= 0xEF {
        ThreeBytes(s);
      } else if 0xF0 <= s[0] <= 0xF4 {
        FourBytes(s);
      } else {
        NoChar(s);
      }
      if CharLength(s) > 0 {
        AcceptsIffUtf8(s[CharLength(s)..]);
      }
    }
  }
}
