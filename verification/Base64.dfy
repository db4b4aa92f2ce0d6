/** Base64 (base64.hpp; section 4 of RFC 4648). Characters are bytes here, as they are in the source. */
module Base64 {
  import opened Sequences
  import opened Wrappers

  /** The second is no error of the source: what happens then is undefined. */
  datatype DecodingError = InvalidBase64Sequence | ReadBeyondEnd

  const PADDING: bv8 := 0x3d

  // ---------------------------------------------------------------- the tables

  /** The alphabet: upper case, lower case, digits, plus, slash. */
  function AlphabetChar(n: bv8): bv8 {
    if n < 26 then n + 0x41
    else if n < 52 then n - 26 + 0x61
    else if n < 62 then n - 52 + 0x30
    else if n == 62 then 0x2b
    else 0x2f
  }

  /** The decoding table, which is zero outside of the alphabet. */
  function DecodeTable(ch: bv8): bv8 {
    if 0x41 <= ch <= 0x5a then ch - 0x41
    else if 0x61 <= ch <= 0x7a then ch - 0x61 + 26
    else if 0x30 <= ch <= 0x39 then ch - 0x30 + 52
    else if ch == 0x2b then 62
    else if ch == 0x2f then 63
    else 0
  }

  predicate IsAlpha(ch: bv8) {
    0x41 <= ch <= 0x5a || 0x61 <= ch <= 0x7a || 0x30 <= ch <= 0x39 || ch == 0x2b || ch == 0x2f
  }

  /** The padding is in the table too. */
  predicate IsBase64Char(ch: bv8) { IsAlpha(ch) || ch == PADDING }

  lemma TablesInverse(n: bv8, ch: bv8)
    ensures n < 64 ==> IsAlpha(AlphabetChar(n)) && AlphabetChar(n) != PADDING && DecodeTable(AlphabetChar(n)) == n
    ensures DecodeTable(ch) < 64 && (IsAlpha(ch) ==> AlphabetChar(DecodeTable(ch)) == ch)
  {
  }

  /** Table 1 of RFC 4648. */
  const ALPHABET: seq<bv8> := [
    0x41, 0x42, 0x43, 0x44, 0x45, 0x46, 0x47, 0x48, 0x49, 0x4a, 0x4b, 0x4c, 0x4d, 0x4e, 0x4f, 0x50,
    0x51, 0x52, 0x53, 0x54, 0x55, 0x56, 0x57, 0x58, 0x59, 0x5a, 0x61, 0x62, 0x63, 0x64, 0x65, 0x66,
    0x67, 0x68, 0x69, 0x6a, 0x6b, 0x6c, 0x6d, 0x6e, 0x6f, 0x70, 0x71, 0x72, 0x73, 0x74, 0x75, 0x76,
    0x77, 0x78, 0x79, 0x7a, 0x30, 0x31, 0x32, 0x33, 0x34, 0x35, 0x36, 0x37, 0x38, 0x39, 0x2b, 0x2f
  ]

  lemma AlphabetIs()
    ensures ALPHABET == [
              AlphabetChar(0), AlphabetChar(1), AlphabetChar(2), AlphabetChar(3), AlphabetChar(4), AlphabetChar(5),
              AlphabetChar(6), AlphabetChar(7), AlphabetChar(8), AlphabetChar(9), AlphabetChar(10), AlphabetChar(11),
              AlphabetChar(12), AlphabetChar(13), AlphabetChar(14), AlphabetChar(15), AlphabetChar(16), AlphabetChar(17),
              AlphabetChar(18), AlphabetChar(19), AlphabetChar(20), AlphabetChar(21), AlphabetChar(22), AlphabetChar(23),
              AlphabetChar(24), AlphabetChar(25), AlphabetChar(26), AlphabetChar(27), AlphabetChar(28), AlphabetChar(29),
              AlphabetChar(30), AlphabetChar(31), AlphabetChar(32), AlphabetChar(33), AlphabetChar(34), AlphabetChar(35),
              AlphabetChar(36), AlphabetChar(37), AlphabetChar(38), AlphabetChar(39), AlphabetChar(40), AlphabetChar(41),
              AlphabetChar(42), AlphabetChar(43), AlphabetChar(44), AlphabetChar(45), AlphabetChar(46), AlphabetChar(47),
              AlphabetChar(48), AlphabetChar(49), AlphabetChar(50), AlphabetChar(51), AlphabetChar(52), AlphabetChar(53),
              AlphabetChar(54), AlphabetChar(55), AlphabetChar(56), AlphabetChar(57), AlphabetChar(58), AlphabetChar(59),
              AlphabetChar(60), AlphabetChar(61), AlphabetChar(62), AlphabetChar(63)
            ]
  {
  }

  // ---------------------------------------------------------------- validation

  predicate AllAlpha(s: seq<bv8>) { forall i :: 0 <= i < |s| ==> IsAlpha(s[i]) }

  /** Characters of the alphabet with at most two paddings behind. Any length from four will do. */
  predicate Valid(s: seq<bv8>) {
    && |s| >= 4
    && AllAlpha(s[..|s| - 2])
    && var a, b := s[|s| - 2], s[|s| - 1];
       (IsAlpha(a) && IsAlpha(b)) || (IsAlpha(a) && b == PADDING) || (a == PADDING && b == PADDING)
  }

  datatype Expected = B64Char | B64CharOrPadding | Padding

  method IsValidBase64String(s: seq<bv8>) returns (valid: bool)
    ensures valid <==> Valid(s)
  {
    if |s| < 4 {
      return false;
    }
    var expects, charsFound, paddingsFound := B64Char, 0, 0;
    for i := 0 to |s|
      invariant 0 <= paddingsFound <= 2 && paddingsFound <= i
      invariant forall j :: 0 <= j < i - paddingsFound ==> IsAlpha(s[j])
      invariant forall j :: i - paddingsFound <= j < i ==> s[j] == PADDING
      invariant expects == if i < 2 then B64Char else if paddingsFound == 0 then B64CharOrPadding else Padding
      invariant expects == B64Char ==> charsFound == i && paddingsFound == 0
    {
      assert i < |s| - 2 ==> s[..|s| - 2][i] == s[i];
      match expects
      case B64Char =>
        if s[i] == PADDING {
          return false;
        } else if IsBase64Char(s[i]) {
          charsFound := charsFound + 1;
          if charsFound >= 2 {
            expects := B64CharOrPadding;
          }
        } else {
          return false;
        }
      case B64CharOrPadding =>
        if s[i] == PADDING {
          expects := Padding;
          paddingsFound := paddingsFound + 1;
        } else if !IsBase64Char(s[i]) {
          return false;
        }
      case Padding =>
        if s[i] == PADDING {
          paddingsFound := paddingsFound + 1;
          if paddingsFound > 2 {
            assert s[..|s| - 2][i - 2] == PADDING;
            return false;
          }
        } else {
          assert s[i - 1] == PADDING;
          return false;
        }
    }
    return true;
  }

  // ---------------------------------------------------------------- groups

  function Word(a: bv8, b: bv8, c: bv8): bv32 { (a as bv32 << 16) | (b as bv32 << 8) | c as bv32 }

  // Six bits of a word, from the one on that the name gives.

  function SixBits18(bs: bv32): bv8 { ((bs >> 18) & 0x3f) as bv8 }

  function SixBits12(bs: bv32): bv8 { ((bs >> 12) & 0x3f) as bv8 }

  function SixBits6(bs: bv32): bv8 { ((bs >> 6) & 0x3f) as bv8 }

  function SixBits0(bs: bv32): bv8 { (bs & 0x3f) as bv8 }

  // The same for eight bits.

  function EightBits16(bs: bv32): bv8 { ((bs >> 16) & 0xff) as bv8 }

  function EightBits8(bs: bv32): bv8 { ((bs >> 8) & 0xff) as bv8 }

  function EightBits0(bs: bv32): bv8 { (bs & 0xff) as bv8 }

  function EncodeGroup(s: seq<bv8>): (text: seq<bv8>)
    requires 1 <= |s| <= 3
    ensures |text| == 4
  {
    var bs := Word(s[0], if |s| > 1 then s[1] else 0, if |s| > 2 then s[2] else 0);
    [AlphabetChar(SixBits18(bs)), AlphabetChar(SixBits12(bs)),
     if |s| > 1 then AlphabetChar(SixBits6(bs)) else PADDING,
     if |s| > 2 then AlphabetChar(SixBits0(bs)) else PADDING]
  }

  /** A word shifted to make room for one more digit. */
  function Behind(bs: bv32, digit: bv8): bv32 { (bs << 6) | digit as bv32 }

  function Joined(a: bv8, b: bv8, c: bv8, d: bv8): bv32 { Behind(Behind(Behind(a as bv32, b), c), d) }

  /** A padding counts as a zero, and each takes away a byte. */
  function DecodeGroup(s: seq<bv8>): seq<bv8>
    requires |s| == 4
  {
    var bs := Joined(DecodeTable(s[0]), DecodeTable(s[1]),
                     if s[2] == PADDING then 0 else DecodeTable(s[2]), if s[3] == PADDING then 0 else DecodeTable(s[3]));
    if s[2] == PADDING && s[3] == PADDING then [EightBits16(bs)]
    else if s[2] == PADDING || s[3] == PADDING then [EightBits16(bs), EightBits8(bs)]
    else [EightBits16(bs), EightBits8(bs), EightBits0(bs)]
  }

  // ---------------------------------------------------------------- one group

  lemma WordDigits(a: bv8, b: bv8, c: bv8)
    ensures var bs := Word(a, b, c);
            && Joined(SixBits18(bs), SixBits12(bs), SixBits6(bs), SixBits0(bs)) == bs
            && EightBits16(bs) == a && EightBits8(bs) == b && EightBits0(bs) == c
            && SixBits18(bs) < 64 && SixBits12(bs) < 64 && SixBits6(bs) < 64 && SixBits0(bs) < 64
            && (c == 0 ==> SixBits0(bs) == 0) && (b == 0 && c == 0 ==> SixBits6(bs) == 0)
  {
  }

  lemma GroupRoundTrip(s: seq<bv8>)
    requires 1 <= |s| <= 3
    ensures DecodeGroup(EncodeGroup(s)) == s
  {
    var b, c := if |s| > 1 then s[1] else 0, if |s| > 2 then s[2] else 0;
    var bs := Word(s[0], b, c);
    WordDigits(s[0], b, c);
    TablesInverse(SixBits18(bs), 0);
    TablesInverse(SixBits12(bs), 0);
    TablesInverse(SixBits6(bs), 0);
    TablesInverse(SixBits0(bs), 0);
  }

  /** The bits a padded group has no byte for are zero: canonical, in the words of section 3.5 of RFC 4648. */
  predicate Canonical(s: seq<bv8>)
    requires Valid(s)
  {
    && (s[|s| - 1] == PADDING && s[|s| - 2] != PADDING ==> DecodeTable(s[|s| - 2]) & 3 == 0)
    && (s[|s| - 2] == PADDING ==> DecodeTable(s[|s| - 3]) & 15 == 0)
  }

  lemma JoinedDigits(a: bv8, b: bv8, c: bv8, d: bv8)
    requires a < 64 && b < 64 && c < 64 && d < 64
    ensures SixBits18(Joined(a, b, c, d)) == a && SixBits12(Joined(a, b, c, d)) == b
  {
  }

  lemma JoinedLastDigits(a: bv8, b: bv8, c: bv8, d: bv8)
    requires a < 64 && b < 64 && c < 64 && d < 64
    ensures SixBits6(Joined(a, b, c, d)) == c && SixBits0(Joined(a, b, c, d)) == d
  {
  }

  lemma JoinedBytes(bs: bv32)
    ensures Word(EightBits16(bs), EightBits8(bs), EightBits0(bs)) == bs & 0xffffff
  {
  }

  lemma LowBits(bs: bv32)
    ensures SixBits18(bs & 0xffffff) == SixBits18(bs) && SixBits12(bs & 0xffffff) == SixBits12(bs)
    ensures SixBits6(bs & 0xffffff) == SixBits6(bs) && SixBits0(bs & 0xffffff) == SixBits0(bs)
  {
  }

  lemma WordCut(bs: bv32)
    ensures var w := Word(EightBits16(bs), EightBits8(bs), 0);
            && SixBits18(w) == SixBits18(bs) && SixBits12(w) == SixBits12(bs)
            && SixBits6(w) == SixBits6(bs) & 60
  {
  }

  /** The digits that are left when the byte behind the first two is taken for zero. */
  lemma JoinedCut(a: bv8, b: bv8, c: bv8)
    requires a < 64 && b < 64 && c < 64
    ensures var bs := Joined(a, b, c, 0); var w := Word(EightBits16(bs), EightBits8(bs), 0);
            SixBits18(w) == a && SixBits12(w) == b && SixBits6(w) == c & 60
    ensures (c & 60 == c <==> c & 3 == 0) && c & 60 < 64
  {
    JoinedDigits(a, b, c, 0);
    JoinedLastDigits(a, b, c, 0);
    WordCut(Joined(a, b, c, 0));
  }

  /** The digits that are left when the bytes behind the first are taken for zero. */
  lemma JoinedCutTwice(a: bv8, b: bv8)
    requires a < 64 && b < 64
    ensures var bs := Joined(a, b, 0, 0); var w := Word(EightBits16(bs), 0, 0);
            SixBits18(w) == a && SixBits12(w) == b & 48
    ensures (b & 48 == b <==> b & 15 == 0) && b & 48 < 64
  {
  }

  lemma JoinedBack(a: bv8, b: bv8, c: bv8, d: bv8)
    requires a < 64 && b < 64 && c < 64 && d < 64
    ensures var bs := Joined(a, b, c, d); var w := Word(EightBits16(bs), EightBits8(bs), EightBits0(bs));
            SixBits18(w) == a && SixBits12(w) == b && SixBits6(w) == c && SixBits0(w) == d
  {
    var bs := Joined(a, b, c, d);
    JoinedDigits(a, b, c, d);
    JoinedLastDigits(a, b, c, d);
    JoinedBytes(bs);
    LowBits(bs);
  }

  lemma GroupBack(s: seq<bv8>)
    requires |s| == 4 && Valid(s)
    ensures 1 <= |DecodeGroup(s)| <= 3 && (AllAlpha(s) <==> |DecodeGroup(s)| == 3)
    ensures EncodeGroup(DecodeGroup(s)) == s <==> Canonical(s)
  {
    assert s[..2][0] == s[0] && s[..2][1] == s[1];
    var a, b, c, d := DecodeTable(s[0]), DecodeTable(s[1]), DecodeTable(s[2]), DecodeTable(s[3]);
    TablesInverse(0, s[0]);
    TablesInverse(0, s[1]);
    if s[2] == PADDING {
      JoinedCutTwice(a, b);
      TablesInverse(b & 48, 0);
    } else {
      TablesInverse(0, s[2]);
      if s[3] == PADDING {
        JoinedCut(a, b, c);
        TablesInverse(c & 60, 0);
      } else {
        TablesInverse(0, s[3]);
        JoinedBack(a, b, c, d);
      }
    }
  }

  // ---------------------------------------------------------------- whole strings

  function Encode(s: seq<bv8>): seq<bv8> {
    if s == [] then [] else if |s| <= 3 then EncodeGroup(s) else EncodeGroup(s[..3]) + Encode(s[3..])
  }

  /** The string consists of whole groups. */
  predicate Whole(s: seq<bv8>) { s == [] || (|s| >= 4 && Whole(s[4..])) }

  function Decode(s: seq<bv8>): seq<bv8>
    requires Whole(s)
  {
    if s == [] then [] else DecodeGroup(s[..4]) + Decode(s[4..])
  }

  lemma {:induction false} WholeIff(s: seq<bv8>)
    ensures Whole(s) <==> |s| % 4 == 0
    decreases |s|
  {
    if |s| >= 4 {
      WholeIff(s[4..]);
    }
  }

  lemma EncodeNext(s: seq<bv8>, i: nat, result: seq<bv8>)
    requires i + 3 <= |s| && Encode(s) == result + Encode(s[i..])
    ensures Encode(s) == (result + EncodeGroup(s[i..i + 3])) + Encode(s[i + 3..])
  {
    var rest := s[i..];
    assert rest[..3] == s[i..i + 3] && rest[3..] == s[i + 3..];
    if |rest| == 3 {
      assert rest == s[i..i + 3] && s[i + 3..] == [];
      Regroup([], [], EncodeGroup(rest));
    }
    Regroup(result, EncodeGroup(s[i..i + 3]), Encode(s[i + 3..]));
  }

  method EncodeBytes(s: seq<bv8>) returns (result: seq<bv8>)
    ensures result == Encode(s)
  {
    result := [];
    var remaining := |s| % 3;
    var i := 0;
    Regroup([], [], Encode(s));
    assert s[0..] == s;
    while i < |s| - remaining
      invariant i % 3 == 0 && 0 <= i <= |s| - remaining
      invariant Encode(s) == result + Encode(s[i..])
    {
      var bs := Word(s[i], s[i + 1], s[i + 2]);
      EncodeNext(s, i, result);
      result := result + [AlphabetChar(SixBits18(bs)), AlphabetChar(SixBits12(bs)),
                          AlphabetChar(SixBits6(bs)), AlphabetChar(SixBits0(bs))];
      i := i + 3;
    }
    if remaining == 1 {
      var bs := Word(s[i], 0, 0);
      assert s[i..] == [s[i]];
      result := result + [AlphabetChar(SixBits18(bs)), AlphabetChar(SixBits12(bs)), PADDING, PADDING];
    } else if remaining == 2 {
      var bs := Word(s[i], s[i + 1], 0);
      assert s[i..] == [s[i], s[i + 1]];
      result := result + [AlphabetChar(SixBits18(bs)), AlphabetChar(SixBits12(bs)),
                          AlphabetChar(SixBits6(bs)), PADDING];
    } else {
      assert s[i..] == [];
      Regroup([], [], result);
    }
  }

  lemma DecodeNext(s: seq<bv8>, i: nat, next: nat, result: seq<bv8>)
    requires Whole(s) && i < |s| && Whole(s[i..]) && Decode(s) == result + Decode(s[i..]) && next == i + 4
    ensures next <= |s| && Whole(s[next..])
    ensures Decode(s) == (result + DecodeGroup(s[i..next])) + Decode(s[next..])
  {
    var rest := s[i..];
    assert rest[..4] == s[i..next] && rest[4..] == s[next..];
    Regroup(result, DecodeGroup(s[i..next]), Decode(s[next..]));
  }

  /** What decoding gives; a valid string that does not consist of whole groups is read beyond its end. */
  function Decoded(s: seq<bv8>): Result<seq<bv8>, DecodingError> {
    if !Valid(s) then Err(InvalidBase64Sequence) else if Whole(s) then Ok(Decode(s)) else Err(ReadBeyondEnd)
  }

  method TryDecode(s: seq<bv8>) returns (r: Result<seq<bv8>, DecodingError>)
    ensures r == Decoded(s)
  {
    var valid := IsValidBase64String(s);
    if !valid {
      return Err(InvalidBase64Sequence);
    }
    var result: seq<bv8> := [];
    var i := 0;
    assert s[0..] == s;
    if Whole(s) {
      Regroup([], [], Decode(s));
    }
    while i < |s|
      invariant 0 <= i <= |s| && (Whole(s) <==> Whole(s[i..]))
      invariant Whole(s) ==> Decode(s) == result + Decode(s[i..])
    {
      if i + 4 > |s| {
        return Err(ReadBeyondEnd);
      }
      result, i := DecodeAt(s, i, result);
    }
    assert s[i..] == [];
    Regroup([], [], result);
    return Ok(result);
  }

  /** One turn of the decoding loop. */
  method DecodeAt(s: seq<bv8>, i: nat, before: seq<bv8>) returns (result: seq<bv8>, next: nat)
    requires i + 4 <= |s| && (Whole(s) <==> Whole(s[i..])) && (Whole(s) ==> Decode(s) == before + Decode(s[i..]))
    ensures i < next <= |s| && (Whole(s) <==> Whole(s[next..]))
    ensures Whole(s) ==> Decode(s) == result + Decode(s[next..])
  {
    next := i + 4;
    assert s[i..][4..] == s[next..];
    if Whole(s) {
      DecodeNext(s, i, next, before);
    }
    assert s[i..next] == [s[i], s[i + 1], s[i + 2], s[i + 3]];
    var group := DecodeOne(s[i], s[i + 1], s[i + 2], s[i + 3]);
    result := before + group;
  }

  /** The bytes of one group. */
  method DecodeOne(c0: bv8, c1: bv8, c2: bv8, c3: bv8) returns (group: seq<bv8>)
    ensures group == DecodeGroup([c0, c1, c2, c3])
  {
    var bs, paddingsFound := CollectDigits(DecodeTable, c0, c1, c2, c3);
    group := [EightBits16(bs)];
    if paddingsFound < 2 {
      group := group + [EightBits8(bs)];
    }
    if paddingsFound < 1 {
      group := group + [EightBits0(bs)];
    }
  }

  /** The digits of a group in one word. */
  method CollectDigits(table: bv8 -> bv8, c0: bv8, c1: bv8, c2: bv8, c3: bv8) returns (bs: bv32, paddingsFound: nat)
    ensures bs == Joined(table(c0), table(c1),
                         if c2 == PADDING then 0 else table(c2), if c3 == PADDING then 0 else table(c3))
    ensures paddingsFound == (if c2 == PADDING then 1 else 0) + if c3 == PADDING then 1 else 0
  {
    bs := table(c0) as bv32;
    bs := Behind(bs, table(c1));
    var third, fourth;
    bs, third := AddDigit(table, bs, c2);
    bs, fourth := AddDigit(table, bs, c3);
    paddingsFound := third + fourth;
  }

  /** The step for the third and the fourth character, either of which may be a padding. */
  method AddDigit(table: bv8 -> bv8, bs: bv32, ch: bv8) returns (next: bv32, paddings: nat)
    ensures next == Behind(bs, if ch == PADDING then 0 else table(ch))
    ensures paddings == if ch == PADDING then 1 else 0
  {
    next, paddings := bs << 6, 0;
    if ch == PADDING {
      paddings := 1;
    } else {
      next := next | table(ch) as bv32;
    }
  }

  // ---------------------------------------------------------------- the round trips

  lemma GroupShape(s: seq<bv8>)
    requires 1 <= |s| <= 3
    ensures Valid(EncodeGroup(s)) && (|s| == 3 ==> AllAlpha(EncodeGroup(s)))
  {
    var b, c := if |s| > 1 then s[1] else 0, if |s| > 2 then s[2] else 0;
    var bs := Word(s[0], b, c);
    WordDigits(s[0], b, c);
    TablesInverse(SixBits18(bs), 0);
    TablesInverse(SixBits12(bs), 0);
    TablesInverse(SixBits6(bs), 0);
    TablesInverse(SixBits0(bs), 0);
  }

  lemma ValidPrepend(group: seq<bv8>, rest: seq<bv8>)
    requires |group| == 4 && |rest| >= 4
    ensures Valid(group + rest) <==> AllAlpha(group) && Valid(rest)
  {
    var s := group + rest;
    assert s[..|s| - 2] == group + rest[..|rest| - 2];
    AllAlphaConcat(group, rest[..|rest| - 2]);
  }

  lemma AllAlphaConcat(a: seq<bv8>, b: seq<bv8>)
    ensures AllAlpha(a + b) <==> AllAlpha(a) && AllAlpha(b)
  {
    assert forall i :: 0 <= i < |a| ==> (a + b)[i] == a[i];
    assert forall i :: 0 <= i < |b| ==> (a + b)[|a| + i] == b[i];
  }

  /** How many groups the bytes make. */
  function Groups(n: nat): nat { if n == 0 then 0 else if n <= 3 then 1 else 1 + Groups(n - 3) }

  lemma {:induction false} GroupsIs(n: nat)
    ensures Groups(n) == (n + 2) / 3
  {
    if n > 3 {
      GroupsIs(n - 3);
    }
  }

  /** The first group of the text and the rest. */
  lemma EncodeGroups(s: seq<bv8>)
    requires s != []
    ensures var group, rest := if |s| <= 3 then s else s[..3], if |s| <= 3 then [] else s[3..];
            && Encode(s) == EncodeGroup(group) + Encode(rest)
            && Encode(s)[..4] == EncodeGroup(group) && Encode(s)[4..] == Encode(rest)
  {
  }

  lemma {:induction false} EncodeWhole(s: seq<bv8>)
    ensures |Encode(s)| == 4 * Groups(|s|) && Whole(Encode(s))
    decreases |s|
  {
    if s != [] {
      EncodeGroups(s);
      EncodeWhole(if |s| <= 3 then [] else s[3..]);
    }
  }

  lemma {:induction false} EncodeValid(s: seq<bv8>)
    requires s != []
    ensures Valid(Encode(s))
    decreases |s|
  {
    if |s| <= 3 {
      GroupShape(s);
    } else {
      GroupShape(s[..3]);
      EncodeValid(s[3..]);
      ValidPrepend(EncodeGroup(s[..3]), Encode(s[3..]));
    }
  }

  lemma {:induction false} DecodeEncode(s: seq<bv8>)
    requires Whole(Encode(s))
    ensures Decode(Encode(s)) == s
    decreases |s|
  {
    if s != [] {
      var group, rest := if |s| <= 3 then s else s[..3], if |s| <= 3 then [] else s[3..];
      EncodeGroups(s);
      GroupRoundTrip(group);
      DecodeEncode(rest);
      assert s == group + rest;
    }
  }

  /** Encoding makes four characters of every three bytes begun. */
  lemma EncodeLength(s: seq<bv8>)
    ensures |Encode(s)| == 4 * ((|s| + 2) / 3)
  {
    EncodeWhole(s);
    GroupsIs(|s|);
  }

  /** Encoding makes whole groups that decode to the bytes again, except that no bytes at all are refused. */
  lemma RoundTrip(s: seq<bv8>)
    ensures Whole(Encode(s)) && (Decoded(Encode(s)) == Ok(s) <==> s != [])
  {
    EncodeWhole(s);
    if s != [] {
      EncodeValid(s);
    }
    DecodeEncode(s);
  }

  /** Encoding what was decoded gives the text again if and only if the text is canonical. */
  lemma {:induction false} EncodeDecode(s: seq<bv8>)
    requires Valid(s) && Whole(s)
    ensures Encode(Decode(s)) == s <==> Canonical(s)
    decreases |s|
  {
    var group, rest := s[..4], s[4..];
    assert s == group + rest;
    if rest == [] {
      assert group == s;
      GroupBack(s);
      Regroup([], [], DecodeGroup(s));
    } else {
      ValidPrepend(group, rest);
      AllAlphaValid(group);
      GroupBack(group);
      EncodeDecode(rest);
      EncodePrepend(DecodeGroup(group), Decode(rest));
    }
  }

  lemma AllAlphaValid(group: seq<bv8>)
    requires |group| == 4 && AllAlpha(group)
    ensures Valid(group) && Canonical(group)
  {
  }

  lemma EncodePrepend(group: seq<bv8>, rest: seq<bv8>)
    requires |group| == 3
    ensures Encode(group + rest) == EncodeGroup(group) + Encode(rest)
  {
    var s := group + rest;
    if rest == [] {
      assert s == group;
      Regroup([], [], EncodeGroup(group));
    } else {
      assert s[..3] == group && s[3..] == rest;
    }
  }

  /** Decoding stays inside the string if and only if it is refused or its length is a multiple of four. */
  lemma InsideIff(s: seq<bv8>)
    ensures Decoded(s) != Err(ReadBeyondEnd) <==> !Valid(s) || |s| % 4 == 0
  {
    WholeIff(s);
  }

  /** The validator lets strings through that are not made of whole groups. */
  lemma ValidNotWhole()
    ensures exists s :: Valid(s) && Decoded(s) == Err(ReadBeyondEnd)
  {
    var s: seq<bv8> := [0x41, 0x41, 0x41, 0x41, 0x41];
    InsideIff(s);
    assert Valid(s) && Decoded(s) == Err(ReadBeyondEnd);
  }

  /** The first three bytes of "foobar", as section 10 of RFC 4648 has them. */
  lemma TestVectors()
    ensures Encode([0x66]) == [0x5a, 0x67, PADDING, PADDING]
    ensures Encode([0x66, 0x6f]) == [0x5a, 0x6d, 0x38, PADDING]
    ensures Encode([0x66, 0x6f, 0x6f]) == [0x5a, 0x6d, 0x39, 0x76]
  {
  }
}
