/** Unescaping gives exactly the texts that the encoded text stands for, and its failures say where and why not. */
module PercentTheorems {
  import opened Wrappers
  import opened Sequences
  import opened Utf8
  import opened PercentEncoding

  // ---------------------------------------------------------------- encodings

  /** A byte that may stand for itself. */
  predicate Kept(ordinary: bv8 -> bool, c: bv8) { ordinary(c) && c != PERCENT && c != PLUS }

  /** A hexadecimal digit, in upper or in lower case. */
  predicate IsHexOf(digit: bv8, n: bv8) {
    n < 16 && (digit == (if n < 10 then 0x30 + n else 0x41 + n - 10) || (n >= 10 && digit == 0x61 + n - 10))
  }

  /** A piece of text that stands for a byte: the byte itself, a plus for a space, or a percent sign and two digits. */
  predicate Writes(ordinary: bv8 -> bool, piece: seq<bv8>, c: bv8) {
    || (piece == [c] && Kept(ordinary, c))
    || (piece == [PLUS] && c == SPACE)
    || (|piece| == 3 && piece[0] == PERCENT && IsHexOf(piece[1], c >> 4) && IsHexOf(piece[2], c & 15))
  }

  /** How long the first piece of a text is. */
  function Size(e: seq<bv8>): nat { if e != [] && e[0] == PERCENT then 3 else 1 }

  /** The text is made of pieces that stand for the bytes. */
  predicate IsEncoding(ordinary: bv8 -> bool, s: seq<bv8>, e: seq<bv8>)
    decreases |s|
  {
    if s == [] then e == []
    else Size(e) <= |e| && Writes(ordinary, e[..Size(e)], s[0]) && IsEncoding(ordinary, s[1..], e[Size(e)..])
  }

  /** Only characters of ASCII stand for themselves. */
  ghost predicate Ascii(ordinary: bv8 -> bool) { forall c: bv8 :: ordinary(c) ==> c <= 0x7F }

  /** No encoding of a text is the beginning of another one. */
  lemma {:induction false} EncodingPrefix(ordinary: bv8 -> bool, s: seq<bv8>, e: seq<bv8>, e': seq<bv8>)
    requires IsEncoding(ordinary, s, e) && IsEncoding(ordinary, s, e') && e <= e'
    ensures e == e'
    decreases |s|
  {
    if s != [] {
      var n := Size(e);
      assert e'[..n] == e[..n];
      EncodingPrefix(ordinary, s[1..], e[n..], e'[n..]);
      assert e == e[..n] + e[n..] && e' == e'[..n] + e'[n..];
    }
  }

  lemma {:induction false} EncodingMore(ordinary: bv8 -> bool, s: seq<bv8>, e: seq<bv8>, c: bv8, piece: seq<bv8>)
    requires IsEncoding(ordinary, s, e) && Writes(ordinary, piece, c) && Size(piece) == |piece|
    ensures IsEncoding(ordinary, s + [c], e + piece)
    decreases |s|
  {
    var all, text := s + [c], e + piece;
    if s == [] {
      assert text == piece && all == [c];
      assert piece[..|piece|] == piece && piece[|piece|..] == [];
    } else {
      var n := Size(e);
      assert text[..n] == e[..n] && text[n..] == e[n..] + piece && all[1..] == s[1..] + [c];
      EncodingMore(ordinary, s[1..], e[n..], c, piece);
    }
  }

  // ---------------------------------------------------------------- one piece

  lemma HexPair(a: bv8, b: bv8, c: bv8)
    ensures IsHexOf(a, c >> 4) && IsHexOf(b, c & 15)
       <==> IsHexDigit(a) && IsHexDigit(b) && ExtractEscapedChar(a, b) == c
  {
  }

  /** At the start of a character, or within one. */
  predicate Good(checker: Checker) { checker == START || (checker.rest > 0 && Accepting(checker)) }

  lemma KeptByte(checker: Checker, c: bv8)
    requires c <= 0x7F && Good(checker)
    ensures Accepting(Process(checker, c)) <==> checker == START
    ensures checker == START ==> Settled(Process(checker, c)) == START
  {
  }

  lemma SettledGood(checker: Checker, c: bv8)
    requires Good(checker) && Accepting(Process(checker, c))
    ensures Good(Settled(Process(checker, c)))
  {
  }

  lemma Piece(data: seq<bv8>, pos: nat, n: nat)
    requires pos < |data| && n == Size(data[pos..]) && pos + n <= |data|
    ensures data[pos..][..n] == data[pos..pos + n] && data[pos..][n..] == data[pos + n..]
    ensures data[pos..pos + n] == if n == 3 then [data[pos], data[pos + 1], data[pos + 2]] else [data[pos]]
    ensures n == if data[pos] == PERCENT then 3 else 1
  {
  }

  /** A piece is taken for the byte it stands for, if that may come next, and for no other. */
  lemma WritesTakes(ordinary: bv8 -> bool, data: seq<bv8>, pos: nat, checker: Checker, c: bv8)
    requires Ascii(ordinary) && Good(checker) && pos < |data|
    requires var n := Size(data[pos..]); pos + n <= |data| && Writes(ordinary, data[pos..pos + n], c)
    ensures var r := Take(ordinary, data, pos, checker);
            if Accepting(Process(checker, c)) then r == Ok(Taken(c, Size(data[pos..]), Settled(Process(checker, c))))
            else r.Err?
  {
    var n := Size(data[pos..]);
    Piece(data, pos, n);
    if data[pos] == PERCENT {
      HexPair(data[pos + 1], data[pos + 2], c);
    } else {
      KeptByte(checker, c);
    }
  }

  /** What is taken is a piece that stands for it. */
  lemma TakesWritten(ordinary: bv8 -> bool, data: seq<bv8>, pos: nat, checker: Checker)
    requires Ascii(ordinary) && Good(checker) && pos < |data| && Take(ordinary, data, pos, checker).Ok?
    ensures var t := Take(ordinary, data, pos, checker).value;
            && t.size == Size(data[pos..]) && Writes(ordinary, data[pos..pos + t.size], t.ch)
            && Accepting(Process(checker, t.ch)) && t.checker == Settled(Process(checker, t.ch))
  {
    var t := Take(ordinary, data, pos, checker).value;
    Piece(data, pos, t.size);
    if data[pos] == PERCENT {
      HexPair(data[pos + 1], data[pos + 2], t.ch);
    } else {
      KeptByte(checker, t.ch);
    }
  }

  // ---------------------------------------------------------------- whole texts

  lemma BehindIs(ch: bv8, more: Unescaping, s: seq<bv8>)
    ensures Behind([ch], more) == Ok(s) <==> s != [] && s[0] == ch && more == Ok(s[1..])
  {
    if more.Ok? {
      assert ([ch] + more.value)[1..] == more.value;
    }
    if s != [] {
      assert s == [s[0]] + s[1..];
    }
  }

  /** An encoding starts with a piece that is taken for the first byte, and goes on with one of the others. */
  lemma FirstIff(ordinary: bv8 -> bool, data: seq<bv8>, pos: nat, checker: Checker, s: seq<bv8>)
    requires Ascii(ordinary) && Good(checker) && pos < |data| && s != []
    ensures var r := Take(ordinary, data, pos, checker);
            IsEncoding(ordinary, s, data[pos..]) && Accepts(checker, s) <==>
            && r.Ok? && r.value.ch == s[0] && IsEncoding(ordinary, s[1..], data[pos + r.value.size..])
            && Accepts(r.value.checker, s[1..])
  {
    var r, n := Take(ordinary, data, pos, checker), Size(data[pos..]);
    if pos + n <= |data| {
      Piece(data, pos, n);
      if Writes(ordinary, data[pos..pos + n], s[0]) {
        WritesTakes(ordinary, data, pos, checker, s[0]);
      }
    }
    if r.Ok? {
      TakesWritten(ordinary, data, pos, checker);
    }
  }

  lemma {:induction false} UnescapeFromIff(
      ordinary: bv8 -> bool, data: seq<bv8>, pos: nat, checker: Checker, s: seq<bv8>)
    requires Ascii(ordinary) && Good(checker) && pos <= |data|
    ensures UnescapeFrom(ordinary, data, pos, checker) == Ok(s) <==>
            IsEncoding(ordinary, s, data[pos..]) && Accepts(checker, s)
    decreases |data| - pos
  {
    if pos < |data| {
      var r := Take(ordinary, data, pos, checker);
      if s != [] {
        FirstIff(ordinary, data, pos, checker, s);
      }
      if r.Ok? {
        TakesWritten(ordinary, data, pos, checker);
        SettledGood(checker, r.value.ch);
        BehindIs(r.value.ch, UnescapeFrom(ordinary, data, pos + r.value.size, r.value.checker), s);
        if s != [] {
          UnescapeFromIff(ordinary, data, pos + r.value.size, r.value.checker, s[1..]);
        }
      }
    }
  }

  /** A text is unescaped to some bytes if and only if it is an encoding of them and they are UTF-8. */
  lemma UnescapeIff(ordinary: bv8 -> bool, e: seq<bv8>, s: seq<bv8>)
    requires Ascii(ordinary)
    ensures Unescape(ordinary, e) == Ok(s) <==> IsEncoding(ordinary, s, e) && IsUtf8(s)
  {
    assert e[0..] == e;
    UnescapeFromIff(ordinary, e, 0, START, s);
    AcceptsIffUtf8(s);
  }

  /** Every text has an encoding: section 2.1 of RFC 3986. */
  lemma {:induction false} SomeEncoding(ordinary: bv8 -> bool, s: seq<bv8>) returns (e: seq<bv8>)
    ensures IsEncoding(ordinary, s, e)
    decreases |s|
  {
    e := [];
    if s != [] {
      var c := s[0];
      var piece := [PERCENT, UpperDigit(c >> 4), UpperDigit(c & 15)];
      var rest := SomeEncoding(ordinary, s[1..]);
      e := piece + rest;
      assert e[..3] == piece && e[3..] == rest;
      Nibbles(c);
    }
  }

  function UpperDigit(n: bv8): bv8 { if n < 10 then 0x30 + n else 0x41 + n - 10 }

  lemma Nibbles(c: bv8)
    ensures IsHexOf(UpperDigit(c >> 4), c >> 4) && IsHexOf(UpperDigit(c & 15), c & 15)
  {
  }

  // ---------------------------------------------------------------- failures

  /** Where the check stands after some bytes, if it let them pass. */
  function Follow(checker: Checker, s: seq<bv8>): Option<Checker>
    decreases |s|
  {
    if s == [] then Some(checker)
    else if Accepting(Process(checker, s[0])) then Follow(Settled(Process(checker, s[0])), s[1..])
    else None
  }

  lemma {:induction false} FollowAccepts(checker: Checker, s: seq<bv8>, more: seq<bv8>)
    ensures Accepts(checker, s + more) <==> Follow(checker, s).Some? && Accepts(Follow(checker, s).value, more)
    decreases |s|
  {
    if s == [] {
      assert s + more == more;
    } else {
      assert (s + more)[1..] == s[1..] + more;
      FollowAccepts(Settled(Process(checker, s[0])), s[1..], more);
    }
  }

  lemma {:induction false} FollowMore(checker: Checker, s: seq<bv8>, c: bv8)
    requires Follow(checker, s).Some? && Accepting(Process(Follow(checker, s).value, c))
    ensures Follow(checker, s + [c]) == Some(Settled(Process(Follow(checker, s).value, c)))
    decreases |s|
  {
    if s == [] {
      assert s + [c] == [c];
      assert Follow(Settled(Process(checker, c)), []) == Some(Settled(Process(checker, c)));
    } else {
      assert (s + [c])[1..] == s[1..] + [c];
      FollowMore(Settled(Process(checker, s[0])), s[1..], c);
    }
  }

  /** Between two characters if and only if what passed is UTF-8. */
  lemma FollowUtf8(s: seq<bv8>)
    requires Follow(START, s).Some?
    ensures Follow(START, s).value.rest == 0 <==> IsUtf8(s)
  {
    assert s + [] == s;
    FollowAccepts(START, s, []);
    AcceptsIffUtf8(s);
  }

  /** A byte that is not let pass spoils every text that begins so. */
  lemma Spoiled(s: seq<bv8>, c: bv8, more: seq<bv8>)
    requires Follow(START, s).Some? && !Accepting(Process(Follow(START, s).value, c))
    ensures !IsUtf8(s + ([c] + more))
  {
    assert ([c] + more)[0] == c;
    FollowAccepts(START, s, [c] + more);
    AcceptsIffUtf8(s + ([c] + more));
  }

  /** What a failure says about the text, when `s` is what the text before it stands for. */
  ghost predicate Explains(ordinary: bv8 -> bool, e: seq<bv8>, s: seq<bv8>, at: nat, f: Failure) {
    && at <= |e| && IsEncoding(ordinary, s, e[..at])
    && match f
       case NextByteExpected(p) => p == at < |e| && e[p] != PERCENT && !IsUtf8(s)
       case InvalidUtf8Sequence(p) =>
         && p == at && EscapeAt(e, p) && e[p] == PERCENT
         && exists c: bv8 :: Writes(ordinary, e[p..p + 3], c) && forall more :: !IsUtf8(s + ([c] + more))
       case InvalidEscapeSequence(p) => p == at < |e| && e[p] == PERCENT && !EscapeAt(e, p)
       case InvalidNonEscapedChar(c, p) =>
         p == at < |e| && e[p] == c != PERCENT && c != PLUS && !ordinary(c) && IsUtf8(s)
       case UnfinishedUtf8Sequence => at == |e| && !IsUtf8(s)
  }

  lemma TakeFails(ordinary: bv8 -> bool, e: seq<bv8>, at: nat, checker: Checker, s: seq<bv8>)
    requires at < |e| && IsEncoding(ordinary, s, e[..at]) && Follow(START, s) == Some(checker)
    requires Take(ordinary, e, at, checker).Err?
    ensures Explains(ordinary, e, s, at, Take(ordinary, e, at, checker).error)
  {
    FollowUtf8(s);
    if e[at] == PERCENT && EscapeAt(e, at) {
      var c := ExtractEscapedChar(e[at + 1], e[at + 2]);
      HexPair(e[at + 1], e[at + 2], c);
      assert e[at..at + 3] == [e[at], e[at + 1], e[at + 2]];
      assert Writes(ordinary, e[at..at + 3], c);
      forall more: seq<bv8>
        ensures !IsUtf8(s + ([c] + more))
      {
        Spoiled(s, c, more);
      }
    }
  }

  /** One character further. */
  lemma OneMore(
      ordinary: bv8 -> bool, e: seq<bv8>, pos: nat, checker: Checker, s: seq<bv8>, t: Taken, next: nat)
    requires Ascii(ordinary) && Good(checker) && pos < |e| && Take(ordinary, e, pos, checker) == Ok(t)
    requires IsEncoding(ordinary, s, e[..pos]) && Follow(START, s) == Some(checker) && next == pos + t.size
    ensures next <= |e| && IsEncoding(ordinary, s + [t.ch], e[..next])
    ensures Good(t.checker) && Follow(START, s + [t.ch]) == Some(t.checker)
  {
    TakesWritten(ordinary, e, pos, checker);
    SettledGood(checker, t.ch);
    FollowMore(START, s, t.ch);
    MorePieces(ordinary, e, pos, next, s, t.ch);
  }

  lemma {:induction false} FailureFrom(ordinary: bv8 -> bool, e: seq<bv8>, pos: nat, checker: Checker, s: seq<bv8>)
    returns (at: nat, before: seq<bv8>)
    requires Ascii(ordinary) && Good(checker) && pos <= |e| && UnescapeFrom(ordinary, e, pos, checker).Err?
    requires IsEncoding(ordinary, s, e[..pos]) && Follow(START, s) == Some(checker)
    ensures Explains(ordinary, e, before, at, UnescapeFrom(ordinary, e, pos, checker).error)
    decreases |e| - pos
  {
    at, before := pos, s;
    if pos == |e| {
      FollowUtf8(s);
    } else {
      var r := Take(ordinary, e, pos, checker);
      if r.Err? {
        TakeFails(ordinary, e, pos, checker, s);
      } else {
        var next := pos + r.value.size;
        OneMore(ordinary, e, pos, checker, s, r.value, next);
        at, before := FailureFrom(ordinary, e, next, r.value.checker, s + [r.value.ch]);
      }
    }
  }

  lemma MorePieces(ordinary: bv8 -> bool, e: seq<bv8>, pos: nat, next: nat, s: seq<bv8>, c: bv8)
    requires pos < next <= |e| && next - pos == Size(e[pos..]) && Writes(ordinary, e[pos..next], c)
    requires IsEncoding(ordinary, s, e[..pos])
    ensures IsEncoding(ordinary, s + [c], e[..next])
  {
    assert e[..next] == e[..pos] + e[pos..next];
    assert e[pos..][0] == e[pos..next][0];
    EncodingMore(ordinary, s, e[..pos], c, e[pos..next]);
  }

  /** Every failure is explained by the text before it, which stands for some bytes, and what follows there. */
  lemma FailureExplained(ordinary: bv8 -> bool, e: seq<bv8>) returns (at: nat, before: seq<bv8>)
    requires Ascii(ordinary) && Unescape(ordinary, e).Err?
    ensures Explains(ordinary, e, before, at, Unescape(ordinary, e).error)
  {
    assert e[..0] == [];
    at, before := FailureFrom(ordinary, e, 0, START, []);
  }
}
