/** Query strings: splitting and joining, escaping and parsing undo each other. */
module QueryTheorems {
  import opened Wrappers
  import opened PercentEncoding
  import opened PercentTheorems
  import opened Query
  import opened Sequences
  import Utf8

  // ---------------------------------------------------------------- splitting and joining

  function Join(pairs: seq<(Text, Text)>): Text
    requires pairs != []
  {
    pairs[0].0 + [EQUAL_SIGN] + pairs[0].1 + if |pairs| == 1 then [] else [AMPERSAND] + Join(pairs[1..])
  }

  predicate Free(w: Wanted, s: Text) { forall i :: 0 <= i < |s| ==> !Matches(w, s[i]) }

  /** No name contains an equal sign and no value a separator. */
  predicate Plain(semicolon: bool, pairs: seq<(Text, Text)>) {
    forall i :: 0 <= i < |pairs| ==> Free(EqualSign, pairs[i].0) && Free(Separator(semicolon), pairs[i].1)
  }

  /** Where the first delimiter of a text that begins with a free part is. */
  lemma NextBehind(w: Wanted, query: Text, pos: nat, at: nat)
    requires pos <= at <= |query| && Free(w, query[pos..at]) && (at < |query| ==> Matches(w, query[at]))
    ensures Next(w, query, pos) == at
  {
    forall i | pos <= i < at
      ensures !Matches(w, query[i])
    {
      assert query[i] == query[pos..at][i - pos];
    }
    NextIs(w, query, pos, at);
  }

  lemma PairAt(query: Text, pos: nat, eq: nat, value: nat, end: nat, pair: (Text, Text), more: Text)
    requires pos <= |query| && query[pos..] == pair.0 + [EQUAL_SIGN] + pair.1 + more
    requires eq == pos + |pair.0| && value == eq + 1 && end == value + |pair.1|
    ensures end <= |query| && query[pos..eq] == pair.0 && query[eq] == EQUAL_SIGN
    ensures query[value..end] == pair.1 && query[end..] == more
  {
    var rest, n := query[pos..], |pair.0|;
    assert rest[..n] == query[pos..eq] && rest[n] == query[eq];
    assert rest[n + 1..n + 1 + |pair.1|] == query[value..end];
    assert rest[n + 1 + |pair.1|..] == query[end..];
  }

  lemma TextBehind(query: Text, end: nat, next: nat, more: Text)
    requires end <= |query| && query[end..] == more && next == end + 1 && more != []
    ensures next <= |query| && query[end] == more[0] && query[next..] == more[1..]
  {
  }

  /** The first pair of the slices. */
  lemma SliceStep(semicolon: bool, query: Text, pos: nat, eq: nat, value: nat, end: nat, next: nat)
    requires pos <= eq < |query| && value == eq + 1 && next == end + 1
    requires eq == Next(EqualSign, query, pos) && end == Next(Separator(semicolon), query, value)
    ensures var rest := SliceFrom(semicolon, query, next);
            SliceFrom(semicolon, query, pos) == Slices([(query[pos..eq], query[value..end])] + rest.pairs, rest.missing)
  {
  }

  lemma FirstSlice(semicolon: bool, query: Text, pos: nat, pair: (Text, Text), more: Text) returns (next: nat)
    requires pos <= |query| && query[pos..] == pair.0 + [EQUAL_SIGN] + pair.1 + more
    requires Free(EqualSign, pair.0) && Free(Separator(semicolon), pair.1)
    requires more != [] ==> Matches(Separator(semicolon), more[0])
    ensures if more == [] then next > |query| else next <= |query| && query[next..] == more[1..]
    ensures var rest := SliceFrom(semicolon, query, next);
            SliceFrom(semicolon, query, pos) == Slices([pair] + rest.pairs, rest.missing)
  {
    var eq := pos + |pair.0|;
    var value := eq + 1;
    var end := value + |pair.1|;
    next := end + 1;
    PairAt(query, pos, eq, value, end, pair, more);
    if more != [] {
      TextBehind(query, end, next, more);
    }
    NextBehind(EqualSign, query, pos, eq);
    NextBehind(Separator(semicolon), query, value, end);
    SliceStep(semicolon, query, pos, eq, value, end, next);
  }

  lemma {:induction false} SliceJoined(semicolon: bool, query: Text, pos: nat, pairs: seq<(Text, Text)>)
    requires pairs != [] && Plain(semicolon, pairs) && pos <= |query| && query[pos..] == Join(pairs)
    ensures SliceFrom(semicolon, query, pos) == Slices(pairs, None)
    decreases |pairs|
  {
    if |pairs| == 1 {
      var _ := FirstSlice(semicolon, query, pos, pairs[0], []);
      assert pairs == [pairs[0]];
    } else {
      var more := [AMPERSAND] + Join(pairs[1..]);
      var next := FirstSlice(semicolon, query, pos, pairs[0], more);
      assert more[1..] == Join(pairs[1..]);
      SliceJoined(semicolon, query, next, pairs[1..]);
      assert pairs == [pairs[0]] + pairs[1..];
    }
  }

  /** Pairs with what is behind each put together again. */
  function Assembled(pairs: seq<(Text, Text)>, ends: seq<Text>): Text
    requires |pairs| == |ends|
  {
    if pairs == [] then []
    else pairs[0].0 + [EQUAL_SIGN] + pairs[0].1 + ends[0] + Assembled(pairs[1..], ends[1..])
  }

  /** One separator, or nothing at the very end of the query. */
  predicate IsEnd(semicolon: bool, end: Text, last: bool) {
    (|end| == 1 && Matches(Separator(semicolon), end[0])) || (end == [] && last)
  }

  /** The slices are plain, with their ends they make up the text, and what is left over has no equal sign. */
  predicate MadeUp(semicolon: bool, text: Text, slices: Slices, ends: seq<Text>, rest: Text) {
    && Plain(semicolon, slices.pairs) && |ends| == |slices.pairs|
    && text == Assembled(slices.pairs, ends) + rest && Free(EqualSign, rest)
    && (forall i :: 0 <= i < |ends| ==> IsEnd(semicolon, ends[i], i == |ends| - 1 && slices.missing.None?))
    && (slices.missing.None? <==> rest == [])
  }

  lemma MadeUpMore(semicolon: bool, text: Text, slices: Slices, ends: seq<Text>, rest: Text,
                   pair: (Text, Text), end: bv8)
    requires MadeUp(semicolon, text, slices, ends, rest)
    requires Free(EqualSign, pair.0) && Free(Separator(semicolon), pair.1) && Matches(Separator(semicolon), end)
    ensures MadeUp(semicolon, pair.0 + [EQUAL_SIGN] + pair.1 + [end] + text,
                   Slices([pair] + slices.pairs, slices.missing), [[end]] + ends, rest)
  {
    var pairs, all := [pair] + slices.pairs, [[end]] + ends;
    assert pairs[1..] == slices.pairs && all[1..] == ends;
    var first := pair.0 + [EQUAL_SIGN] + pair.1 + [end];
    assert first + (Assembled(slices.pairs, ends) + rest) == (first + Assembled(slices.pairs, ends)) + rest;
  }

  lemma Parted(query: Text, pos: nat, eq: nat, value: nat, end: nat)
    requires pos <= eq < value == eq + 1 <= end <= |query| && query[eq] == EQUAL_SIGN
    ensures query[pos..] == query[pos..eq] + [EQUAL_SIGN] + query[value..end] + query[end..]
  {
  }

  lemma OneMadeUp(semicolon: bool, pair: (Text, Text))
    requires Free(EqualSign, pair.0) && Free(Separator(semicolon), pair.1)
    ensures MadeUp(semicolon, pair.0 + [EQUAL_SIGN] + pair.1 + [], Slices([pair], None), [[]], [])
  {
  }

  lemma MadeUpFrom(semicolon: bool, query: Text, pos: nat, eq: nat, end: nat, next: nat, more: seq<Text>, rest: Text)
    requires pos <= eq < end < |query| && next == end + 1
    requires eq == Next(EqualSign, query, pos) && end == Next(Separator(semicolon), query, eq + 1)
    requires MadeUp(semicolon, query[next..], SliceFrom(semicolon, query, next), more, rest)
    ensures MadeUp(semicolon, query[pos..], SliceFrom(semicolon, query, pos), [[query[end]]] + more, rest)
  {
    var value := eq + 1;
    var pair := (query[pos..eq], query[value..end]);
    FreeBefore(EqualSign, query, pos, eq);
    FreeBefore(Separator(semicolon), query, value, end);
    PartedMore(query, pos, eq, value, end, next);
    SliceStep(semicolon, query, pos, eq, value, end, next);
    MadeUpMore(semicolon, query[next..], SliceFrom(semicolon, query, next), more, rest, pair, query[end]);
  }

  lemma FreeBefore(w: Wanted, query: Text, pos: nat, at: nat)
    requires pos <= at <= |query| && at == Next(w, query, pos)
    ensures Free(w, query[pos..at]) && (at < |query| ==> Matches(w, query[at]))
  {
    NextIs(w, query, pos, at);
  }

  lemma PartedMore(query: Text, pos: nat, eq: nat, value: nat, end: nat, next: nat)
    requires pos <= eq < value == eq + 1 <= end < next == end + 1 <= |query| && query[eq] == EQUAL_SIGN
    ensures query[pos..] == query[pos..eq] + [EQUAL_SIGN] + query[value..end] + [query[end]] + query[next..]
  {
    Parted(query, pos, eq, value, end);
    assert query[end..] == [query[end]] + query[next..];
    Regroup(query[pos..eq] + [EQUAL_SIGN] + query[value..end], [query[end]], query[next..]);
  }

  lemma LastMadeUp(semicolon: bool, query: Text, pos: nat, eq: nat)
    requires pos <= eq < |query| && eq == Next(EqualSign, query, pos)
    requires |query| == Next(Separator(semicolon), query, eq + 1)
    ensures MadeUp(semicolon, query[pos..], SliceFrom(semicolon, query, pos), [[]], [])
  {
    var value := eq + 1;
    FreeBefore(EqualSign, query, pos, eq);
    FreeBefore(Separator(semicolon), query, value, |query|);
    Parted(query, pos, eq, value, |query|);
    SliceStep(semicolon, query, pos, eq, value, |query|, |query| + 1);
    OneMadeUp(semicolon, (query[pos..eq], query[value..|query|]));
  }

  /** Splitting loses nothing: slices and delimiters make up the query again. */
  lemma {:induction false} SliceSound(semicolon: bool, query: Text, pos: nat) returns (ends: seq<Text>, rest: Text)
    requires pos <= |query|
    ensures MadeUp(semicolon, query[pos..], SliceFrom(semicolon, query, pos), ends, rest)
    decreases |query| - pos
  {
    ends, rest := [], query[pos..];
    if pos < |query| {
      var eq := Next(EqualSign, query, pos);
      if eq == |query| {
        NextIs(EqualSign, query, pos, eq);
      } else {
        var end := Next(Separator(semicolon), query, eq + 1);
        if end == |query| {
          ends, rest := [[]], [];
          LastMadeUp(semicolon, query, pos, eq);
        } else {
          var next := end + 1;
          var more;
          more, rest := SliceSound(semicolon, query, next);
          ends := [[query[end]]] + more;
          MadeUpFrom(semicolon, query, pos, eq, end, next, more, rest);
        }
      }
    }
  }

  /** What is left over begins behind a separator and has no equal sign. */
  lemma {:induction false} MissingIs(semicolon: bool, query: Text, pos: nat)
    requires pos <= |query|
    ensures match SliceFrom(semicolon, query, pos).missing
            case None => true
            case Some(p) =>
              && pos <= p < |query| && (forall i :: p <= i < |query| ==> query[i] != EQUAL_SIGN)
              && (p > pos ==> Matches(Separator(semicolon), query[p - 1]))
    decreases |query| - pos
  {
    if pos < |query| {
      var eq := Next(EqualSign, query, pos);
      NextIs(EqualSign, query, pos, eq);
      if eq < |query| {
        var value := eq + 1;
        var end := Next(Separator(semicolon), query, value);
        var next := end + 1;
        NextIs(Separator(semicolon), query, value, end);
        SliceStep(semicolon, query, pos, eq, value, end, next);
        if end < |query| {
          MissingIs(semicolon, query, next);
        }
      }
    }
  }

  // ---------------------------------------------------------------- encoded pairs

  predicate AllUtf8(pairs: seq<(Text, Text)>) {
    forall i :: 0 <= i < |pairs| ==> Utf8.IsUtf8(pairs[i].0) && Utf8.IsUtf8(pairs[i].1)
  }

  /** The raw pairs are encodings of the pairs. */
  predicate Encodings(ordinary: bv8 -> bool, pairs: seq<(Text, Text)>, raw: seq<(Text, Text)>) {
    && |raw| == |pairs|
    && forall i :: 0 <= i < |pairs| ==>
         IsEncoding(ordinary, pairs[i].0, raw[i].0) && IsEncoding(ordinary, pairs[i].1, raw[i].1)
  }

  lemma AllUtf8First(pairs: seq<(Text, Text)>)
    requires pairs != []
    ensures AllUtf8(pairs) <==> Utf8.IsUtf8(pairs[0].0) && Utf8.IsUtf8(pairs[0].1) && AllUtf8(pairs[1..])
  {
    assert pairs == [pairs[0]] + pairs[1..];
  }

  lemma EncodingsFirst(ordinary: bv8 -> bool, pairs: seq<(Text, Text)>, raw: seq<(Text, Text)>)
    requires pairs != [] && raw != []
    ensures Encodings(ordinary, pairs, raw) <==>
            && IsEncoding(ordinary, pairs[0].0, raw[0].0) && IsEncoding(ordinary, pairs[0].1, raw[0].1)
            && Encodings(ordinary, pairs[1..], raw[1..])
  {
    assert pairs == [pairs[0]] + pairs[1..] && raw == [raw[0]] + raw[1..];
  }

  lemma PairsBehind(pair: (Text, Text), more: Parsed, pairs: seq<(Text, Text)>)
    ensures BehindPairs([pair], more) == Ok(pairs) <==> pairs != [] && pair == pairs[0] && more == Ok(pairs[1..])
  {
    if more.Ok? {
      assert ([pair] + more.value)[0] == pair && ([pair] + more.value)[1..] == more.value;
    }
    if pairs != [] {
      assert pairs == [pairs[0]] + pairs[1..];
    }
  }

  lemma UnescapePairIff(ordinary: bv8 -> bool, raw: (Text, Text), pair: (Text, Text))
    requires Ascii(ordinary)
    ensures UnescapePair(ordinary, raw) == Ok(pair) <==>
            && IsEncoding(ordinary, pair.0, raw.0) && IsEncoding(ordinary, pair.1, raw.1)
            && Utf8.IsUtf8(pair.0) && Utf8.IsUtf8(pair.1)
  {
    UnescapeIff(ordinary, raw.0, pair.0);
    UnescapeIff(ordinary, raw.1, pair.1);
  }

  lemma {:induction false} UnescapePairsIff(ordinary: bv8 -> bool, slices: Slices, pairs: seq<(Text, Text)>)
    requires Ascii(ordinary)
    ensures UnescapePairs(ordinary, slices) == Ok(pairs) <==>
            slices.missing.None? && Encodings(ordinary, pairs, slices.pairs) && AllUtf8(pairs)
    decreases |slices.pairs|
  {
    if slices.pairs != [] {
      var rest := Slices(slices.pairs[1..], slices.missing);
      if pairs != [] {
        UnescapePairIff(ordinary, slices.pairs[0], pairs[0]);
        UnescapePairsIff(ordinary, rest, pairs[1..]);
        AllUtf8First(pairs);
        EncodingsFirst(ordinary, pairs, slices.pairs);
      }
      match UnescapePair(ordinary, slices.pairs[0])
      case Err(_) =>
      case Ok(pair) => PairsBehind(pair, UnescapePairs(ordinary, rest), pairs);
    }
  }

  /** What is complained about is a missing equal sign, if and only if all pairs before it are encodings of UTF-8. */
  lemma {:induction false} MissingIff(ordinary: bv8 -> bool, slices: Slices, p: nat)
    requires Ascii(ordinary)
    ensures UnescapePairs(ordinary, slices) == Err(NoEqualSign(p)) <==>
            && slices.missing == Some(p)
            && exists pairs :: Encodings(ordinary, pairs, slices.pairs) && AllUtf8(pairs)
  {
    var whole := slices.(missing := None);
    MissingBehind(ordinary, slices, p);
    if UnescapePairs(ordinary, whole).Ok? {
      UnescapePairsIff(ordinary, whole, UnescapePairs(ordinary, whole).value);
    }
    if slices.missing == Some(p) {
      forall pairs | Encodings(ordinary, pairs, slices.pairs) && AllUtf8(pairs)
        ensures UnescapePairs(ordinary, whole) == Ok(pairs)
      {
        UnescapePairsIff(ordinary, whole, pairs);
      }
    }
  }

  lemma {:induction false} MissingBehind(ordinary: bv8 -> bool, slices: Slices, p: nat)
    ensures UnescapePairs(ordinary, slices) == Err(NoEqualSign(p)) <==>
            slices.missing == Some(p) && UnescapePairs(ordinary, slices.(missing := None)).Ok?
    decreases |slices.pairs|
  {
    if slices.pairs != [] {
      MissingBehind(ordinary, Slices(slices.pairs[1..], slices.missing), p);
    }
  }

  // ---------------------------------------------------------------- what a query means

  /** A query gives a tag if and only if it has no equal sign and is an encoding of the tag, which is UTF-8. */
  lemma ParseTagIff(traits: Traits, query: Text, tag: Text)
    requires Ascii(traits.ordinary)
    ensures Parse(traits, query) == Ok(Tag(tag)) <==>
            && query != [] && EQUAL_SIGN !in query
            && IsEncoding(traits.ordinary, tag, query) && Utf8.IsUtf8(tag)
  {
    UnescapeIff(traits.ordinary, query, tag);
  }

  /** A query gives pairs if and only if it is split into encodings of them, they are UTF-8 and nothing is left over. */
  lemma ParsePairsIff(traits: Traits, query: Text, pairs: seq<(Text, Text)>)
    requires Ascii(traits.ordinary)
    ensures Parse(traits, query) == Ok(Pairs(pairs)) <==>
            var slices := SliceFrom(traits.semicolon, query, 0);
            && (query == [] || EQUAL_SIGN in query) && slices.missing.None?
            && Encodings(traits.ordinary, pairs, slices.pairs) && AllUtf8(pairs)
  {
    UnescapePairsIff(traits.ordinary, SliceFrom(traits.semicolon, query, 0), pairs);
  }

  /** A missing equal sign is reported if and only if something is left over behind encodings of UTF-8. */
  lemma ParseMissingIff(traits: Traits, query: Text, p: nat)
    requires Ascii(traits.ordinary)
    ensures Parse(traits, query) == Err(NoEqualSign(p)) <==>
            var slices := SliceFrom(traits.semicolon, query, 0);
            && EQUAL_SIGN in query && slices.missing == Some(p)
            && exists pairs :: Encodings(traits.ordinary, pairs, slices.pairs) && AllUtf8(pairs)
  {
    MissingIff(traits.ordinary, SliceFrom(traits.semicolon, query, 0), p);
  }

  // ---------------------------------------------------------------- joined pairs come back

  lemma EqualInJoin(pairs: seq<(Text, Text)>)
    requires pairs != []
    ensures EQUAL_SIGN in Join(pairs)
  {
    assert Join(pairs)[|pairs[0].0|] == EQUAL_SIGN;
  }

  lemma FreeTo(w: Wanted, query: Text, pos: nat, part: Text, at: nat)
    requires pos <= at == pos + |part| <= |query| && query[pos..at] == part && Next(w, query, pos) == at
    ensures Free(w, part)
  {
    NextIs(w, query, pos, at);
    forall i | 0 <= i < |part|
      ensures !Matches(w, part[i])
    {
      assert part[i] == query[pos + i];
    }
  }

  /** A slice that stands for the same as the text it is cut from is all of it. */
  lemma CutWhole(ordinary: bv8 -> bool, w: Wanted, query: Text, pos: nat, part: Text, at: nat, s: Text)
    requires at == pos + |part| <= |query| && query[pos..at] == part && (at < |query| ==> Matches(w, query[at]))
    requires IsEncoding(ordinary, s, part) && IsEncoding(ordinary, s, query[pos..Next(w, query, pos)])
    ensures Next(w, query, pos) == at && Free(w, part)
  {
    var next := Next(w, query, pos);
    NextIs(w, query, pos, next);
    assert next <= at;
    assert query[pos..next] <= part by {
      assert query[pos..next] == part[..next - pos];
    }
    EncodingPrefix(ordinary, s, query[pos..next], part);
    FreeTo(w, query, pos, part, at);
  }

  /** The first pair that comes back is plain. */
  lemma FirstPlain(traits: Traits, query: Text, pos: nat, pair: (Text, Text), raw: (Text, Text), more: Text)
    requires pos <= |query| && query[pos..] == raw.0 + [EQUAL_SIGN] + raw.1 + more
    requires more != [] ==> more[0] == AMPERSAND
    requires IsEncoding(traits.ordinary, pair.0, raw.0) && IsEncoding(traits.ordinary, pair.1, raw.1)
    requires var slices := SliceFrom(traits.semicolon, query, pos);
             && slices.pairs != []
             && IsEncoding(traits.ordinary, pair.0, slices.pairs[0].0)
             && IsEncoding(traits.ordinary, pair.1, slices.pairs[0].1)
    ensures Free(EqualSign, raw.0) && Free(Separator(traits.semicolon), raw.1)
  {
    var eq := pos + |raw.0|;
    var value := eq + 1;
    var end := value + |raw.1|;
    var next := end + 1;
    PairAt(query, pos, eq, value, end, raw, more);
    CutWhole(traits.ordinary, EqualSign, query, pos, raw.0, eq, pair.0);
    if more != [] {
      TextBehind(query, end, next, more);
    }
    var cut := Next(Separator(traits.semicolon), query, value);
    SliceStep(traits.semicolon, query, pos, eq, value, cut, cut + 1);
    CutWhole(traits.ordinary, Separator(traits.semicolon), query, value, raw.1, end, pair.1);
  }

  lemma PlainFirst(semicolon: bool, raw: seq<(Text, Text)>)
    requires raw != []
    ensures Plain(semicolon, raw) <==>
            Free(EqualSign, raw[0].0) && Free(Separator(semicolon), raw[0].1) && Plain(semicolon, raw[1..])
  {
    assert raw == [raw[0]] + raw[1..];
  }

  /** Only plain encodings come back. */
  lemma {:induction false} ComesBackPlain(
      traits: Traits, query: Text, pos: nat, pairs: seq<(Text, Text)>, raw: seq<(Text, Text)>)
    requires raw != [] && pos <= |query| && query[pos..] == Join(raw) && Encodings(traits.ordinary, pairs, raw)
    requires Encodings(traits.ordinary, pairs, SliceFrom(traits.semicolon, query, pos).pairs)
    ensures Plain(traits.semicolon, raw)
    decreases |raw|
  {
    var slices := SliceFrom(traits.semicolon, query, pos);
    EncodingsFirst(traits.ordinary, pairs, raw);
    EncodingsFirst(traits.ordinary, pairs, slices.pairs);
    PlainFirst(traits.semicolon, raw);
    if |raw| == 1 {
      FirstPlain(traits, query, pos, pairs[0], raw[0], []);
    } else {
      var more := [AMPERSAND] + Join(raw[1..]);
      FirstPlain(traits, query, pos, pairs[0], raw[0], more);
      var next := FirstSlice(traits.semicolon, query, pos, raw[0], more);
      assert more[1..] == Join(raw[1..]);
      assert slices.pairs[1..] == SliceFrom(traits.semicolon, query, next).pairs;
      ComesBackPlain(traits, query, next, pairs[1..], raw[1..]);
    }
  }

  /**
    Pairs in any encoding, joined, are parsed back to the pairs if and only if all of them are UTF-8, no encoded name
    has an equal sign in it and no encoded value a separator.
  */
  lemma ParseRoundTrip(traits: Traits, pairs: seq<(Text, Text)>, raw: seq<(Text, Text)>)
    requires Ascii(traits.ordinary) && raw != [] && Encodings(traits.ordinary, pairs, raw)
    ensures Parse(traits, Join(raw)) == Ok(Pairs(pairs)) <==> AllUtf8(pairs) && Plain(traits.semicolon, raw)
  {
    var query := Join(raw);
    assert query[0..] == query;
    EqualInJoin(raw);
    ParsePairsIff(traits, query, pairs);
    if Parse(traits, query) == Ok(Pairs(pairs)) {
      ComesBackPlain(traits, query, 0, pairs, raw);
    }
    if Plain(traits.semicolon, raw) {
      SliceJoined(traits.semicolon, query, 0, raw);
    }
  }
}
