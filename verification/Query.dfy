/** Parsing of a query string that is unescaped in the buffer it is parsed in (uri_helpers.hpp). */
module Query {
  import opened Wrappers
  import opened PercentEncoding

  type Text = seq<bv8>

  const EQUAL_SIGN: bv8 := 0x3D
  const AMPERSAND: bv8 := 0x26
  const SEMICOLON: bv8 := 0x3B

  /** Which characters need no escape, and whether a semicolon separates pairs as an ampersand does. */
  datatype Traits = Traits(ordinary: bv8 -> bool, semicolon: bool)

  datatype QueryFailure = NoEqualSign(from: nat) | NotUnescaped(failure: Failure)

  /** A lone tag, or pairs of names and values. */
  datatype Params<V> = Tag(tag: V) | Pairs(pairs: seq<(V, V)>)

  // ---------------------------------------------------------------- finding delimiters

  datatype Wanted = EqualSign | Separator(semicolon: bool)

  predicate Matches(w: Wanted, c: bv8) {
    match w
    case EqualSign => c == EQUAL_SIGN
    case Separator(semicolon) => c == AMPERSAND || (semicolon && c == SEMICOLON)
  }

  /** The first match from a position on, or the end. */
  function Next(w: Wanted, s: Text, pos: nat): (at: nat)
    requires pos <= |s|
    ensures pos <= at <= |s|
    decreases |s| - pos
  {
    if pos == |s| || Matches(w, s[pos]) then pos else Next(w, s, pos + 1)
  }

  lemma {:induction false} NextIs(w: Wanted, s: Text, pos: nat, at: nat)
    requires pos <= at <= |s|
    ensures Next(w, s, pos) == at <==>
            (at < |s| ==> Matches(w, s[at])) && forall i :: pos <= i < at ==> !Matches(w, s[i])
    decreases |s| - pos
  {
    if pos < |s| && !Matches(w, s[pos]) && pos < at {
      NextIs(w, s, pos + 1, at);
    }
  }

  /** What was done to the text before does not matter to the search. */
  lemma {:induction false} NextSame(w: Wanted, s: Text, t: Text, pos: nat)
    requires pos <= |s| == |t| && forall i :: pos <= i < |s| ==> s[i] == t[i]
    ensures Next(w, s, pos) == Next(w, t, pos)
    decreases |s| - pos
  {
    if pos < |s| {
      NextSame(w, s, t, pos + 1);
    }
  }

  // ---------------------------------------------------------------- splitting first, unescaping after

  /** The raw pairs, and the position from which on there is no equal sign, if parsing ends there. */
  datatype Slices = Slices(pairs: seq<(Text, Text)>, missing: Option<nat>)

  function SliceFrom(semicolon: bool, query: Text, pos: nat): Slices
    decreases |query| - pos
  {
    if pos >= |query| then Slices([], None)
    else
      var eq := Next(EqualSign, query, pos);
      if eq == |query| then Slices([], Some(pos))
      else
        var end := Next(Separator(semicolon), query, eq + 1);
        var rest := SliceFrom(semicolon, query, end + 1);
        Slices([(query[pos..eq], query[eq + 1..end])] + rest.pairs, rest.missing)
  }

  function UnescapePair(ordinary: bv8 -> bool, pair: (Text, Text)): Result<(Text, Text), QueryFailure> {
    match Unescape(ordinary, pair.0)
    case Err(e) => Err(NotUnescaped(e))
    case Ok(name) =>
      match Unescape(ordinary, pair.1)
      case Err(e) => Err(NotUnescaped(e))
      case Ok(value) => Ok((name, value))
  }

  type Parsed = Result<seq<(Text, Text)>, QueryFailure>

  function BehindPairs(done: seq<(Text, Text)>, more: Parsed): Parsed {
    match more
    case Ok(pairs) => Ok(done + pairs)
    case Err(e) => Err(e)
  }

  function UnescapePairs(ordinary: bv8 -> bool, slices: Slices): Parsed
    decreases |slices.pairs|
  {
    if slices.pairs == [] then
      if slices.missing.Some? then Err(NoEqualSign(slices.missing.value)) else Ok([])
    else
      match UnescapePair(ordinary, slices.pairs[0])
      case Err(e) => Err(e)
      case Ok(pair) => BehindPairs([pair], UnescapePairs(ordinary, Slices(slices.pairs[1..], slices.missing)))
  }

  /** The query is split as it came, and every slice is unescaped on its own. */
  function Parse(traits: Traits, query: Text): Result<Params<Text>, QueryFailure> {
    if query != [] && EQUAL_SIGN !in query then
      match Unescape(traits.ordinary, query)
      case Err(e) => Err(NotUnescaped(e))
      case Ok(tag) => Ok(Tag(tag))
    else
      match UnescapePairs(traits.ordinary, SliceFrom(traits.semicolon, query, 0))
      case Err(e) => Err(e)
      case Ok(pairs) => Ok(Pairs(pairs))
  }

  // ---------------------------------------------------------------- views of the buffer

  /** A `string_view`. */
  datatype View = View(start: nat, size: nat)

  predicate Inside(v: View, from: nat, to: nat) { from <= v.start && v.start + v.size <= to }

  function ReadView(buffer: Text, v: View): Text
    requires Inside(v, 0, |buffer|)
  {
    buffer[v.start..v.start + v.size]
  }

  /** Names and values alternate, each behind the one before, all before a limit. */
  predicate Laid(views: seq<(View, View)>, limit: nat)
    decreases |views|
  {
    views == [] ||
    var last := views[|views| - 1];
    && Inside(last.0, 0, last.1.start) && Inside(last.1, last.1.start, limit)
    && Laid(views[..|views| - 1], last.0.start)
  }

  function ReadPairs(buffer: Text, views: seq<(View, View)>): (pairs: seq<(Text, Text)>)
    requires Laid(views, |buffer|)
    decreases |views|
  {
    if views == [] then []
    else
      var last := views[|views| - 1];
      LaidRelax(views[..|views| - 1], last.0.start, |buffer|);
      ReadPairs(buffer, views[..|views| - 1]) + [(ReadView(buffer, last.0), ReadView(buffer, last.1))]
  }

  lemma LaidRelax(views: seq<(View, View)>, limit: nat, more: nat)
    requires Laid(views, limit) && limit <= more
    ensures Laid(views, more)
  {
  }

  /** Texts before a limit are not affected by what happens behind it. */
  lemma {:induction false} ReadSame(before: Text, after: Text, views: seq<(View, View)>, limit: nat)
    requires Laid(views, limit) && limit <= |before| == |after|
    requires forall i :: 0 <= i < limit ==> before[i] == after[i]
    ensures Laid(views, |before|) && ReadPairs(before, views) == ReadPairs(after, views)
    decreases |views|
  {
    LaidRelax(views, limit, |before|);
    if views != [] {
      var last := views[|views| - 1];
      ReadSame(before, after, views[..|views| - 1], last.0.start);
      assert ReadView(before, last.0) == ReadView(after, last.0);
      assert ReadView(before, last.1) == ReadView(after, last.1);
    }
  }

  predicate Apart(a: View, b: View) { a.start + a.size <= b.start || b.start + b.size <= a.start }

  /** Laid out views do not overlap. */
  lemma {:induction false} LaidApart(views: seq<(View, View)>, limit: nat, i: nat, j: nat)
    requires Laid(views, limit) && i <= j < |views|
    ensures Apart(views[i].0, views[i].1) && Apart(views[j].0, views[j].1)
    ensures i < j ==> Apart(views[i].0, views[j].0) && Apart(views[i].0, views[j].1)
    ensures i < j ==> Apart(views[i].1, views[j].0) && Apart(views[i].1, views[j].1)
    ensures Inside(views[i].0, 0, limit) && Inside(views[i].1, 0, limit)
    decreases |views|
  {
    var n, last := |views| - 1, views[|views| - 1];
    if j < n {
      LaidApart(views[..n], last.0.start, i, j);
    } else if i < j {
      LaidApart(views[..n], last.0.start, i, i);
    }
  }

  // ---------------------------------------------------------------- parsing in place

  lemma BehindPairsBehind(a: seq<(Text, Text)>, b: seq<(Text, Text)>, more: Parsed)
    ensures BehindPairs(a, BehindPairs(b, more)) == BehindPairs(a + b, more) && BehindPairs([], more) == more
  {
    if more.Ok? {
      assert a + (b + more.value) == (a + b) + more.value;
      assert [] + more.value == more.value;
    }
  }

  /** What follows from a position on, if nothing was found before it. */
  function ParseFrom(traits: Traits, query: Text, pos: nat): Parsed {
    UnescapePairs(traits.ordinary, SliceFrom(traits.semicolon, query, pos))
  }

  /** One pair more. */
  lemma ParseStep(traits: Traits, query: Text, pos: nat, done: seq<(Text, Text)>, eq: nat, end: nat, next: nat)
    requires pos <= eq < end <= |query| && eq == Next(EqualSign, query, pos)
    requires end == Next(Separator(traits.semicolon), query, eq + 1) && next == end + 1
    ensures BehindPairs(done, ParseFrom(traits, query, pos))
         == match UnescapePair(traits.ordinary, (query[pos..eq], query[eq + 1..end]))
            case Err(e) => Err(e)
            case Ok(pair) => BehindPairs(done + [pair], ParseFrom(traits, query, next))
  {
    var slices, rest := SliceFrom(traits.semicolon, query, pos), SliceFrom(traits.semicolon, query, next);
    assert slices.pairs[1..] == rest.pairs;
    assert rest == Slices(slices.pairs[1..], slices.missing);
    match UnescapePair(traits.ordinary, slices.pairs[0])
    case Err(e) =>
    case Ok(pair) => BehindPairsBehind(done, [pair], UnescapePairs(traits.ordinary, rest));
  }

  /** The name and the value of one pair are unescaped where they stand. */
  method UnescapePairInplace(ordinary: bv8 -> bool, a: array<bv8>, pos: nat, eq: nat, end: nat)
    returns (r: Result<(View, View), QueryFailure>)
    requires pos <= eq < end <= a.Length
    modifies a
    ensures forall i :: 0 <= i < a.Length && !(pos <= i < end) ==> a[i] == old(a[i])
    ensures match UnescapePair(ordinary, (old(a[pos..eq]), old(a[eq + 1..end])))
            case Err(e) => r == Err(e)
            case Ok(pair) =>
              && r.Ok? && r.value.0.start == pos && Inside(r.value.0, pos, eq)
              && r.value.1.start == eq + 1 && Inside(r.value.1, eq + 1, end)
              && pair == (ReadView(a[..], r.value.0), ReadView(a[..], r.value.1))
  {
    ghost var rawValue := a[eq + 1..end];
    var name := InplaceUnescape(ordinary, a, pos, eq - pos);
    if name.Err? {
      return Err(NotUnescaped(name.error));
    }
    assert a[eq + 1..end] == rawValue;
    ghost var nameText := a[pos..pos + name.value];
    var value := InplaceUnescape(ordinary, a, eq + 1, end - (eq + 1));
    if value.Err? {
      return Err(NotUnescaped(value.error));
    }
    assert a[pos..pos + name.value] == nameText;
    return Ok((View(pos, name.value), View(eq + 1, value.value)));
  }

  function ReadParams(buffer: Text, params: Params<View>): Params<Text>
    requires match params case Tag(v) => Inside(v, 0, |buffer|) case Pairs(views) => Laid(views, |buffer|)
  {
    match params
    case Tag(v) => Tag(ReadView(buffer, v))
    case Pairs(views) => Pairs(ReadPairs(buffer, views))
  }

  /** The views lie within the buffer, none upon another. */
  predicate InBuffer(params: Params<View>, size: nat) {
    match params
    case Tag(v) => Inside(v, 0, size)
    case Pairs(views) => Laid(views, size)
  }

  /** The buffer is untouched from a position on, and holds the texts found so far before it. */
  ghost predicate Underway(
      buffer: Text, query: Text, pos: nat, views: seq<(View, View)>, done: seq<(Text, Text)>)
  {
    && |buffer| == |query| && pos <= |query| + 1
    && (forall i :: pos <= i < |query| ==> buffer[i] == query[i])
    && Laid(views, if pos < |query| then pos else |query|) && Laid(views, |buffer|)
    && ReadPairs(buffer, views) == done
  }

  lemma AddViews(before: Text, after: Text, query: Text, pos: nat, end: nat, views: seq<(View, View)>,
                 done: seq<(Text, Text)>, pair: (View, View))
    requires Underway(before, query, pos, views, done) && |after| == |before| && pos < end <= |before|
    requires forall i :: 0 <= i < |before| && !(pos <= i < end) ==> after[i] == before[i]
    requires pair.0.start == pos && Inside(pair.0, pos, pair.1.start) && Inside(pair.1, pos, end)
    ensures Underway(after, query, end + 1, views + [pair], done + [(ReadView(after, pair.0), ReadView(after, pair.1))])
  {
    ReadSame(before, after, views, pos);
    var all := views + [pair];
    assert all[..|all| - 1] == views;
    LaidRelax(views, pos, end);
  }

  /** One turn of the loop, behind the search for the equal sign and up to the position after the separator. */
  method ParsePair(traits: Traits, buffer: array<bv8>, pos: nat, eq: nat,
                   ghost query: Text, ghost views: seq<(View, View)>, ghost done: seq<(Text, Text)>, ghost rest: Parsed)
    returns (r: Result<(View, View), QueryFailure>, after: nat, ghost more: seq<(Text, Text)>, ghost next: Parsed)
    requires Underway(buffer[..], query, pos, views, done) && rest == ParseFrom(traits, query, pos)
    requires pos <= eq < buffer.Length && eq == Next(EqualSign, query, pos)
    modifies buffer
    ensures pos < after <= buffer.Length + 1
    ensures next == ParseFrom(traits, query, after)
    ensures BehindPairs(done, rest)
         == match r
            case Err(e) => Err(e)
            case Ok(_) => BehindPairs(more, next)
    ensures r.Ok? ==> Underway(buffer[..], query, after, views + [r.value], more)
  {
    NextSame(Separator(traits.semicolon), buffer[..], query, eq + 1);
    var end := Next(Separator(traits.semicolon), buffer[..], eq + 1);
    after := end + 1;
    ParseStep(traits, query, pos, done, eq, end, after);
    assert buffer[pos..eq] == query[pos..eq] && buffer[eq + 1..end] == query[eq + 1..end];
    ghost var before := buffer[..];
    r := UnescapePairInplace(traits.ordinary, buffer, pos, eq, end);
    more, next := done, ParseFrom(traits, query, after);
    if r.Ok? {
      AddViews(before, buffer[..], query, pos, end, views, done, r.value);
      more := done + [(ReadView(buffer[..], r.value.0), ReadView(buffer[..], r.value.1))];
    }
  }

  /** The search for an equal sign in the part that is untouched. */
  method FindEqualSign(buffer: array<bv8>, pos: nat, ghost query: Text) returns (eq: nat)
    requires pos <= buffer.Length == |query| && forall i :: pos <= i < |query| ==> buffer[i] == query[i]
    ensures pos <= eq <= |query| && eq == Next(EqualSign, query, pos)
    ensures eq < |query| ==> EQUAL_SIGN in query
    ensures eq == |query| && pos == 0 ==> EQUAL_SIGN !in query
  {
    NextSame(EqualSign, buffer[..], query, pos);
    eq := Next(EqualSign, buffer[..], pos);
    NextIs(EqualSign, query, pos, eq);
  }

  /** The whole query is a tag. */
  method ParseTag(traits: Traits, buffer: array<bv8>) returns (r: Result<Params<View>, QueryFailure>)
    modifies buffer
    ensures match Unescape(traits.ordinary, old(buffer[..]))
            case Err(e) => r == Err(NotUnescaped(e))
            case Ok(tag) => r.Ok? && InBuffer(r.value, buffer.Length) && ReadParams(buffer[..], r.value) == Tag(tag)
  {
    assert buffer[0..buffer.Length] == buffer[..];
    var tag := InplaceUnescape(traits.ordinary, buffer, 0, buffer.Length);
    if tag.Err? {
      return Err(NotUnescaped(tag.error));
    }
    return Ok(Tag(View(0, tag.value)));
  }

  /**
    Unescaping in the buffer that is still searched gives what splitting first and unescaping copies gives:
    the same tag or pairs, or the same failure.
  */
  method TryParseQuery(traits: Traits, query: Text)
    returns (buffer: array<bv8>, r: Result<Params<View>, QueryFailure>)
    ensures match Parse(traits, query)
            case Err(e) => r == Err(e)
            case Ok(params) => r.Ok? && InBuffer(r.value, buffer.Length) && ReadParams(buffer[..], r.value) == params
  {
    buffer := new bv8[|query|](i requires 0 <= i < |query| => query[i]);
    assert buffer[..] == query;
    var views: seq<(View, View)> := [];
    ghost var done: seq<(Text, Text)> := [];
    ghost var total := ParseFrom(traits, query, 0);
    ghost var rest := total;
    BehindPairsBehind([], [], total);
    var pos, endPos := 0, |query|;
    while pos < endPos
      invariant pos == 0 ==> buffer[..] == query
      invariant pos > 0 ==> EQUAL_SIGN in query
      invariant Underway(buffer[..], query, pos, views, done)
      invariant total == BehindPairs(done, rest) && rest == ParseFrom(traits, query, pos)
    {
      var eq := FindEqualSign(buffer, pos, query);
      if eq == endPos {
        if pos != 0 {
          return buffer, Err(NoEqualSign(pos));
        }
        r := ParseTag(traits, buffer);
        return;
      }
      var pair;
      pair, pos, done, rest := ParsePair(traits, buffer, pos, eq, query, views, done, rest);
      if pair.Err? {
        return buffer, Err(pair.error);
      }
      views := views + [pair.value];
    }
    assert done + [] == done;
    return buffer, Ok(Pairs(views));
  }
}
