/** The request target and its parts (`http_request_header_t` of http_headers.hpp; section 3 of RFC 3986). */
module RequestTarget {
  import opened Wrappers

  const QUESTION := '?'
  const HASH := '#'

  /** `memchr_helper`: the first position of a character, or the length. */
  function Position(ch: char, s: string): (at: nat)
    ensures at <= |s|
  {
    if s == "" || s[0] == ch then 0 else 1 + Position(ch, s[1..])
  }

  lemma {:induction false} PositionIs(ch: char, s: string, at: nat)
    requires at <= |s|
    ensures Position(ch, s) == at <==> (at < |s| ==> s[at] == ch) && ch !in s[..at]
    decreases |s|
  {
    if s != "" && s[0] != ch && at > 0 {
      PositionIs(ch, s[1..], at - 1);
      assert s[..at] == [s[0]] + s[1..][..at - 1];
    } else if at > 0 {
      assert s[..at][0] == s[0];
    }
  }

  lemma PositionConcat(ch: char, a: string, b: string)
    ensures Position(ch, a + b) == if Position(ch, a) < |a| then Position(ch, a) else |a| + Position(ch, b)
  {
    var p, q := Position(ch, a), Position(ch, b);
    PositionIs(ch, a, p);
    PositionIs(ch, b, q);
    if p < |a| {
      assert (a + b)[..p] == a[..p];
      PositionIs(ch, a + b, p);
    } else {
      assert (a + b)[..|a| + q] == a + b[..q] && a[..p] == a;
      PositionIs(ch, a + b, |a| + q);
    }
  }

  // ---------------------------------------------------------------- the target

  datatype Target = Target(text: string, query: nat, fragment: nat)

  /** The target as `request_target` sets it. */
  function Whole(text: string): Target {
    var fragment := Position(HASH, text);
    Target(text, Position(QUESTION, text[..fragment]), fragment)
  }

  /** The target with a piece more, as `append_request_target` makes it. */
  function Append(t: Target, piece: string): Target {
    if |t.text| != t.fragment then t.(text := t.text + piece)
    else
      var inc := Position(HASH, piece);
      Target(t.text + piece,
             if |t.text| == t.query then t.query + Position(QUESTION, piece[..inc]) else t.query,
             t.fragment + inc)
  }

  function AppendAll(t: Target, pieces: seq<string>): Target
    decreases |pieces|
  {
    if pieces == [] then t else AppendAll(Append(t, pieces[0]), pieces[1..])
  }

  function Concat(pieces: seq<string>): string { if pieces == [] then "" else pieces[0] + Concat(pieces[1..]) }

  lemma AppendWhole(text: string, piece: string)
    ensures Append(Whole(text), piece) == Whole(text + piece)
  {
    var fragment, inc := Position(HASH, text), Position(HASH, piece);
    PositionConcat(HASH, text, piece);
    if |text| != fragment {
      assert (text + piece)[..fragment] == text[..fragment];
    } else {
      assert (text + piece)[..fragment + inc] == text + piece[..inc];
      assert text[..fragment] == text;
      PositionConcat(QUESTION, text, piece[..inc]);
    }
  }

  /** However a target is cut into pieces, appending them gives what setting it at once gives. */
  lemma {:induction false} PiecesMakeWhole(text: string, pieces: seq<string>)
    ensures AppendAll(Whole(text), pieces) == Whole(text + Concat(pieces))
    decreases |pieces|
  {
    if pieces == [] {
      assert text + "" == text;
    } else {
      AppendWhole(text, pieces[0]);
      PiecesMakeWhole(text + pieces[0], pieces[1..]);
      assert (text + pieces[0]) + Concat(pieces[1..]) == text + (pieces[0] + Concat(pieces[1..]));
    }
  }

  // ---------------------------------------------------------------- its parts

  /** Path, query and fragment. A query or a fragment that is there may be empty. */
  datatype Parts = Parts(path: string, query: Option<string>, fragment: Option<string>)

  /** The parts as the separators divide them. */
  function Split(text: string): Parts {
    var t := Whole(text);
    Parts(text[..t.query],
          if t.query < t.fragment then Some(text[t.query + 1..t.fragment]) else None,
          if t.fragment < |text| then Some(text[t.fragment + 1..]) else None)
  }

  function Led(ch: char, part: Option<string>): string { if part.None? then "" else [ch] + part.value }

  function Compose(parts: Parts): string { parts.path + Led(QUESTION, parts.query) + Led(HASH, parts.fragment) }

  predicate WellFormed(parts: Parts) {
    QUESTION !in parts.path && HASH !in parts.path && (parts.query.Some? ==> HASH !in parts.query.value)
  }

  lemma Divide(text: string, at: nat, ch: char)
    requires at <= |text| && (at < |text| ==> text[at] == ch)
    ensures text == text[..at] + Led(ch, if at < |text| then Some(text[at + 1..]) else None)
  {
  }

  /** The parts are well formed, and with their separators they make up the target. */
  lemma SplitComposes(text: string)
    ensures WellFormed(Split(text)) && Compose(Split(text)) == text
  {
    var t, parts := Whole(text), Split(text);
    var front := text[..t.fragment];
    PositionIs(HASH, text, t.fragment);
    PositionIs(QUESTION, front, t.query);
    Divide(text, t.fragment, HASH);
    FrontComposes(text, t.fragment, t.query);
  }

  lemma FrontComposes(text: string, fragment: nat, query: nat)
    requires query <= fragment <= |text| && (query < fragment ==> text[query] == QUESTION)
    ensures text[..query] + Led(QUESTION, if query < fragment then Some(text[query + 1..fragment]) else None)
         == text[..fragment]
    ensures text[..fragment][..query] == text[..query]
  {
  }

  /** A part led by a separator is found again behind a text without the separator. */
  lemma PositionLed(ch: char, before: string, part: Option<string>)
    requires ch !in before
    ensures var text := before + Led(ch, part);
            && Position(ch, text) == |before| && text[..|before|] == before && (|before| < |text| <==> part.Some?)
            && (part.Some? ==> text[|before| + 1..] == part.value)
  {
    var text := before + Led(ch, part);
    assert text[..|before|] == before;
    PositionIs(ch, text, |before|);
  }

  lemma WellFormedSplits(parts: Parts)
    requires WellFormed(parts)
    ensures Split(Compose(parts)) == parts
  {
    var front, text := parts.path + Led(QUESTION, parts.query), Compose(parts);
    PositionLed(QUESTION, parts.path, parts.query);
    PositionLed(HASH, front, parts.fragment);
    assert text[..|parts.path|] == front[..|parts.path|];
    if parts.query.Some? {
      assert text[|parts.path| + 1..|front|] == front[|parts.path| + 1..];
    }
  }

  /** Only well formed parts come back from the target they make up, and all of them do. */
  lemma ComposeSplits(parts: Parts)
    ensures Split(Compose(parts)) == parts <==> WellFormed(parts)
  {
    SplitComposes(Compose(parts));
    if WellFormed(parts) {
      WellFormedSplits(parts);
    }
  }

  // ---------------------------------------------------------------- the header

  class RequestHeader {
    var target: string
    var querySeparatorPos: nat
    var fragmentSeparatorPos: nat

    function Value(): Target
      reads this
    {
      Target(target, querySeparatorPos, fragmentSeparatorPos)
    }

    constructor ()
      ensures Value() == Whole("")
    {
      target, querySeparatorPos, fragmentSeparatorPos := "", 0, 0;
    }

    method SetRequestTarget(t: string)
      modifies this
      ensures Value() == Whole(t)
    {
      target := t;
      fragmentSeparatorPos := Position(HASH, target);
      querySeparatorPos := Position(QUESTION, target[..fragmentSeparatorPos]);
    }

    method AppendRequestTarget(piece: string)
      modifies this
      ensures Value() == Append(old(Value()), piece)
      ensures old(Value() == Whole(target)) ==> Value() == Whole(old(target) + piece)
    {
      AppendWhole(target, piece);
      if |target| == fragmentSeparatorPos {
        var inc := Position(HASH, piece);
        fragmentSeparatorPos := fragmentSeparatorPos + inc;
        if |target| == querySeparatorPos {
          querySeparatorPos := querySeparatorPos + Position(QUESTION, piece[..inc]);
        }
      }
      target := target + piece;
    }

    method Path() returns (path: string)
      requires Value() == Whole(target)
      ensures path == Split(target).path
    {
      path := target[..querySeparatorPos];
    }

    method Query() returns (query: string)
      requires Value() == Whole(target)
      ensures query == match Split(target).query case Some(q) => q case None => ""
    {
      query := if fragmentSeparatorPos == querySeparatorPos then "" else target[querySeparatorPos + 1..fragmentSeparatorPos];
    }

    method Fragment() returns (fragment: string)
      requires Value() == Whole(target)
      ensures fragment == match Split(target).fragment case Some(f) => f case None => ""
    {
      fragment := if |target| == fragmentSeparatorPos then "" else target[fragmentSeparatorPos + 1..];
    }
  }
}
