/** Splitting of multipart bodies (multipart_body.hpp; section 5.1.1 of RFC 2046). */
module Multipart {
  import opened Wrappers
  import opened Strings

  const LAST := "--\r\n"

  // ---------------------------------------------------------------- boundaries

  predicate IsBCharNoSpace(ch: char) {
    || '0' <= ch <= '9' || 'A' <= ch <= 'Z' || 'a' <= ch <= 'z'
    || ch in {'\'', '(', ')', '+', '_', ',', '-', '.', '/', ':', '=', '?'}
  }

  predicate IsBChar(ch: char) { IsBCharNoSpace(ch) || ch == ' ' }

  /** boundary := 0*69<bchars> bcharsnospace */
  predicate IsLegalBoundary(value: string) {
    && 1 <= |value| <= 70
    && (forall i :: 0 <= i < |value| - 1 ==> IsBChar(value[i]))
    && IsBCharNoSpace(value[|value| - 1])
  }

  method CheckBoundaryValue(value: string) returns (legal: bool)
    ensures legal <==> IsLegalBoundary(value)
  {
    if |value| >= 1 && |value| <= 70 {
      var lastIndex := |value| - 1;
      var i := 0;
      while i != lastIndex
        invariant 0 <= i <= lastIndex
        invariant forall j :: 0 <= j < i ==> IsBChar(value[j])
      {
        if !IsBChar(value[i]) {
          return false;
        }
        i := i + 1;
      }
      return IsBCharNoSpace(value[lastIndex]);
    }
    return false;
  }

  /** The delimiter made from the value of the boundary parameter. */
  function Delimiter(boundary: string): string { "--" + boundary }

  predicate NoLineEnd(s: string) { forall i :: 0 <= i < |s| ==> s[i] != '\r' && s[i] != '\n' }

  lemma LegalHasNoLineEnd(boundary: string)
    requires IsLegalBoundary(boundary)
    ensures NoLineEnd(Delimiter(boundary)) && Delimiter(boundary) != ""
  {
    var d := Delimiter(boundary);
    forall i | 0 <= i < |d|
      ensures d[i] != '\r' && d[i] != '\n'
    {
      if i >= 2 {
        assert d[i] == boundary[i - 2];
        assert i - 2 < |boundary| - 1 || i - 2 == |boundary| - 1;
      }
    }
  }

  // ---------------------------------------------------------------- splitting

  /** The parts that follow a delimiter, up to the closing one. */
  function PartsFrom(rest: string, d: string): (r: Option<seq<string>>)
    ensures r.Some? ==> r.value != []
    decreases |rest|
  {
    if !StartsWith(rest, CRLF) then None
    else
      var text := rest[2..];
      match Find(text, d)
      case None => None
      case Some(p) =>
        if p < 2 || text[p - 2..p] != CRLF then None
        else
          var part, next := text[..p - 2], text[p + |d|..];
          if StartsWith(next, LAST) then Some([part]) else Behind([part], PartsFrom(next, d))
  }

  /** More parts behind those there are, if there are any. */
  function Behind<T>(parts: seq<T>, more: Option<seq<T>>): Option<seq<T>> {
    match more
    case None => None
    case Some(ps) => Some(parts + ps)
  }

  lemma BehindBehind<T>(a: seq<T>, b: seq<T>, more: Option<seq<T>>)
    ensures Behind(a, Behind(b, more)) == Behind(a + b, more)
    ensures Behind([], more) == more
  {
    if more.Some? {
      assert a + (b + more.value) == (a + b) + more.value;
      assert [] + more.value == more.value;
    }
  }

  function Split(body: string, d: string): seq<string> {
    match Find(body, d)
    case None => []
    case Some(p) =>
      if p != 0 && (p < 2 || body[p - 2..p] != CRLF) then []
      else
        var rest := body[p + |d|..];
        if StartsWith(rest, LAST) then []
        else
          match PartsFrom(rest, d)
          case None => []
          case Some(parts) => parts
  }

  /** `split_multipart_body`: the parts are only returned when the closing delimiter is found. */
  method SplitMultipartBody(body: string, d: string) returns (result: seq<string>)
    ensures result == Split(body, d)
  {
    result := [];
    var pos := Find(body, d);
    if pos.None? {
      return;
    }
    if pos.value != 0 && (pos.value < 2 || body[pos.value - 2..pos.value] != CRLF) {
      return;
    }
    var remaining := body[pos.value + |d|..];
    if StartsWith(remaining, LAST) {
      return;
    }
    var parts := CollectParts(remaining, d);
    if parts.Some? {
      result := parts.value;
    }
  }

  /** The loop over the delimiters. */
  method CollectParts(rest: string, d: string) returns (result: Option<seq<string>>)
    ensures result == PartsFrom(rest, d)
  {
    var remaining := rest;
    var collected: seq<string> := [];
    BehindBehind([], [], PartsFrom(rest, d));
    while StartsWith(remaining, CRLF)
      invariant PartsFrom(rest, d) == Behind(collected, PartsFrom(remaining, d))
      decreases |remaining|
    {
      var taken := TakeNext(remaining, d);
      if taken.None? {
        return None;
      }
      BehindBehind(collected, [taken.value.0], PartsFrom(taken.value.1, d));
      remaining := taken.value.1;
      collected := collected + [taken.value.0];
      if StartsWith(remaining, LAST) {
        return Some(collected);
      }
    }
    return None;
  }

  /** The part behind a delimiter, if it ends with a line end and a delimiter, and what follows that. */
  method TakeNext(rest: string, d: string) returns (taken: Option<(string, string)>)
    requires StartsWith(rest, CRLF)
    ensures PartsFrom(rest, d)
         == match taken
            case None => None
            case Some(t) => if StartsWith(t.1, LAST) then Some([t.0]) else Behind([t.0], PartsFrom(t.1, d))
    ensures taken.Some? ==> |taken.value.1| < |rest|
  {
    var text := rest[2..];
    var pos := Find(text, d);
    if pos.None? {
      return None;
    }
    if pos.value < 2 || text[pos.value - 2..pos.value] != CRLF {
      return None;
    }
    return Some((text[..pos.value - 2], text[pos.value + |d|..]));
  }
}
