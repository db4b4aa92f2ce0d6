/** Splitting a multipart body finds exactly the parts between its delimiters. */
module MultipartTheorems {
  import opened Wrappers
  import opened Strings
  import opened Multipart

  // ---------------------------------------------------------------- what a multipart body is

  /** A part and the delimiter behind it. */
  function Ended(part: string, d: string, next: string): string { part + CRLF + d + next }

  /** What follows a delimiter: a part, the next delimiter, and so on up to the closing one and an epilogue. */
  function Tail(parts: seq<string>, d: string, epilogue: string): string
    requires parts != []
    decreases |parts|, 1
  {
    CRLF + Ended(parts[0], d, Next(parts, d, epilogue))
  }

  function Next(parts: seq<string>, d: string, epilogue: string): string
    requires parts != []
    decreases |parts|, 0
  {
    if |parts| == 1 then LAST + epilogue else Tail(parts[1..], d, epilogue)
  }

  function Join(preamble: string, parts: seq<string>, d: string, epilogue: string): string
    requires parts != []
  {
    preamble + d + Tail(parts, d, epilogue)
  }

  predicate EndsLine(s: string) { s == "" || (|s| >= 2 && s[|s| - 2..] == CRLF) }

  /** Every part ends where the delimiter first occurs behind its beginning. */
  ghost predicate Delimited(parts: seq<string>, d: string, epilogue: string)
    requires parts != []
  {
    && Find(Ended(parts[0], d, Next(parts, d, epilogue)), d) == Some(|parts[0]| + 2)
    && (|parts| > 1 ==> Delimited(parts[1..], d, epilogue))
  }

  /** The body is a preamble, delimited parts, and an epilogue. */
  ghost predicate IsMultipart(body: string, d: string, preamble: string, parts: seq<string>, epilogue: string) {
    && parts != [] && body == Join(preamble, parts, d, epilogue)
    && EndsLine(preamble) && Find(body, d) == Some(|preamble|)
    && Delimited(parts, d, epilogue)
  }

  // ---------------------------------------------------------------- splitting finds it

  lemma NotLast(s: string)
    ensures !StartsWith(CRLF + s, LAST)
  {
    assert |CRLF + s| >= 4 ==> (CRLF + s)[..4][0] == '\r';
  }

  lemma NextLast(parts: seq<string>, d: string, epilogue: string)
    requires parts != []
    ensures StartsWith(Next(parts, d, epilogue), LAST) <==> |parts| == 1
  {
    if |parts| == 1 {
      assert (LAST + epilogue)[..4] == LAST;
    } else {
      NotLast(Ended(parts[1], d, Next(parts[1..], d, epilogue)));
    }
  }

  /** One turn of the splitting. */
  lemma TakePart(part: string, d: string, next: string)
    requires Find(Ended(part, d, next), d) == Some(|part| + 2)
    ensures PartsFrom(CRLF + Ended(part, d, next), d)
         == if StartsWith(next, LAST) then Some([part]) else Behind([part], PartsFrom(next, d))
  {
    var rest, text, p := CRLF + Ended(part, d, next), Ended(part, d, next), |part| + 2;
    assert rest[..2] == CRLF && rest[2..] == text;
    assert text[p - 2..p] == CRLF && text[..p - 2] == part && text[p + |d|..] == next;
  }

  lemma {:induction false} DelimitedFound(parts: seq<string>, d: string, epilogue: string)
    requires parts != [] && Delimited(parts, d, epilogue)
    ensures PartsFrom(Tail(parts, d, epilogue), d) == Some(parts)
    decreases |parts|
  {
    TakePart(parts[0], d, Next(parts, d, epilogue));
    NextLast(parts, d, epilogue);
    if |parts| == 1 {
      assert parts == [parts[0]];
    } else {
      assert parts == [parts[0]] + parts[1..];
      DelimitedFound(parts[1..], d, epilogue);
    }
  }

  /** What a turn of the splitting found. */
  lemma PartTaken(rest: string, d: string) returns (part: string, next: string)
    requires PartsFrom(rest, d).Some?
    ensures rest == CRLF + Ended(part, d, next) && Find(Ended(part, d, next), d) == Some(|part| + 2)
    ensures |next| < |rest|
    ensures PartsFrom(rest, d)
         == if StartsWith(next, LAST) then Some([part]) else Behind([part], PartsFrom(next, d))
  {
    var text := rest[2..];
    var p := Find(text, d).value;
    FindIs(text, d, p);
    part, next := text[..p - 2], text[p + |d|..];
    Reassembled(text, d, p);
    assert rest == CRLF + text;
  }

  lemma Reassembled(text: string, d: string, p: nat)
    requires p >= 2 && OccursAt(text, d, p) && text[p - 2..p] == CRLF
    ensures text == Ended(text[..p - 2], d, text[p + |d|..])
  {
  }

  lemma {:induction false} FoundDelimited(rest: string, d: string) returns (epilogue: string)
    requires PartsFrom(rest, d).Some?
    ensures var parts := PartsFrom(rest, d).value;
            rest == Tail(parts, d, epilogue) && Delimited(parts, d, epilogue)
    decreases |rest|
  {
    var part, next := PartTaken(rest, d);
    if StartsWith(next, LAST) {
      epilogue := next[4..];
      assert next == LAST + epilogue;
    } else {
      epilogue := FoundDelimited(next, d);
      var parts := PartsFrom(next, d).value;
      assert ([part] + parts)[1..] == parts;
    }
  }

  /** A split gives some parts if and only if they are the delimited parts of the body. */
  lemma SplitIff(body: string, d: string, parts: seq<string>)
    requires parts != []
    ensures Split(body, d) == parts <==> exists preamble, epilogue :: IsMultipart(body, d, preamble, parts, epilogue)
  {
    if Split(body, d) == parts {
      var p := Find(body, d).value;
      FindIs(body, d, p);
      var preamble, rest := body[..p], body[p + |d|..];
      assert body == preamble + d + rest;
      var epilogue := FoundDelimited(rest, d);
      assert p >= 2 ==> preamble[p - 2..] == body[p - 2..p];
      assert IsMultipart(body, d, preamble, parts, epilogue);
    }
    forall preamble, epilogue | IsMultipart(body, d, preamble, parts, epilogue)
      ensures Split(body, d) == parts
    {
      JoinSplits(body, d, preamble, parts, epilogue);
    }
  }

  lemma JoinSplits(body: string, d: string, preamble: string, parts: seq<string>, epilogue: string)
    requires IsMultipart(body, d, preamble, parts, epilogue)
    ensures Split(body, d) == parts
  {
    var p, rest := |preamble|, Tail(parts, d, epilogue);
    assert body[p + |d|..] == rest;
    assert p >= 2 ==> body[p - 2..p] == preamble[p - 2..];
    NotLast(Ended(parts[0], d, Next(parts, d, epilogue)));
    DelimitedFound(parts, d, epilogue);
  }

  // ---------------------------------------------------------------- legal boundaries

  /** A delimiter without line ends is first found behind a line end if and only if it is not found before. */
  lemma FirstBehindLine(text: string, d: string, after: string)
    requires NoLineEnd(d) && d != ""
    ensures Find(Ended(text, d, after), d) == Some(|text| + 2) <==> !Contains(text, d)
  {
    var s, at := Ended(text, d, after), |text| + 2;
    assert s[at..at + |d|] == d;
    forall i: nat | i < at
      ensures OccursAt(s, d, i) <==> OccursAt(text, d, i)
    {
      if i + |d| <= |text| {
        assert s[i..i + |d|] == text[i..i + |d|];
      } else {
        var k := if i <= |text| then |text| else i;
        assert s[i..i + |d|][k - i] == s[k] != d[k - i];
      }
    }
    FindIs(s, d, at);
    if Contains(text, d) {
      var i: nat :| i <= |text| && OccursAt(text, d, i);
      assert OccursAt(s, d, i);
    }
  }

  predicate AllFree(parts: seq<string>, d: string) {
    forall i :: 0 <= i < |parts| ==> !Contains(parts[i], d)
  }

  lemma AllFreeFirst(parts: seq<string>, d: string)
    requires parts != []
    ensures AllFree(parts, d) <==> !Contains(parts[0], d) && AllFree(parts[1..], d)
  {
    assert parts == [parts[0]] + parts[1..];
  }

  lemma {:induction false} DelimitedIffFree(parts: seq<string>, d: string, epilogue: string)
    requires NoLineEnd(d) && d != "" && parts != []
    ensures Delimited(parts, d, epilogue) <==> AllFree(parts, d)
    decreases |parts|
  {
    FirstBehindLine(parts[0], d, Next(parts, d, epilogue));
    AllFreeFirst(parts, d);
    if |parts| > 1 {
      DelimitedIffFree(parts[1..], d, epilogue);
    }
  }

  /**
    For a legal boundary: parts that do not contain the delimiter, joined behind any preamble line that does not
    and in front of any epilogue, are what splitting gives back.
  */
  lemma MultipartRoundTrip(boundary: string, line: Option<string>, parts: seq<string>, epilogue: string)
    requires IsLegalBoundary(boundary) && parts != [] && AllFree(parts, Delimiter(boundary))
    requires line.Some? ==> !Contains(line.value, Delimiter(boundary))
    ensures var preamble := if line.Some? then line.value + CRLF else "";
            var d := Delimiter(boundary);
            Split(Join(preamble, parts, d, epilogue), d) == parts
  {
    var preamble, d := if line.Some? then line.value + CRLF else "", Delimiter(boundary);
    var body, rest := Join(preamble, parts, d, epilogue), Tail(parts, d, epilogue);
    LegalHasNoLineEnd(boundary);
    DelimitedIffFree(parts, d, epilogue);
    if line.Some? {
      FirstBehindLine(line.value, d, rest);
      assert preamble[|preamble| - 2..] == CRLF;
    } else {
      assert body[0..|d|] == d;
      FindIs(body, d, 0);
    }
    JoinSplits(body, d, preamble, parts, epilogue);
  }

  /** Conversely, what splitting gives are parts that do not contain the delimiter, delimited as they should be. */
  lemma MultipartSound(body: string, boundary: string)
    requires IsLegalBoundary(boundary) && Split(body, Delimiter(boundary)) != []
    ensures var d := Delimiter(boundary); var parts := Split(body, d);
            && AllFree(parts, d)
            && exists preamble, epilogue :: EndsLine(preamble) && body == Join(preamble, parts, d, epilogue)
  {
    var d := Delimiter(boundary);
    var parts := Split(body, d);
    SplitIff(body, d, parts);
    var preamble, epilogue :| IsMultipart(body, d, preamble, parts, epilogue);
    LegalHasNoLineEnd(boundary);
    DelimitedIffFree(parts, d, epilogue);
  }
}
