/**
  A reader of response headers, after section 3 of RFC 7230: a status line and fields, one a line, up to an empty
  line.  It is the partner of the text that the server creates.
*/
module HeaderReading {
  import opened Wrappers
  import opened Strings
  import opened Digits
  import opened Peg
  import opened HeaderString

  datatype Cut = Cut(before: string, after: string)

  datatype FieldsRead = FieldsRead(fields: seq<Field>, rest: string)

  datatype Reading = Reading(major: nat, minor: nat, status: nat, reason: string, fields: seq<Field>, body: string)

  // ---------------------------------------------------------------- the reader

  /** A text in front of and behind the first separator. */
  function CutAt(s: string, what: string): (r: Option<Cut>)
    ensures r.Some? ==> r.value.before + what + r.value.after == s
  {
    match Find(s, what)
    case None => None
    case Some(at) =>
      FindFromSpec(s, what, 0);
      assert s == s[..at] + s[at..at + |what|] + s[at + |what|..];
      Some(Cut(s[..at], s[at + |what|..]))
  }

  function ReadField(line: string): Option<Field> {
    match CutAt(line, ": ")
    case None => None
    case Some(c) => Some(Field(c.before, c.after))
  }

  function ReadFields(text: string): Option<FieldsRead>
    decreases |text|
  {
    match CutAt(text, CRLF)
    case None => None
    case Some(c) =>
      if c.before == "" then Some(FieldsRead([], c.after))
      else
        match ReadField(c.before)
        case None => None
        case Some(f) =>
          match ReadFields(c.after)
          case None => None
          case Some(more) => Some(FieldsRead([f] + more.fields, more.rest))
  }

  /** The value of a decimal digit, and ten for any other character. */
  function ValueOf(ch: char): nat {
    match DecimalDigit(ch)
    case None => 10
    case Some(v) => v
  }

  function ReadStatus(line: string, fields: FieldsRead): Option<Reading> {
    if |line| < 13 || line[..5] != "HTTP/" || line[6] != '.' || line[8] != ' ' || line[12] != ' ' then None
    else
      var major, minor := ValueOf(line[5]), ValueOf(line[7]);
      var a, b, c := ValueOf(line[9]), ValueOf(line[10]), ValueOf(line[11]);
      if major > 9 || minor > 9 || a > 9 || b > 9 || c > 9 then None
      else Some(Reading(major, minor, 100 * a + 10 * b + c, line[13..], fields.fields, fields.rest))
  }

  function ReadHeader(text: string): Option<Reading> {
    match CutAt(text, CRLF)
    case None => None
    case Some(c) =>
      match ReadFields(c.after)
      case None => None
      case Some(fields) => ReadStatus(c.before, fields)
  }

  // ---------------------------------------------------------------- what is to be read

  /** Neither part of the field has a line end, nor its name a separator. */
  predicate Plain(f: Field) {
    !Contains(f.name, CRLF) && !Contains(f.value, CRLF) && !Contains(f.name, ": ")
  }

  /** The options of section 6.1 of RFC 7230. */
  function ConnectionValue(c: ConnectionKind): string {
    match c
    case KeepAlive => "keep-alive"
    case CloseConnection => "close"
    case Upgrade => "Upgrade"
  }

  /** The fields of the server stand in front of those of the user. */
  function AllFields(h: Header, addContentLength: bool): seq<Field> {
    var length := if addContentLength then [Field("Content-Length", Text(Decimal(h.contentLength)))] else [];
    [Field("Connection", ConnectionValue(h.connection))] + length + h.fields
  }

  function Seen(h: Header, addContentLength: bool, body: string): Reading {
    Reading(h.major, h.minor, h.status, h.reason, AllFields(h, addContentLength), body)
  }

  // ---------------------------------------------------------------- separators

  /** A separator that starts in front of another one is part of the text there. */
  lemma OccursBefore(a: string, what: string, b: string, i: nat)
    requires |what| == 2 && what[0] != what[1] && i < |a|
    ensures OccursAt(a + what + b, what, i) <==> OccursAt(a, what, i)
  {
    var s := a + what + b;
    if i + 2 <= |a| {
      assert s[i..i + 2] == a[i..i + 2];
    } else {
      assert s[i..i + 2][1] == what[0];
    }
  }

  /** A text is cut at a separator if and only if none occurs in front of it. */
  lemma CutIff(a: string, what: string, b: string)
    requires |what| == 2 && what[0] != what[1]
    ensures CutAt(a + what + b, what).Some?
    ensures CutAt(a + what + b, what) == Some(Cut(a, b)) <==> !Contains(a, what)
    ensures CutAt(a + what + b, what).value.before == a ==> CutAt(a + what + b, what) == Some(Cut(a, b))
    ensures |CutAt(a + what + b, what).value.before| <= |a|
  {
    var s := a + what + b;
    assert s[|a|..|a| + 2] == what && s[..|a|] == a && s[|a| + 2..] == b;
    assert OccursAt(s, what, |a|);
    FindFromSpec(s, what, 0);
    forall i: nat | i < |a|
      ensures OccursAt(s, what, i) <==> OccursAt(a, what, i)
    {
      OccursBefore(a, what, b, i);
    }
  }

  lemma ContainsParts(f: Field)
    ensures Contains(f.name + ": " + f.value, CRLF) <==> Contains(f.name, CRLF) || Contains(f.value, CRLF)
  {
    var name, value := f.name, f.value;
    var s, n := name + ": " + value, |name| + 2;
    forall i: nat | i + 2 <= |s|
      ensures OccursAt(s, CRLF, i) <==> OccursAt(name, CRLF, i) || (i >= n && OccursAt(value, CRLF, i - n))
    {
      OccursParts(name, value, i);
    }
    if Contains(name, CRLF) {
      var at: nat :| at <= |name| && OccursAt(name, CRLF, at);
      assert OccursAt(s, CRLF, at);
    }
    if Contains(value, CRLF) {
      var at: nat :| at <= |value| && OccursAt(value, CRLF, at);
      assert OccursAt(s, CRLF, at + n);
    }
  }

  lemma OccursParts(name: string, value: string, i: nat)
    requires i + 2 <= |name| + 2 + |value|
    ensures var n := |name| + 2;
            OccursAt(name + ": " + value, CRLF, i)
            <==> OccursAt(name, CRLF, i) || (i >= n && OccursAt(value, CRLF, i - n))
  {
    var s, n := name + ": " + value, |name| + 2;
    var pair := s[i..i + 2];
    assert pair[0] == s[i] && pair[1] == s[i + 1];
    if i + 2 <= |name| {
      assert pair == name[i..i + 2];
    } else if i >= n {
      assert pair == value[i - n..i - n + 2];
    }
  }

  // ---------------------------------------------------------------- fields

  /** A line gives its field back if and only if the name has no separator. */
  lemma FieldIff(f: Field)
    ensures ReadField(f.name + ": " + f.value) == Some(f) <==> !Contains(f.name, ": ")
  {
    CutIff(f.name, ": ", f.value);
  }

  lemma FieldLonger(line: string)
    ensures var r := ReadField(line); r.Some? ==> |r.value.name| + 2 + |r.value.value| == |line|
  {
  }

  lemma {:induction false} FieldLinesFront(f: Field, fields: seq<Field>)
    ensures FieldLines([f] + fields) == f.name + ": " + f.value + CRLF + FieldLines(fields)
    decreases |fields|
  {
    var all, n := [f] + fields, |fields|;
    if n == 0 {
      assert all[..0] == [] && all[0] == f;
    } else {
      FieldLinesFront(f, fields[..n - 1]);
      assert all[..n] == [f] + fields[..n - 1] && all[n] == fields[n - 1];
    }
  }

  lemma FrontText(f: Field, more: seq<Field>, rest: string)
    ensures FieldLines([f] + more) + CRLF + rest == f.name + ": " + f.value + CRLF + (FieldLines(more) + CRLF + rest)
  {
    FieldLinesFront(f, more);
    Regroup(f.name + ": " + f.value + CRLF, FieldLines(more), CRLF, rest);
  }

  lemma Regroup(a: string, b: string, c: string, d: string)
    ensures a + b + c + d == a + (b + c + d)
  {
  }

  predicate AllPlain(fields: seq<Field>) {
    forall i :: 0 <= i < |fields| ==> Plain(fields[i])
  }

  lemma FrontPlain(f: Field, more: seq<Field>)
    ensures AllPlain([f] + more) <==> Plain(f) && AllPlain(more)
  {
    var all := [f] + more;
    assert all[0] == f;
    assert forall i :: 0 <= i < |more| ==> more[i] == all[i + 1];
  }

  /** The fields come back if and only if all are plain. */
  lemma {:induction false} FieldsIff(fields: seq<Field>, rest: string)
    ensures ReadFields(FieldLines(fields) + CRLF + rest) == Some(FieldsRead(fields, rest))
       <==> AllPlain(fields)
    decreases |fields|
  {
    if fields == [] {
      CutIff("", CRLF, rest);
    } else {
      var f, more := fields[0], fields[1..];
      FieldsIff(more, rest);
      FirstFieldIff(f, FieldLines(more) + CRLF + rest, more, rest);
      FrontText(f, more, rest);
      FrontPlain(f, more);
      assert [f] + more == fields;
    }
  }

  lemma FirstFieldIff(f: Field, tail: string, more: seq<Field>, rest: string)
    ensures ReadFields(f.name + ": " + f.value + CRLF + tail) == Some(FieldsRead([f] + more, rest))
       <==> Plain(f) && ReadFields(tail) == Some(FieldsRead(more, rest))
  {
    var line := f.name + ": " + f.value;
    var text := line + CRLF + tail;
    CutIff(line, CRLF, tail);
    ContainsParts(f);
    FieldIff(f);
    var c := CutAt(text, CRLF).value;
    FieldLonger(c.before);
    assert forall m: seq<Field> :: ([f] + m)[1..] == m;
    if ReadFields(text) == Some(FieldsRead([f] + more, rest)) {
      var got := ReadField(c.before).value;
      assert ([f] + more)[0] == f;
    }
  }

  // ---------------------------------------------------------------- whole headers

  lemma ServerFieldsPlain(c: ConnectionKind, n: nat)
    ensures Plain(Field("Connection", ConnectionValue(c))) && Plain(Field("Content-Length", Text(Decimal(n))))
  {
    NoPair("Connection", CRLF);
    NoPair("Connection", ": ");
    NoPair("Content-Length", CRLF);
    NoPair("Content-Length", ": ");
    NoPair(ConnectionValue(c), CRLF);
    NoPair(Text(Decimal(n)), CRLF);
  }

  /** A separator whose first character is missing does not occur. */
  lemma NoPair(s: string, what: string)
    requires |what| == 2 && forall i :: 0 <= i < |s| ==> s[i] != what[0]
    ensures !Contains(s, what)
  {
    forall i: nat
      ensures !OccursAt(s, what, i)
    {
      if i + 2 <= |s| {
        assert s[i..i + 2][0] == s[i];
      }
    }
  }

  lemma AllFieldsPlain(h: Header, addContentLength: bool)
    ensures AllPlain(AllFields(h, addContentLength)) <==> AllPlain(h.fields)
  {
    ServerFieldsPlain(h.connection, h.contentLength);
    var connection := Field("Connection", ConnectionValue(h.connection));
    var length := Field("Content-Length", Text(Decimal(h.contentLength)));
    if addContentLength {
      assert AllFields(h, true) == [connection] + ([length] + h.fields);
      FrontPlain(connection, [length] + h.fields);
      FrontPlain(length, h.fields);
    } else {
      assert AllFields(h, false) == [connection] + h.fields;
      FrontPlain(connection, h.fields);
    }
  }

  lemma AllLines(h: Header, addContentLength: bool)
    ensures ConnectionLine(h.connection) + (if addContentLength then LengthLine(h.contentLength) else "")
            + FieldLines(h.fields) == FieldLines(AllFields(h, addContentLength))
  {
    var connection := Field("Connection", ConnectionValue(h.connection));
    var length := Field("Content-Length", Text(Decimal(h.contentLength)));
    assert ConnectionLine(h.connection) == connection.name + ": " + connection.value + CRLF;
    assert LengthLine(h.contentLength) == length.name + ": " + length.value + CRLF;
    if addContentLength {
      assert AllFields(h, true) == [connection] + ([length] + h.fields);
      FieldLinesFront(connection, [length] + h.fields);
      FieldLinesFront(length, h.fields);
    } else {
      assert AllFields(h, false) == [connection] + h.fields;
      FieldLinesFront(connection, h.fields);
    }
  }

  lemma StatusContains(h: Header)
    ensures Contains(StatusLine(h), CRLF) <==> Contains(h.reason, CRLF)
  {
    var line := StatusLine(h);
    assert line[13..] == h.reason;
    forall i: nat | i + 2 <= |line|
      ensures OccursAt(line, CRLF, i) <==> i >= 13 && OccursAt(h.reason, CRLF, i - 13)
    {
      if i < 13 {
        NoEarlyLineEnd(h, i);
        assert (line + CRLF)[i..i + 2] == line[i..i + 2];
      } else {
        assert line[i..i + 2] == h.reason[i - 13..i - 11];
      }
    }
    if Contains(h.reason, CRLF) {
      var at: nat :| at <= |h.reason| && OccursAt(h.reason, CRLF, at);
      assert OccursAt(line, CRLF, at + 13);
    }
  }

  lemma DigitBack(n: nat)
    ensures n < 10 ==> ValueOf(DigitChar(n)) == n
    ensures ValueOf(DigitChar(n)) == n && n != 10 ==> n < 10
  {
  }

  lemma ThreeDigits(n: nat)
    ensures 100 * (n / 100 % 10) + 10 * (n / 10 % 10) + n % 10 == n <==> n < 1000
  {
    var tens, hundreds := n / 10, n / 100;
    assert hundreds == tens / 10;
    assert 10 * (tens % 10) + n % 10 == n - 100 * hundreds;
    assert hundreds % 10 == hundreds <==> hundreds < 10;
  }

  /** The first line gives version, status and reason back if and only if they fit into their digits. */
  lemma StatusIff(h: Header, fields: FieldsRead)
    ensures ReadStatus(StatusLine(h), fields)
            == Some(Reading(h.major, h.minor, h.status, h.reason, fields.fields, fields.rest))
       <==> h.major < 10 && h.minor < 10 && h.status < 1000
  {
    var line := StatusLine(h);
    assert line[..5] == "HTTP/" && line[5] == DigitChar(h.major) && line[6] == '.' && line[7] == DigitChar(h.minor);
    assert line[8] == ' ' && line[9] == DigitChar(h.status / 100 % 10) && line[10] == DigitChar(h.status / 10 % 10);
    assert line[11] == DigitChar(h.status % 10) && line[12] == ' ' && line[13..] == h.reason;
    DigitBack(h.major);
    DigitBack(h.minor);
    DigitBack(h.status / 100 % 10);
    DigitBack(h.status / 10 % 10);
    DigitBack(h.status % 10);
    ThreeDigits(h.status);
  }

  /**
    A header is read back, and behind it the body, if and only if the numbers of the first line fit into their digits,
    the reason has no line end and all fields are plain.
  */
  lemma HeaderIff(h: Header, addContentLength: bool, body: string)
    ensures ReadHeader(HeaderText(h, addContentLength) + body) == Some(Seen(h, addContentLength, body))
       <==> h.major < 10 && h.minor < 10 && h.status < 1000 && !Contains(h.reason, CRLF) && AllPlain(h.fields)
  {
    var fields := AllFields(h, addContentLength);
    HeaderSplit(h, addContentLength, body);
    LinesIff(StatusLine(h), FieldLines(fields) + CRLF + body, Seen(h, addContentLength, body));
    StatusContains(h);
    FieldsIff(fields, body);
    AllFieldsPlain(h, addContentLength);
    StatusIff(h, FieldsRead(fields, body));
  }

  lemma LinesIff(line: string, tail: string, want: Reading)
    requires |line| == 13 + |want.reason|
    ensures var fields := FieldsRead(want.fields, want.body);
            ReadHeader(line + CRLF + tail) == Some(want)
            <==> !Contains(line, CRLF) && ReadFields(tail) == Some(fields) && ReadStatus(line, fields) == Some(want)
  {
    CutIff(line, CRLF, tail);
    ReasonEnds(CutAt(line + CRLF + tail, CRLF).value.before);
  }

  lemma HeaderSplit(h: Header, addContentLength: bool, body: string)
    ensures HeaderText(h, addContentLength) + body
            == StatusLine(h) + CRLF + (FieldLines(AllFields(h, addContentLength)) + CRLF + body)
  {
    AllLines(h, addContentLength);
    Regroup(StatusLine(h) + CRLF, FieldLines(AllFields(h, addContentLength)), CRLF, body);
    assert HeaderText(h, addContentLength) == StatusLine(h) + CRLF + (FieldLines(AllFields(h, addContentLength)) + CRLF);
  }

  lemma ReasonEnds(line: string)
    ensures forall fields :: ReadStatus(line, fields).Some? ==> |ReadStatus(line, fields).value.reason| == |line| - 13
  {
  }

  /** The content length that is read back is the number that was written. */
  lemma LengthBack(k: Kind, n: nat, max: Int8)
    requires IsKind(k) && k.base == 10 && n <= k.max && |Decimal(n)| <= max
    ensures NumberAt(k, DecimalDigit, Text(Decimal(n)), 0, 1, max) == Product(Ok(n), |Decimal(n)|)
  {
    UnsignedRoundTrip(k, n, "", "", 1, max);
    assert "" + Text(Decimal(n)) + "" == Text(Decimal(n));
  }
}
