/** The text of a response header and the buffer reserved for it (header_helpers.hpp, message_builders.hpp). */
module HeaderString {
  import opened Wrappers
  import opened Buffers
  import opened Strings
  import opened Digits

  datatype ConnectionKind = KeepAlive | CloseConnection | Upgrade

  datatype Field = Field(name: string, value: string)

  datatype Header = Header(major: nat, minor: nat, status: nat, reason: string, connection: ConnectionKind,
                           contentLength: nat, fields: seq<Field>)

  /** A digit computed without a range check and cut down to a byte. */
  function DigitChar(n: nat): char { ((48 + n) % 256) as char }

  /** The first line, without its end. */
  function StatusLine(h: Header): string {
    "HTTP/" + [DigitChar(h.major), '.', DigitChar(h.minor), ' ']
    + [DigitChar(h.status / 100 % 10), DigitChar(h.status / 10 % 10), DigitChar(h.status % 10), ' '] + h.reason
  }

  function ConnectionLine(c: ConnectionKind): string {
    match c
    case KeepAlive => "Connection: keep-alive\r\n"
    case CloseConnection => "Connection: close\r\n"
    case Upgrade => "Connection: Upgrade\r\n"
  }

  function LengthLine(n: nat): string { "Content-Length: " + Text(Decimal(n)) + CRLF }

  function FieldLines(fields: seq<Field>): string {
    if fields == [] then ""
    else
      var f := fields[|fields| - 1];
      FieldLines(fields[..|fields| - 1]) + (f.name + ": " + f.value + CRLF)
  }

  /** The whole header. */
  function HeaderText(h: Header, addContentLength: bool): string {
    StatusLine(h) + CRLF
    + (ConnectionLine(h.connection) + (if addContentLength then LengthLine(h.contentLength) else "")
       + FieldLines(h.fields) + CRLF)
  }

  function FieldSizes(fields: seq<Field>): nat {
    if fields == [] then 0
    else
      var f := fields[|fields| - 1];
      FieldSizes(fields[..|fields| - 1]) + (|f.name| + 2 + |f.value| + 2)
  }

  /** `calculate_approx_buffer_size_for_header`. */
  method ApproxBufferSize(h: Header) returns (size: nat)
    ensures forall addContentLength :: h.contentLength < 0x1_0000_0000_0000_0000 ==>
              |HeaderText(h, addContentLength)| <= size
    ensures size == 13 + |h.reason| + 2 + 26 + 38 + 2 + FieldSizes(h.fields)
  {
    size := 13;
    size := size + (|h.reason| + 2);
    size := size + 26;
    size := size + (20 + 18);
    size := size + 2;
    var fixed := size;
    for i := 0 to |h.fields|
      invariant size == fixed + FieldSizes(h.fields[..i])
    {
      assert h.fields[..i + 1][..i] == h.fields[..i];
      var f := h.fields[i];
      size := size + (|f.name| + 2 + |f.value| + 2);
    }
    assert h.fields[..|h.fields|] == h.fields;
    HeaderFits(h);
  }

  lemma {:induction false} FieldLinesSize(fields: seq<Field>)
    ensures |FieldLines(fields)| == FieldSizes(fields)
  {
    if fields != [] {
      FieldLinesSize(fields[..|fields| - 1]);
    }
  }

  /** 64-bit numbers have at most twenty digits. */
  lemma {:induction false} DecimalShort(n: nat, digits: nat)
    requires n < Pow10(digits) && digits > 0
    ensures |Decimal(n)| <= digits
    decreases digits
  {
    TenTimes(n, Pow10(digits - 1));
    if n >= 10 {
      DecimalShort(n / 10, digits - 1);
    }
  }

  lemma TenTimes(n: nat, p: nat)
    requires n < 10 * p
    ensures n / 10 < p && (n >= 10 ==> p > 1)
  {
  }

  function Pow10(n: nat): nat { if n == 0 then 1 else 10 * Pow10(n - 1) }

  lemma TwentyDigits()
    ensures Pow10(20) == 100_000_000_000_000_000_000
  {
    assert Pow10(5) == 100_000;
    assert Pow10(10) == 10_000_000_000;
    assert Pow10(15) == 1_000_000_000_000_000;
  }

  /** The serialized header never outgrows the reserved size, whatever its fields and 64-bit content length. */
  lemma HeaderFits(h: Header)
    ensures forall addContentLength :: h.contentLength < 0x1_0000_0000_0000_0000 ==>
              |HeaderText(h, addContentLength)| <= 81 + |h.reason| + FieldSizes(h.fields)
  {
    FieldLinesSize(h.fields);
    if h.contentLength < 0x1_0000_0000_0000_0000 {
      TwentyDigits();
      DecimalShort(h.contentLength, 20);
    }
  }

  /** `create_header_string`. */
  method CreateHeaderString(h: Header, addContentLength: bool) returns (text: string)
    ensures text == HeaderText(h, addContentLength)
  {
    text := "HTTP/";
    text := text + [DigitChar(h.major)] + ['.'] + [DigitChar(h.minor)] + [' '];
    text := text + [DigitChar(h.status / 100 % 10)] + [DigitChar(h.status / 10 % 10)] + [DigitChar(h.status % 10)];
    text := text + [' '] + h.reason;
    assert text == StatusLine(h);
    var rest := ConnectionLine(h.connection);
    if addContentLength {
      rest := rest + LengthLine(h.contentLength);
    } else {
      assert rest == rest + "";
    }
    rest := AppendFields(rest, h.fields);
    text := text + CRLF + (rest + CRLF);
  }

  method AppendFields(head: string, fields: seq<Field>) returns (text: string)
    ensures text == head + FieldLines(fields)
  {
    text := head;
    for i := 0 to |fields|
      invariant text == head + FieldLines(fields[..i])
    {
      assert fields[..i + 1][..i] == fields[..i];
      text := text + (fields[i].name + ": " + fields[i].value + CRLF);
    }
    assert fields[..|fields|] == fields;
  }

  /** `calculate_status_line_size`. */
  function StatusLineSize(h: Header): nat { 8 + 1 + 3 + 1 + |h.reason| }

  /**
    The computed size is that of the first line's text, so that it is accepted for a group starting with the
    header; it ends at the first line end in the header if and only if the reason phrase has none.
  */
  lemma StatusLineExact(h: Header, addContentLength: bool, rest: seq<Item>)
    ensures var text, n := HeaderText(h, addContentLength), StatusLineSize(h);
            && StatusLineFits([Buffer(text)] + rest, n)
            && text[..n] == StatusLine(h)
            && OccursAt(text, CRLF, n)
            && (Find(text, CRLF) == Some(n) <==> !Contains(h.reason, CRLF))
  {
    var text, n, line := HeaderText(h, addContentLength), StatusLineSize(h), StatusLine(h);
    assert ([Buffer(text)] + rest)[0] == Buffer(text);
    assert text[..n] == line;
    assert text[n..n + 2] == CRLF;
    forall i: nat | i < n
      ensures OccursAt(text, CRLF, i) <==> i >= 13 && OccursAt(h.reason, CRLF, i - 13)
    {
      LineEnds(h, addContentLength, i);
    }
    FindIs(text, CRLF, n);
    if Contains(h.reason, CRLF) {
      var at: nat :| at <= |h.reason| && OccursAt(h.reason, CRLF, at);
      assert OccursAt(text, CRLF, at + 13);
    }
  }

  /** No line end starts in front of the reason phrase. */
  lemma NoEarlyLineEnd(h: Header, i: nat)
    requires i < 13
    ensures !OccursAt(StatusLine(h) + CRLF, CRLF, i)
  {
    var line := StatusLine(h) + CRLF;
    assert line[6] == '.' && line[8] == ' ' && line[12] == ' ';
    assert line[9] == DigitChar(h.status / 100 % 10) && line[10] == DigitChar(h.status / 10 % 10);
    assert line[11] == DigitChar(h.status % 10);
    var pair := line[i..i + 2];
    assert pair[0] == line[i] && pair[1] == line[i + 1];
  }

  /** Line ends that start within the first line are those of the reason phrase. */
  lemma LineEnds(h: Header, addContentLength: bool, i: nat)
    requires i < StatusLineSize(h)
    ensures OccursAt(HeaderText(h, addContentLength), CRLF, i) <==> i >= 13 && OccursAt(h.reason, CRLF, i - 13)
  {
    var text, line := HeaderText(h, addContentLength), StatusLine(h) + CRLF;
    assert text[i..i + 2] == line[i..i + 2];
    if i < 13 {
      NoEarlyLineEnd(h, i);
    } else {
      assert line[13..] == h.reason + CRLF;
      assert line[i..i + 2] == (h.reason + CRLF)[i - 13..i - 11];
      if i - 11 <= |h.reason| {
        assert (h.reason + CRLF)[i - 13..i - 11] == h.reason[i - 13..i - 11];
      } else {
        assert (h.reason + CRLF)[i - 13..i - 11][1] == '\r' && CRLF[1] == '\n';
      }
    }
  }
}
