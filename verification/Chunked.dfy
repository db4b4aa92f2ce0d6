/**
  The chunked response builder (message_builders.hpp) against a decoder of the chunked transfer coding
  (section 4.1 of RFC 7230).
*/
module Chunked {
  import opened Wrappers
  import opened Buffers
  import opened Sequences
  import opened Strings
  import opened TransferCodings
  import opened Digits
  import opened HeaderString
  import opened Pipeline

  // ---------------------------------------------------------------- the transfer coding

  /** Upper-case hexadecimal, as the format `{:X}` gives it. */
  function HexText(n: nat): (s: string)
    ensures |s| == |Written(16, n)|
  {
    var ds := Written(16, n);
    seq(|ds|, i requires 0 <= i < |ds| => if ds[i] < 10 then '0' + ds[i] as char else 'A' + (ds[i] - 10) as char)
  }

  /** Sizes are written in upper case, and without leading zeros. */
  lemma HexTextIs(n: nat)
    ensures forall i :: 0 <= i < |HexText(n)| ==> '0' <= HexText(n)[i] <= '9' || 'A' <= HexText(n)[i] <= 'F'
    ensures n > 0 ==> HexText(n)[0] != '0'
  {
    if n > 0 {
      WrittenLeads(16, n);
    }
  }

  const LAST_CHUNK := "0\r\n\r\n"

  function Coded(chunk: string): string { HexText(|chunk|) + CRLF + chunk + CRLF }

  function CodedAll(chunks: seq<string>): string {
    if chunks == [] then "" else CodedAll(chunks[..|chunks| - 1]) + Coded(chunks[|chunks| - 1])
  }

  /** The chunk a text begins with, and what follows it. */
  function FirstChunk(s: string): (r: Option<(string, string)>)
    ensures r.Some? ==> |r.value.1| < |s|
  {
    var ds := Leading(HexDigit, s, |s|);
    var n, at := Exact(16, ds), |ds| + 2;
    var end := at + n;
    if ds == [] || !OccursAt(s, CRLF, |ds|) || !OccursAt(s, CRLF, end) then None
    else Some((s[at..end], s[end + 2..]))
  }

  /**
    Reads chunks up to the one of size zero, which is followed by an empty trailer: the chunks and what is left
    of the text.  None when the text is not in the coding.
  */
  function Decode(s: string): Option<(seq<string>, string)>
    decreases |s|
  {
    match FirstChunk(s)
    case None => None
    case Some(first) =>
      if first.0 == "" then Some(([], first.1))
      else
        match Decode(first.1)
        case None => None
        case Some(more) => Some(([first.0] + more.0, more.1))
  }

  lemma HexRead(n: nat, after: string)
    requires after != [] ==> HexDigit(after[0]) == None
    ensures var s := HexText(n) + after;
            Leading(HexDigit, s, |s|) == Written(16, n) && Exact(16, Written(16, n)) == n
  {
    var ds, s := Written(16, n), HexText(n) + after;
    forall i | 0 <= i < |ds|
      ensures HexDigit(s[i]) == Some(ds[i])
    {
      assert s[i] == HexText(n)[i];
    }
    LeadingIs(HexDigit, s, |s|, ds);
    WrittenExact(16, n);
  }

  lemma CodedParts(chunk: string, after: string)
    ensures var s, h := Coded(chunk) + after, |HexText(|chunk|)|;
            && s == HexText(|chunk|) + (CRLF + chunk + CRLF + after)
            && s[h..h + 2] == CRLF && s[h + 2..h + 2 + |chunk|] == chunk
            && s[h + 2 + |chunk|..h + 4 + |chunk|] == CRLF && s[h + 4 + |chunk|..] == after
  {
  }

  lemma FirstCut(s: string, ds: seq<nat>, at: nat, end: nat)
    requires ds != [] && Leading(HexDigit, s, |s|) == ds && at == |ds| + 2 && end == at + Exact(16, ds)
    requires OccursAt(s, CRLF, |ds|) && OccursAt(s, CRLF, end)
    ensures FirstChunk(s) == Some((s[at..end], s[end + 2..]))
  {
  }

  lemma FirstIs(chunk: string, after: string)
    ensures FirstChunk(Coded(chunk) + after) == Some((chunk, after))
  {
    var s, h := Coded(chunk) + after, |HexText(|chunk|)|;
    var tail := CRLF + chunk + CRLF + after;
    CodedParts(chunk, after);
    assert tail[0] == '\r';
    HexRead(|chunk|, tail);
    FirstCut(s, Written(16, |chunk|), h + 2, h + 2 + |chunk|);
  }

  /** One coded chunk in front of anything that can be decoded. */
  lemma DecodeChunk(chunk: string, after: string, chunks: seq<string>, rest: string)
    requires |chunk| > 0 && Decode(after) == Some((chunks, rest))
    ensures Decode(Coded(chunk) + after) == Some(([chunk] + chunks, rest))
  {
    FirstIs(chunk, after);
  }

  lemma DecodeLast(after: string)
    ensures Decode(LAST_CHUNK + after) == Some(([], after))
  {
    assert HexText(0) == "0";
    assert LAST_CHUNK == Coded("");
    FirstIs("", after);
  }

  predicate NonEmpty(chunks: seq<string>) {
    forall i :: 0 <= i < |chunks| ==> |chunks[i]| > 0
  }

  /** Decoding gives back the chunks, with their borders, and stops right behind the terminator. */
  lemma {:induction false} DecodeAll(chunks: seq<string>, after: string, more: seq<string>, rest: string)
    requires NonEmpty(chunks) && Decode(after) == Some((more, rest))
    ensures Decode(CodedAll(chunks) + after) == Some((chunks + more, rest))
  {
    if chunks == [] {
      assert CodedAll(chunks) + after == after;
      assert chunks + more == more;
    } else {
      var n := |chunks| - 1;
      var init, last, after' := chunks[..n], chunks[n], Coded(chunks[n]) + after;
      CodedSplit(chunks, after);
      assert Decode(after') == Some(([last] + more, rest)) by {
        DecodeChunk(last, after, more, rest);
      }
      DecodeAll(init, after', [last] + more, rest);
      MoveLast(chunks, more);
    }
  }

  lemma CodedSplit(chunks: seq<string>, after: string)
    requires chunks != []
    ensures var n := |chunks| - 1;
            CodedAll(chunks) + after == CodedAll(chunks[..n]) + (Coded(chunks[n]) + after)
  {
    var n := |chunks| - 1;
    Regroup(CodedAll(chunks[..n]), Coded(chunks[n]), after);
  }

  lemma CodedSnoc(chunks: seq<string>, last: string)
    ensures CodedAll(chunks + [last]) == CodedAll(chunks) + Coded(last)
  {
    assert (chunks + [last])[..|chunks|] == chunks;
  }

  lemma {:induction false} CodedAllConcat(a: seq<string>, b: seq<string>)
    ensures CodedAll(a + b) == CodedAll(a) + CodedAll(b)
  {
    if b == [] {
      assert a + b == a;
    } else {
      var init, last := b[..|b| - 1], b[|b| - 1];
      CodedAllConcat(a, init);
      CodedSnoc(a + init, last);
      CodedSnoc(init, last);
      Snoc(a, b);
      Regroup(CodedAll(a), CodedAll(init), Coded(last));
    }
  }

  // ---------------------------------------------------------------- the builder

  /** What one call to `write_response_parts` carries. */
  datatype Part = Part(flags: Flags, items: seq<Item>, statusLine: nat, hasCallback: bool)

  function Bytes(items: seq<Item>): string {
    if items == [] then ""
    else
      Bytes(items[..|items| - 1]) + match items[|items| - 1] case Buffer(data) => data case File(_, _) => ""
  }

  lemma {:induction false} BytesConcat(a: seq<Item>, b: seq<Item>)
    ensures Bytes(a + b) == Bytes(a) + Bytes(b)
  {
    if b == [] {
      assert a + b == a;
    } else {
      assert (a + b)[..|a + b| - 1] == a + b[..|b| - 1];
      BytesConcat(a, b[..|b| - 1]);
    }
  }

  function PartItems(parts: seq<Part>): seq<Item> {
    if parts == [] then [] else PartItems(parts[..|parts| - 1]) + parts[|parts| - 1].items
  }

  /** The buffers of a list of chunks: sizes and contents, the end of a chunk written with the next size. */
  function ChunkItems(chunks: seq<string>): seq<Item> {
    if chunks == [] then []
    else
      var n := |chunks| - 1;
      ChunkItems(chunks[..n])
      + [Buffer((if n == 0 then "" else CRLF) + HexText(|chunks[n]|) + CRLF), Buffer(chunks[n])]
  }

  function Appendix(chunks: seq<string>, last: bool): string {
    (if chunks == [] then "" else CRLF) + (if last then LAST_CHUNK else "")
  }

  /** `create_bufs`, without the header. */
  function BodyItems(chunks: seq<string>, last: bool): seq<Item> {
    var appendix := Appendix(chunks, last);
    ChunkItems(chunks) + if appendix == "" then [] else [Buffer(appendix)]
  }

  lemma PairBytes(items: seq<Item>, a: string, b: string)
    ensures Bytes(items + [Buffer(a), Buffer(b)]) == Bytes(items) + a + b
    ensures Bytes(items + [Buffer(a)]) == Bytes(items) + a
  {
    assert (items + [Buffer(a)])[..|items|] == items;
    assert (items + [Buffer(a), Buffer(b)])[..|items| + 1] == items + [Buffer(a)];
  }

  /** Delayed chunk ends and all, the buffers are the coded chunks. */
  lemma {:induction false} ChunkBytes(chunks: seq<string>)
    ensures Bytes(ChunkItems(chunks)) + (if chunks == [] then "" else CRLF) == CodedAll(chunks)
  {
    if chunks != [] {
      var n := |chunks| - 1;
      var init, last := chunks[..n], chunks[n];
      ChunkBytes(init);
      var size := (if n == 0 then "" else CRLF) + HexText(|last|) + CRLF;
      PairBytes(ChunkItems(init), size, last);
      ChunkEnds(Bytes(ChunkItems(init)), if n == 0 then "" else CRLF, HexText(|last|), last);
    }
  }

  lemma ChunkEnds(done: string, end: string, hex: string, chunk: string)
    ensures done + (end + hex + CRLF) + chunk + CRLF == (done + end) + (hex + CRLF + chunk + CRLF)
  {
  }

  lemma BodyBytes(chunks: seq<string>, last: bool)
    ensures Bytes(BodyItems(chunks, last)) == CodedAll(chunks) + if last then LAST_CHUNK else ""
  {
    ChunkBytes(chunks);
    var end := if chunks == [] then "" else CRLF;
    var terminator := if last then LAST_CHUNK else "";
    PairBytes(ChunkItems(chunks), Appendix(chunks, last), "");
    Regroup(Bytes(ChunkItems(chunks)), end, terminator);
  }

  // ---------------------------------------------------------------- its operations

  datatype Builder = Builder(header: Header, connected: bool, headerSent: bool, keepAlive: bool,
                             chunks: seq<string>, parts: seq<Part>)

  function NewBuilder(h: Header): Builder { Builder(h, true, false, true, [], []) }

  function Appended(b: Builder, data: string): Builder {
    if |data| == 0 then b else b.(chunks := b.chunks + [data])
  }

  /** `send_ready_data`. */
  function Sent(b: Builder, final: bool, hasCallback: bool): Builder {
    var h := if b.headerSent then b.header else Announced(b.header);
    var keepAlive := if b.headerSent then b.keepAlive else b.header.connection.KeepAlive?;
    var items := (if b.headerSent then [] else [Buffer(HeaderText(h, false))]) + BodyItems(b.chunks, final);
    var statusLine := if b.headerSent then 0 else StatusLineSize(b.header);
    var c := b.(header := h, headerSent := true, keepAlive := keepAlive, chunks := []);
    if items == [] && !hasCallback then c
    else c.(parts := c.parts + [Part(Flags(final, !keepAlive), items, statusLine, hasCallback)])
  }

  function Flushed(b: Builder, hasCallback: bool): Builder {
    if b.connected then Sent(b, false, hasCallback) else b
  }

  /** Only the first `done` does anything; a second one throws. */
  function Done(b: Builder, hasCallback: bool): Option<Builder> {
    if b.connected then Some(Sent(b.(connected := false), true, hasCallback)) else None
  }

  class ChunkedResponseBuilder {
    var header: Header
    var connected: bool
    var headerWasSent: bool
    var shouldKeepAlive: bool
    var chunks: seq<string>
    ghost var parts: seq<Part>

    ghost function View(): Builder
      reads this
    {
      Builder(header, connected, headerWasSent, shouldKeepAlive, chunks, parts)
    }

    constructor (h: Header)
      ensures View() == NewBuilder(h)
    {
      header, connected, headerWasSent, shouldKeepAlive, chunks, parts := h, true, false, true, [], [];
    }

    method AppendChunk(data: string)
      modifies this`chunks
      ensures View() == Appended(old(View()), data)
    {
      if |data| != 0 {
        chunks := chunks + [data];
      }
    }

    method Flush(hasCallback: bool)
      modifies this
      ensures View() == Flushed(old(View()), hasCallback)
    {
      if connected {
        SendReadyData(false, hasCallback);
      }
    }

    method Finish(hasCallback: bool) returns (ok: bool)
      modifies this
      ensures ok == old(connected)
      ensures View() == if ok then Done(old(View()), hasCallback).value else old(View())
    {
      ok := connected;
      if ok {
        connected := false;
        SendReadyData(true, hasCallback);
      }
    }

    method SendReadyData(final: bool, hasCallback: bool)
      modifies this
      ensures View() == Sent(old(View()), final, hasCallback)
    {
      var statusLine := 0;
      if !headerWasSent {
        statusLine := StatusLineSize(header);
        shouldKeepAlive := header.connection.KeepAlive?;
        header := Announced(header);
      }
      var bufs := CreateBufs(final);
      headerWasSent := true;
      if bufs != [] || hasCallback {
        parts := parts + [Part(Flags(final, !shouldKeepAlive), bufs, statusLine, hasCallback)];
      }
    }

    method CreateBufs(addZeroChunk: bool) returns (bufs: seq<Item>)
      modifies this`chunks
      ensures chunks == []
      ensures bufs == (if headerWasSent then [] else [Buffer(HeaderText(header, false))])
                      + BodyItems(old(chunks), addZeroChunk)
    {
      bufs := [];
      if !headerWasSent {
        var text := CreateHeaderString(header, false);
        bufs := [Buffer(text)];
      }
      bufs := WriteChunks(bufs, chunks);
      var appendix := (if chunks == [] then "" else CRLF) + (if addZeroChunk then LAST_CHUNK else "");
      if appendix != "" {
        bufs := bufs + [Buffer(appendix)];
      }
      chunks := [];
    }
  }

  /** The chunks with their sizes, behind what there is already. */
  method WriteChunks(head: seq<Item>, chunks: seq<string>) returns (bufs: seq<Item>)
    ensures bufs == head + ChunkItems(chunks)
  {
    bufs := head;
    var sizeEnd := "";
    for i := 0 to |chunks|
      invariant bufs == head + ChunkItems(chunks[..i])
      invariant sizeEnd == if i == 0 then "" else CRLF
    {
      assert chunks[..i + 1][..i] == chunks[..i];
      bufs := bufs + [Buffer(sizeEnd + HexText(|chunks[i]|) + CRLF)];
      sizeEnd := CRLF;
      bufs := bufs + [Buffer(chunks[i])];
    }
    assert chunks[..|chunks|] == chunks;
  }
}
