/** Any use of the chunked builder puts one header and one well-formed chunked body on the wire. */
module ChunkedTheorems {
  import opened Wrappers
  import opened Buffers
  import opened Sequences
  import opened HeaderString
  import opened TransferCodings
  import opened Chunked

  datatype Op = Append(data: string) | Flush(hasCallback: bool)

  function Apply(b: Builder, op: Op): Builder {
    match op
    case Append(data) => Appended(b, data)
    case Flush(hasCallback) => Flushed(b, hasCallback)
  }

  function ApplyAll(b: Builder, ops: seq<Op>): Builder {
    if ops == [] then b else Apply(ApplyAll(b, ops[..|ops| - 1]), ops[|ops| - 1])
  }

  /** The chunks that were given to the builder, empty ones left out. */
  function Given(ops: seq<Op>): (chunks: seq<string>)
    ensures NonEmpty(chunks)
  {
    if ops == [] then []
    else
      var op := ops[|ops| - 1];
      Given(ops[..|ops| - 1]) + if op.Append? && |op.data| > 0 then [op.data] else []
  }

  /** Everything handed to the connection so far, as bytes. */
  function Wire(b: Builder): string { Bytes(PartItems(b.parts)) }

  /** `given` was given to the builder, `wired` of it is on the wire behind the header. */
  ghost predicate Streaming(b: Builder, h: Header, given: seq<string>, wired: seq<string>) {
    && given == wired + b.chunks
    && if b.headerSent then Wire(b) == HeaderText(Announced(h), false) + CodedAll(wired) && b.header == Announced(h)
       else b.parts == [] && wired == [] && b.header == h
  }

  lemma PartSnoc(parts: seq<Part>, p: Part)
    ensures Bytes(PartItems(parts + [p])) == Bytes(PartItems(parts)) + Bytes(p.items)
  {
    assert (parts + [p])[..|parts|] == parts;
    BytesConcat(PartItems(parts), p.items);
  }

  lemma HeaderFirst(text: string, items: seq<Item>)
    ensures Bytes([Buffer(text)] + items) == text + Bytes(items)
  {
    BytesConcat([Buffer(text)], items);
    PairBytes([], text, "");
    assert [] + [Buffer(text)] == [Buffer(text)];
  }

  /** What one `send_ready_data` adds to the wire. */
  lemma SentWire(b: Builder, final: bool, hasCallback: bool)
    requires b.headerSent || b.parts == []
    ensures var body := CodedAll(b.chunks) + if final then LAST_CHUNK else "";
            Wire(Sent(b, final, hasCallback)) ==
            if b.headerSent then Wire(b) + body else HeaderText(Announced(b.header), false) + body
  {
    BodyBytes(b.chunks, final);
    var text, body := HeaderText(Announced(b.header), false), BodyItems(b.chunks, final);
    HeaderFirst(text, body);
    var items := (if b.headerSent then [] else [Buffer(text)]) + body;
    assert b.headerSent ==> items == body;
    var c := Sent(b, final, hasCallback);
    if items == [] && !hasCallback {
      assert Wire(b) + Bytes(items) == Wire(b);
    } else {
      PartSnoc(b.parts, c.parts[|b.parts|]);
    }
  }

  lemma SentFirst(b: Builder, hasCallback: bool, h: Header, given: seq<string>)
    requires Streaming(b, h, given, []) && !b.headerSent
    ensures Wire(Sent(b, false, hasCallback)) == HeaderText(Announced(h), false) + CodedAll(given)
  {
    SentWire(b, false, hasCallback);
    Regroup([], [], b.chunks);
    NothingMore(CodedAll(given));
  }

  lemma SentLater(b: Builder, hasCallback: bool, h: Header, given: seq<string>, wired: seq<string>)
    requires Streaming(b, h, given, wired) && b.headerSent
    ensures Wire(Sent(b, false, hasCallback)) == HeaderText(Announced(h), false) + CodedAll(given)
  {
    SentWire(b, false, hasCallback);
    CodedAllConcat(wired, b.chunks);
    NothingMore(CodedAll(b.chunks));
    Regroup(HeaderText(Announced(h), false), CodedAll(wired), CodedAll(b.chunks));
  }

  lemma SentStreams(b: Builder, hasCallback: bool, h: Header, given: seq<string>, wired: seq<string>)
    requires Streaming(b, h, given, wired)
    ensures Streaming(Sent(b, false, hasCallback), h, given, given)
  {
    if b.headerSent {
      SentLater(b, hasCallback, h, given, wired);
    } else {
      SentFirst(b, hasCallback, h, given);
    }
    Regroup([], [], given);
  }

  lemma NothingMore(s: string)
    ensures s + "" == s
  {
  }

  lemma {:induction false} OpsStream(h: Header, ops: seq<Op>) returns (wired: seq<string>)
    ensures var b := ApplyAll(NewBuilder(h), ops); b.connected && Streaming(b, h, Given(ops), wired)
  {
    if ops == [] {
      wired := [];
    } else {
      var init, op := ops[..|ops| - 1], ops[|ops| - 1];
      wired := OpsStream(h, init);
      var b := ApplyAll(NewBuilder(h), init);
      match op
      case Append(data) =>
        if |data| > 0 {
          assert wired + (b.chunks + [data]) == (wired + b.chunks) + [data];
        }
        assert |data| == 0 ==> Given(ops) == Given(init);
      case Flush(hasCallback) =>
        assert Given(ops) == Given(init);
        SentStreams(b, hasCallback, h, Given(init), wired);
        wired := Given(init);
    }
  }

  /**
    For any calls to `append_chunk` and `flush` ended by `done`: on the wire is the header (AnnouncedIff says when it
    announces the coding), and then a body that decodes to exactly the non-empty chunks that were given, in order,
    with nothing behind its terminator.
  */
  lemma ChunkedRoundTrip(h: Header, ops: seq<Op>, hasCallback: bool)
    ensures var b := Done(ApplyAll(NewBuilder(h), ops), hasCallback);
            && b.Some?
            && var header := HeaderText(Announced(h), false);
            && header <= Wire(b.value)
            && Decode(Wire(b.value)[|header|..]) == Some((Given(ops), ""))
  {
    var header, given := HeaderText(Announced(h), false), Given(ops);
    var body := CodedAll(given) + LAST_CHUNK;
    DoneWire(h, ops, hasCallback);
    AfterPrefix(header, body);
    DecodeLast("");
    NothingMore(LAST_CHUNK);
    DecodeAll(given, LAST_CHUNK, [], "");
    assert given + [] == given;
  }

  /** What is on the wire at the end. */
  lemma DoneWire(h: Header, ops: seq<Op>, hasCallback: bool)
    ensures var b := Done(ApplyAll(NewBuilder(h), ops), hasCallback);
            b.Some? && Wire(b.value) == HeaderText(Announced(h), false) + (CodedAll(Given(ops)) + LAST_CHUNK)
  {
    var wired := OpsStream(h, ops);
    var b := ApplyAll(NewBuilder(h), ops).(connected := false);
    SentWire(b, true, hasCallback);
    CodedAllConcat(wired, b.chunks);
    RegroupFour(HeaderText(Announced(h), false), CodedAll(wired), CodedAll(b.chunks), LAST_CHUNK);
    if !b.headerSent {
      assert Given(ops) == b.chunks;
    }
  }

  lemma RegroupFour(a: string, b: string, c: string, d: string)
    ensures (a + b) + (c + d) == a + ((b + c) + d)
  {
  }

  lemma AfterPrefix(a: string, b: string)
    ensures a <= a + b && (a + b)[|a|..] == b
  {
  }

  // ---------------------------------------------------------------- how the parts are marked

  /** Only the first part carries a status line, which fits into it, and all agree about the connection. */
  ghost predicate Marked(b: Builder, h: Header) {
    && (b.headerSent <==> b.parts != [])
    && (b.headerSent ==> b.keepAlive == h.connection.KeepAlive?)
    && (!b.headerSent ==> b.header == h)
    && forall i :: 0 <= i < |b.parts| ==>
         && b.parts[i].flags.close == !h.connection.KeepAlive?
         && b.parts[i].statusLine == (if i == 0 then StatusLineSize(h) else 0)
         && StatusLineFits(b.parts[i].items, b.parts[i].statusLine)
  }

  lemma SentMarked(b: Builder, h: Header, final: bool, hasCallback: bool)
    requires Marked(b, h)
    ensures Marked(Sent(b, final, hasCallback), h)
  {
    StatusLineExact(Announced(b.header), false, BodyItems(b.chunks, final));
    assert Announced(b.header).reason == b.header.reason;
  }

  lemma {:induction false} OpsMarked(h: Header, ops: seq<Op>)
    ensures var b := ApplyAll(NewBuilder(h), ops);
            b.connected && Marked(b, h) && forall i :: 0 <= i < |b.parts| ==> !b.parts[i].flags.final
  {
    if ops != [] {
      var init, op := ops[..|ops| - 1], ops[|ops| - 1];
      OpsMarked(h, init);
      if op.Flush? {
        SentMarked(ApplyAll(NewBuilder(h), init), h, false, op.hasCallback);
      }
    }
  }

  /** The last part, and no other, is final, and every part is one the coordinator accepts. */
  lemma ChunkedParts(h: Header, ops: seq<Op>, hasCallback: bool)
    ensures var b := Done(ApplyAll(NewBuilder(h), ops), hasCallback);
            && b.Some? && Marked(b.value, h) && b.value.parts != []
            && forall i :: 0 <= i < |b.value.parts| ==> (b.value.parts[i].flags.final <==> i == |b.value.parts| - 1)
  {
    OpsMarked(h, ops);
    var b := ApplyAll(NewBuilder(h), ops).(connected := false);
    SentMarked(b, h, true, hasCallback);
    assert Appendix(b.chunks, true) != "";
  }

  // ---------------------------------------------------------------- callbacks

  /** For every part with a callback, all bytes up to its end. */
  function Points(parts: seq<Part>): seq<string> {
    if parts == [] then []
    else
      var n := |parts| - 1;
      Points(parts[..n]) + if parts[n].hasCallback then [Bytes(PartItems(parts))] else []
  }

  /** For every flush with a callback, the chunks given before it. */
  function Calls(ops: seq<Op>): seq<seq<string>> {
    if ops == [] then []
    else
      var n := |ops| - 1;
      Calls(ops[..n]) + if ops[n].Flush? && ops[n].hasCallback then [Given(ops[..n])] else []
  }

  predicate Answered(points: seq<string>, calls: seq<seq<string>>, header: string) {
    |points| == |calls| && forall i :: 0 <= i < |points| ==> points[i] == header + CodedAll(calls[i])
  }

  lemma SentPoints(b: Builder, final: bool, hasCallback: bool)
    ensures var c := Sent(b, final, hasCallback);
            Points(c.parts) == Points(b.parts) + if hasCallback then [Wire(c)] else []
  {
    var c := Sent(b, final, hasCallback);
    if |c.parts| > |b.parts| {
      assert c.parts[..|b.parts|] == b.parts;
    }
    assert Points(b.parts) + [] == Points(b.parts);
  }

  /**
    Every flush with a callback makes a part with a callback, and no other call does; that part ends just where the
    chunks given before the flush end.
  */
  lemma {:induction false} ChunkedCallbacks(h: Header, ops: seq<Op>)
    ensures Answered(Points(ApplyAll(NewBuilder(h), ops).parts), Calls(ops), HeaderText(Announced(h), false))
  {
    if ops != [] {
      var init, op := ops[..|ops| - 1], ops[|ops| - 1];
      ChunkedCallbacks(h, init);
      if op.Flush? {
        FlushAnswered(h, init, op.hasCallback);
      } else {
        Regroup([], [], Calls(init));
      }
    }
  }

  lemma FlushAnswered(h: Header, ops: seq<Op>, hasCallback: bool)
    requires Answered(Points(ApplyAll(NewBuilder(h), ops).parts), Calls(ops), HeaderText(Announced(h), false))
    ensures var b := ApplyAll(NewBuilder(h), ops);
            && b.connected
            && Answered(Points(Sent(b, false, hasCallback).parts), Calls(ops) + if hasCallback then [Given(ops)] else [],
                        HeaderText(Announced(h), false))
  {
    var b := ApplyAll(NewBuilder(h), ops);
    var wired := OpsStream(h, ops);
    SentPoints(b, false, hasCallback);
    SentStreams(b, hasCallback, h, Given(ops), wired);
    Regroup([], [], Calls(ops));
    OneAnswered(Points(b.parts), Calls(ops), HeaderText(Announced(h), false), Given(ops));
  }

  lemma OneAnswered(points: seq<string>, calls: seq<seq<string>>, header: string, given: seq<string>)
    requires Answered(points, calls, header)
    ensures Answered(points + [header + CodedAll(given)], calls + [given], header)
  {
  }

  /** The callback of `done` comes with the last part, behind everything. */
  lemma DoneCallback(h: Header, ops: seq<Op>, hasCallback: bool)
    ensures var b, d := ApplyAll(NewBuilder(h), ops), Done(ApplyAll(NewBuilder(h), ops), hasCallback);
            d.Some? && Points(d.value.parts) == Points(b.parts) + if hasCallback then [Wire(d.value)] else []
  {
    OpsMarked(h, ops);
    SentPoints(ApplyAll(NewBuilder(h), ops).(connected := false), true, hasCallback);
  }
}
