/** A chunked response through the pipeline: from the calls of a handler to the bytes that are written. */
module ChunkedPipeline {
  import opened Wrappers
  import opened Buffers
  import opened Sequences
  import opened HeaderString
  import opened TransferCodings
  import opened Chunked
  import opened ChunkedTheorems
  import opened Pipeline
  import opened PipelineInvariant
  import opened PipelineTheorems

  // ---------------------------------------------------------------- what a run appends to a response

  /** The parts that a run appends to response r, between whatever else happens. */
  function PartsFor(s: State, es: seq<Event>, r: nat): seq<Part>
    requires WellFormed(s)
    decreases |es|
  {
    if es == [] then []
    else PartFor(s, es[0], r) + PartsFor(Step(s, es[0]), es[1..], r)
  }

  function PartFor(s: State, e: Event, r: nat): seq<Part>
    requires WellFormed(s)
  {
    if AcceptedFor(s, e) == Some(r) then [Part(e.flags, e.items, e.statusLine, e.hasCallback)] else []
  }

  function Response(s: State, r: nat): seq<Item> { if r < |s.appended| then s.appended[r] else [] }

  lemma AppendAdds(s: State, e: Event, r: nat)
    requires WellFormed(s) && e.Append?
    ensures Response(Step(s, e), r) == Response(s, r) + if AcceptedFor(s, e) == Some(r) then e.items else []
  {
    if AcceptedFor(s, e).Some? {
      var k := Target(s.queue, e.request).value;
      var t := Accept(s, k, e);
      assert Step(s, e).appended == t.appended == s.appended[Base(s) + k := s.appended[Base(s) + k] + e.items];
    } else {
      assert Step(s, e).appended == s.appended;
    }
  }

  lemma HandleAdds(s: State, starts: bool, throws: bool)
    requires WellFormed(s)
    ensures DoHandle(s, starts, throws).appended == s.appended
  {
    if s.index >= |s.current.items| {
    } else {
    }
  }

  lemma StepAdds(s: State, e: Event, r: nat)
    requires WellFormed(s)
    ensures Response(Step(s, e), r) == Response(s, r) + PartItems(PartFor(s, e, r))
  {
    if e.Append? {
      AppendAdds(s, e, r);
      PartItemsOne(Part(e.flags, e.items, e.statusLine, e.hasCallback));
    } else if e.Handle? {
      HandleAdds(s, e.starts, e.throws);
    } else if !e.Register? {
      assert Step(s, e).appended == s.appended;
    }
  }

  lemma {:induction false} PartItemsConcat(a: seq<Part>, b: seq<Part>)
    ensures PartItems(a + b) == PartItems(a) + PartItems(b)
    decreases |b|
  {
    if b == [] {
      assert a + b == a;
    } else {
      var n := |b| - 1;
      assert (a + b)[..|a + b| - 1] == a + b[..n];
      PartItemsConcat(a, b[..n]);
      Regroup(PartItems(a), PartItems(b[..n]), b[n].items);
    }
  }

  lemma PartItemsOne(p: Part)
    ensures PartItems([p]) == p.items
  {
    assert [p][..0] == [];
  }

  /** A response consists of the parts that were accepted for it, in order, however the run mixes them. */
  lemma {:induction false} ResponseIs(s: State, es: seq<Event>, r: nat)
    requires WellFormed(s)
    ensures Response(Exec(s, es), r) == Response(s, r) + PartItems(PartsFor(s, es, r))
    decreases |es|
  {
    if es == [] {
      assert Response(s, r) + [] == Response(s, r);
    } else {
      var t, own := Step(s, es[0]), PartFor(s, es[0], r);
      var rest := PartsFor(t, es[1..], r);
      StepAdds(s, es[0], r);
      ResponseIs(t, es[1..], r);
      PartItemsConcat(own, rest);
      Regroup(Response(s, r), PartItems(own), PartItems(rest));
    }
  }

  // ---------------------------------------------------------------- a builder's response

  /** The parts of a finished builder, for any calls to it. */
  function Parts(h: Header, ops: seq<Op>, hasCallback: bool): seq<Part> {
    var b := Done(ApplyAll(NewBuilder(h), ops), hasCallback);
    if b.Some? then b.value.parts else []
  }

  /** The bytes are a header and a body that decodes to the chunks, and nothing else. */
  predicate IsChunkedResponse(bytes: string, h: Header, chunks: seq<string>) {
    var header := HeaderText(Announced(h), false);
    header <= bytes && Decode(bytes[|header|..]) == Some((chunks, ""))
  }

  /**
    In any run that appends the parts of a finished builder to a response, between the parts of others and merged
    or not, that response is one header and one chunked body.
  */
  lemma AppendedChunked(capacity: nat, maxBatch: nat, es: seq<Event>, s: State, r: nat,
                        h: Header, ops: seq<Op>, hasCallback: bool)
    requires Reaches(capacity, maxBatch, es, s)
    requires PartsFor(Init(capacity, maxBatch), es, r) == Parts(h, ops, hasCallback)
    ensures IsChunkedResponse(Bytes(Response(s, r)), h, Given(ops))
  {
    ResponseIs(Init(capacity, maxBatch), es, r);
    Regroup([], [], PartItems(Parts(h, ops, hasCallback)));
    ChunkedRoundTrip(h, ops, hasCallback);
  }

  /**
    When moreover the callback of the last part hears of success, the whole response was written, directly behind
    all responses before it.
  */
  lemma WrittenChunked(capacity: nat, maxBatch: nat, es: seq<Event>, s: State, r: nat,
                       h: Header, ops: seq<Op>, hasCallback: bool, i: nat) returns (response: string)
    requires Reaches(capacity, maxBatch, es, s) && r < |s.appended|
    requires PartsFor(Init(capacity, maxBatch), es, r) == Parts(h, ops, hasCallback)
    requires i < |s.fired| && s.fired[i].success && s.fired[i].callback < |s.debts|
    requires var d := s.debts[s.fired[i].callback]; d.response == r && d.offset == |s.appended[r]|
    ensures IsChunkedResponse(response, h, Given(ops))
    ensures Bytes(Cat(s.appended, r)) + response <= Bytes(s.written)
  {
    AppendedChunked(capacity, maxBatch, es, s, r, h, ops, hasCallback);
    SuccessMeansWritten(capacity, maxBatch, es, s, i);
    var whole := s.appended[r];
    response := Bytes(whole);
    assert whole[..|whole|] == whole;
    BytesPrefix(Cat(s.appended, r) + whole, s.written);
    BytesConcat(Cat(s.appended, r), whole);
  }

  lemma BytesPrefix(a: seq<Item>, b: seq<Item>)
    requires a <= b
    ensures Bytes(a) <= Bytes(b)
  {
    assert b == a + b[|a|..];
    BytesConcat(a, b[|a|..]);
  }
}
