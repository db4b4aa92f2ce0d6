/** Finding the context of a request: ids are 32-bit numbers that wrap around. */
module RequestIds {
  import opened Wrappers
  import opened Pipeline

  function IdAt(queue: seq<Context>, k: nat): nat
    requires k < |queue|
  {
    queue[k].requestId
  }

  /** The contexts of the last |queue| of `registered` requests, in order. */
  predicate Consecutive(queue: seq<Context>, registered: nat)
    requires |queue| <= registered
  {
    forall k {:trigger IdAt(queue, k)} :: 0 <= k < |queue| ==> IdAt(queue, k) == (registered - |queue| + k) % ID_SPACE
  }

  /** The live request ids pass through zero. */
  predicate Straddles(queue: seq<Context>) {
    queue != [] && queue[|queue| - 1].requestId < queue[0].requestId
  }

  /**
    A request id is found exactly when it is live, and then at its own context, unless the live ids pass
    through zero: in that case no id is found at all.
  */
  lemma LookupExact(queue: seq<Context>, registered: nat, request: nat)
    requires |queue| <= registered && |queue| < ID_SPACE && Consecutive(queue, registered) && request < ID_SPACE
    ensures Straddles(queue) ==> Lookup(queue, request) == None
    ensures !Straddles(queue) ==>
              match Lookup(queue, request)
              case Some(k) => k < |queue| && queue[k].requestId == request
              case None => forall k :: 0 <= k < |queue| ==> queue[k].requestId != request
    ensures Straddles(queue) <==> (registered - |queue|) % ID_SPACE + |queue| > ID_SPACE
  {
    var base := registered - |queue|;
    forall k | 0 <= k < |queue|
      ensures queue[k].requestId ==
              if base % ID_SPACE + k < ID_SPACE then base % ID_SPACE + k else base % ID_SPACE + k - ID_SPACE
    {
      assert IdAt(queue, k) == (base + k) % ID_SPACE;
      WrapAround(base, k);
    }
  }

  /** The next request gets the next id. */
  lemma ConsecutiveNext(queue: seq<Context>, registered: nat, c: Context)
    requires |queue| <= registered && Consecutive(queue, registered) && c.requestId == registered % ID_SPACE
    ensures Consecutive(queue + [c], registered + 1)
    ensures (registered + 1) % ID_SPACE == (c.requestId + 1) % ID_SPACE
  {
    forall k | 0 <= k <= |queue|
      ensures IdAt(queue + [c], k) == (registered - |queue| + k) % ID_SPACE
    {
      if k < |queue| {
        assert IdAt(queue, k) == (registered - |queue| + k) % ID_SPACE;
      }
    }
  }

  /** Changing a context, but not its id, or retiring the oldest keeps the numbering. */
  lemma ConsecutiveKeeps(queue: seq<Context>, registered: nat, k: nat, c: Context)
    requires k < |queue| <= registered && Consecutive(queue, registered) && c.requestId == queue[k].requestId
    ensures Consecutive(queue[k := c], registered) && Consecutive(queue[1..], registered)
  {
    var base, queue' := registered - |queue|, queue[k := c];
    forall j | 0 <= j < |queue|
      ensures IdAt(queue', j) == (base + j) % ID_SPACE
    {
      assert IdAt(queue, j) == (base + j) % ID_SPACE;
    }
    forall j | 0 <= j < |queue[1..]|
      ensures IdAt(queue[1..], j) == (base + 1 + j) % ID_SPACE
    {
      assert IdAt(queue, j + 1) == (base + 1 + j) % ID_SPACE;
    }
  }

  lemma WrapAround(base: nat, k: nat)
    requires k < ID_SPACE
    ensures (base + k) % ID_SPACE ==
            if base % ID_SPACE + k < ID_SPACE then base % ID_SPACE + k else base % ID_SPACE + k - ID_SPACE
  {
  }
}
