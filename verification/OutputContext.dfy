/** `write_group_output_ctx_t` (write_group_output_ctx.hpp): one group, cut into write operations. */
module OutputContext {
  import opened Wrappers
  import opened Buffers
  import opened Pipeline

  /** A gather write of buffers with its total size, or the sending of one file. */
  datatype Operation = Trivial(bufs: seq<Item>, total: nat) | SendFile(file: Item)

  function TotalSize(items: seq<Item>): nat {
    if items == [] then 0 else TotalSize(items[..|items| - 1]) + items[|items| - 1].Size()
  }

  /** The operation that transmits a batch. */
  function OperationOf(batch: seq<Item>): Operation
    requires batch != []
  {
    if batch[0].File? then SendFile(batch[0]) else Trivial(batch, TotalSize(batch))
  }

  /** All batches of a group, from an item on. */
  function Batches(items: seq<Item>, from: nat, maxBatch: nat): seq<seq<Item>>
    requires from <= |items| && maxBatch > 0
    decreases |items| - from
  {
    if from == |items| then []
    else
      var next := from + NextCount(items, from, maxBatch);
      [items[from..next]] + Batches(items, next, maxBatch)
  }

  function Concat(batches: seq<seq<Item>>): seq<Item> {
    if batches == [] then [] else batches[0] + Concat(batches[1..])
  }

  predicate IsBatch(batch: seq<Item>, maxBatch: nat) {
    || (|batch| == 1 && batch[0].File?)
    || (0 < |batch| <= maxBatch && forall i :: 0 <= i < |batch| ==> batch[i].Buffer?)
  }

  lemma {:induction false} BatchIsBuffers(items: seq<Item>, from: nat, room: nat)
    requires from <= |items|
    ensures var n := BatchLength(items, from, room);
            && n <= room
            && (forall i :: from <= i < from + n ==> items[i].Buffer?)
            && (n < room ==> from + n == |items| || items[from + n].File?)
    decreases room
  {
    if room > 0 && from < |items| && items[from].Buffer? {
      BatchIsBuffers(items, from + 1, room - 1);
    }
  }

  /**
    Extracting operations until there are none left cuts the items into consecutive pieces, each once and in
    order: single files, and non-empty runs of at most `maxBatch` buffers.
  */
  lemma {:induction false} BatchesPartition(items: seq<Item>, from: nat, maxBatch: nat)
    requires from <= |items| && maxBatch > 0
    ensures Concat(Batches(items, from, maxBatch)) == items[from..]
    ensures AllBatches(Batches(items, from, maxBatch), maxBatch)
    decreases |items| - from
  {
    if from < |items| {
      var next := from + NextCount(items, from, maxBatch);
      var rest := Batches(items, next, maxBatch);
      BatchIsBuffers(items, from, maxBatch);
      BatchesPartition(items, next, maxBatch);
      assert items[from..] == items[from..next] + items[next..];
      ConcatFirst(items[from..next], rest);
    }
  }

  lemma ConcatFirst(batch: seq<Item>, rest: seq<seq<Item>>)
    ensures Concat([batch] + rest) == batch + Concat(rest)
  {
    assert ([batch] + rest)[1..] == rest;
  }

  predicate AllBatches(batches: seq<seq<Item>>, maxBatch: nat) {
    forall i :: 0 <= i < |batches| ==> IsBatch(batches[i], maxBatch)
  }

  lemma BatchMore(items: seq<Item>, from: nat, next: nat, room: nat)
    requires from < |items| && items[from].Buffer? && room > 0 && next == from + 1
    ensures BatchLength(items, from, room) == 1 + BatchLength(items, next, room - 1)
  {
  }

  /** The buffers of a gather write are collected up to an item, and their sizes added. */
  predicate Collected(items: seq<Item>, from: nat, to: nat, bufs: seq<Item>, total: nat) {
    from <= to <= |items| && bufs == items[from..to] && total == TotalSize(bufs)
  }

  lemma CollectMore(items: seq<Item>, from: nat, to: nat, next: nat, bufs: seq<Item>, total: nat)
    requires Collected(items, from, to, bufs, total) && to < |items| && next == to + 1
    ensures Collected(items, from, next, bufs + [items[to]], total + items[to].Size())
  {
    TotalMore(bufs, items[to]);
  }

  lemma TotalMore(items: seq<Item>, item: Item)
    ensures TotalSize(items + [item]) == TotalSize(items) + item.Size()
  {
    assert (items + [item])[..|items|] == items;
  }

  /** The size of items is the sum of the sizes of their parts, and nothing has no size. */
  lemma {:induction false} TotalConcat(a: seq<Item>, b: seq<Item>)
    ensures TotalSize(a + b) == TotalSize(a) + TotalSize(b) && TotalSize([]) == 0
    decreases |b|
  {
    if b == [] {
      assert a + b == a;
    } else {
      var n := |b| - 1;
      assert (a + b)[..|a + b| - 1] == a + b[..n];
      TotalConcat(a, b[..n]);
    }
  }

  function OperationSize(op: Operation): nat {
    match op
    case Trivial(_, total) => total
    case SendFile(file) => file.Size()
  }

  /** The sum over the operations of batches; an empty batch makes none. */
  function OperationSizes(batches: seq<seq<Item>>): nat {
    if batches == [] then 0
    else (if batches[0] == [] then 0 else OperationSize(OperationOf(batches[0]))) + OperationSizes(batches[1..])
  }

  lemma OperationsMore(batch: seq<Item>, rest: seq<seq<Item>>)
    requires batch != [] && (batch[0].File? ==> |batch| == 1)
    ensures OperationSizes([batch] + rest) == TotalSize(batch) + OperationSizes(rest)
  {
    assert ([batch] + rest)[1..] == rest;
    if batch[0].File? {
      TotalMore([], batch[0]);
      assert [] + [batch[0]] == batch;
    }
  }

  /** The operations of a group announce, all together, the size of its items. */
  lemma {:induction false} OperationsTotal(items: seq<Item>, from: nat, maxBatch: nat)
    requires from <= |items| && maxBatch > 0
    ensures OperationSizes(Batches(items, from, maxBatch)) == TotalSize(items[from..])
    decreases |items| - from
  {
    TotalConcat([], []);
    if from < |items| {
      var next := from + NextCount(items, from, maxBatch);
      var batch, rest := items[from..next], Batches(items, next, maxBatch);
      OperationsTotal(items, next, maxBatch);
      assert items[from..] == batch + items[next..];
      TotalConcat(batch, items[next..]);
      OperationsMore(batch, rest);
    }
  }

  class WriteGroupOutput {
    const maxBatch: nat
    var current: Option<Group>
    var index: nat
    var bufs: seq<Item>

    ghost predicate Valid()
      reads this
    {
      maxBatch > 0
    }

    constructor (maxIovLen: nat)
      requires maxIovLen > 0
      ensures Valid() && current == None && index == 0
      ensures maxBatch == if maxIovLen < 64 then maxIovLen else 64
    {
      maxBatch := if maxIovLen < 64 then maxIovLen else 64;
      current, index, bufs := None, 0, [];
    }

    method StartNextWriteGroup(g: Group)
      modifies this`current
      ensures current == Some(g)
    {
      current := Some(g);
    }

    /** The next operation and none at the end of the group, however far beyond it the index is. */
    method ExtractNextWriteOperation() returns (op: Option<Operation>)
      requires Valid() && current.Some?
      modifies this`index, this`bufs
      ensures var items := current.value.items;
              if old(index) >= |items| then op == None && index == old(index)
              else
                && index == old(index) + NextCount(items, old(index), maxBatch)
                && op == Some(OperationOf(items[old(index)..index]))
    {
      op := None;
      var items := current.value.items;
      if index < |items| {
        if items[index].Buffer? {
          var trivial := PrepareTrivial();
          op := Some(trivial);
        } else {
          op := Some(SendFile(items[index]));
          index := index + 1;
        }
      }
    }

    method PrepareTrivial() returns (op: Operation)
      requires Valid() && current.Some? && index < |current.value.items| && current.value.items[index].Buffer?
      modifies this`index, this`bufs
      ensures index == old(index) + NextCount(current.value.items, old(index), maxBatch)
      ensures op == OperationOf(current.value.items[old(index)..index])
    {
      bufs := [];
      var items := current.value.items;
      var total: nat := 0;
      ghost var from, room := index, maxBatch;
      while index < |items| && items[index].Buffer? && maxBatch > |bufs|
        invariant |bufs| + room == maxBatch && 0 <= room
        invariant Collected(items, from, index, bufs, total)
        invariant BatchLength(items, from, maxBatch) == |bufs| + BatchLength(items, index, room)
        decreases |items| - index
      {
        ghost var next := index + 1;
        BatchMore(items, index, next, room);
        CollectMore(items, from, index, next, bufs, total);
        bufs := bufs + [items[index]];
        total := total + items[index].Size();
        index := index + 1;
        room := room - 1;
      }
      op := Trivial(bufs, total);
    }

    /** The group failed: its callback hears of the error, and the item index stays where it is. */
    method FailWriteGroup(throws: bool) returns (invoked: seq<nat>)
      requires current.Some?
      modifies this`current, this`index
      ensures invoked == CallbackOf(old(current.value)) && current == None
      ensures index == if throws && invoked != [] then 0 else old(index)
    {
      invoked := CallbackOf(current.value);
      if throws && invoked != [] {
        index := 0;
      }
      current := None;
    }

    /** The group is written: its callback hears of success. */
    method InvokeSuccess() returns (invoked: seq<nat>)
      requires current.Some?
      modifies this`current
      ensures invoked == CallbackOf(old(current.value))
      ensures current == Some(old(current.value).(callback := None))
    {
      invoked := CallbackOf(current.value);
      current := Some(current.value.(callback := None));
    }

    method ResetWriteGroup()
      modifies this`current, this`index
      ensures current == None && index == 0
    {
      current, index := None, 0;
    }
  }
}
