# RESTinio in Dafny

A model of the parts of the RESTinio HTTP server (`MODULE2/restinio`) whose correctness is hard to see from the code,
and proofs about it.  `dafny verify dfyconfig.toml` checks everything.

1. **The response pipeline** (`Buffers`, `RequestIds`, `Pipeline`, `PipelineInvariant`, `PipelineSteps`,
   `PipelineTheorems`, `PipelineOutcomes`, `PipelineParts`, `PipelineProgress`, `PipelineRuns`, `Coordinator`,
   `OutputContext`, `Connection`).  Handlers append parts of pipelined responses in any order; the connection queues and
   merges them per request, cuts them into write operations and calls the after-write callbacks.  `Pipeline` is a state machine with histories (what was appended, handed to the
   socket, written, and which callbacks fired); `Coordinator`, `OutputContext` and `Connection` are the objects of the
   source, and every method of `HttpConnection` is one step of the machine.  The theorems hold in every state of every
   run, with operations that fail, callbacks that throw, and closing at any moment.
2. **The accept limiter** (`Limiter`, `LimiterTheorems`, `LimiterObjects`).  Accepting slots, the two counters, the stack
   of pending slots and the connection monitors, under every interleaving of their atomic steps.
3. **The parser combinators** (`Peg`, `PegInterpreter`, `PegLaws`, `PegRepeat`, `Digits`).  The clause interpreter over a mutable
   cursor refines parsing expression grammars; the number parsers, with the accumulator's overflow test as it is.
4. **Encoders and their inverses** (`TransferCodings`, `Chunked`, `ChunkedTheorems`, `Multipart`, `MultipartTheorems`,
   `Base64`); `ChunkedPipeline` joins the chunked builder with the pipeline.
5. **Fast forms of simple things** (`Utf8`, `PercentEncoding`, `PercentTheorems`, `Query`, `QueryTheorems`,
   `RequestTarget`, `HeaderString`, `HeaderReading`, `Strings`, `Sequences`).

## What turned out to be false

- Slots of the limiter leak.  An accept that is refused by the IP blocker, fails, or ends with an exception is counted
  as active and never uncounted.  `ActiveExact` gives the exact condition under which the counter is right,
  `AcceptsIffNotLost` the one under which the server can still accept, and `OneRefusalDeafens` a run that ends it.
- The 32-bit request ids wrap around.  While the live ids straddle zero, `get_by_req_id` finds nothing; `LookupExact`
  is an equivalence, and `LiveButRefused` a run after which every part for a live request is refused.
- The accumulator of the number parsers does not notice every overflow (`OverflowMissed`: 300 as an 8-bit number is 44).
  `ReportedIff` says for which digits an overflow is reported and `MissedIff` for which it is missed, and the result is
  exact if and only if the number fits (`ExactIffFits`).
- `repeat` restores the position after a failed iteration but not the target (`RepeatKeepsFailedItem`).  `CleanIff` says
  for which lists of items every repetition is clean, `SettledClean` gives a criterion that can be read off the grammar,
  and `RepeatSequenced` shows that items put into a sequence first are always repeated cleanly.
- A chunked response does not always announce its coding: only the first `Transfer-Encoding` field is looked at, for a
  substring (`NeverAnnounced`, `TwiceAnnounced`).  `AnnouncedIff` says for which fields the header is right.
- `init_write_if_necessary` demands that the coordinator is not closed.  After a group was finished, reading is resumed
  first, and the response to the next request may end the stream before the call (`PumpFindsEnd`); `PumpDemandIff` says
  exactly when the demand is met.
- Base64 text of no bytes is refused by the decoder (`RoundTrip`), and the validator lets texts through that do not
  consist of whole groups (`ValidNotWhole`); `InsideIff` says exactly when the decoder stays inside its text.
- The status line ends at the first line end in the header if and only if the reason phrase has none
  (`StatusLineExact`), and a header can be read back if and only if moreover its numbers fit into their digits and its
  fields are plain (`HeaderIff`).
- A callback is not told of success as soon as nothing in front of its part is left to write: the part may have no items
  and belong to a response that is not the front one (`EmptyPartWaits`).  `Progress` says exactly which callbacks are
  told.

## Reading the model

- A connection is single-threaded (its callbacks run on a strand), so one step is one callback.  After-write callbacks
  can re-enter the connection; the moment after such a callback is a phase of its own (`Finishing`), and so is the one
  after reading was resumed (`pumpDue`), in which the connection may already be closed.
- Whether an operation starts, succeeds or fails, and whether a callback throws, are parameters of the steps.  An
  aborted operation is one whose connection was closed before.
- Request ids are the numbers the code uses, modulo 2^32; runs may have any number of requests.  The table has fewer
  slots than there are ids.
- Moving from a `std::function` is taken to leave it empty, and negating the least value of a signed type to give that
  value mathematically.
- Numbers are read in a storage of any width and base, and their digits counted in eight bits; query and base64 text are bytes (`bv8`), other text is `char`.

## Model

| member | source | states |
|---|---|---|
| PipelineTheorems.PipelinedOrder | MODULE2/restinio/restinio/impl/connection.hpp:885-1105 | In every run what was written is a prefix of what was handed to the socket, and that a prefix of all responses in request order (section 6.3.2 of RFC 7230) |
| PipelineTheorems.NoOvertaking | MODULE2/restinio/restinio/impl/response_coordinator.hpp:370-406 | Once anything of response r or a later one was handed out, every response before r is complete |
| PipelineTheorems.NothingAfterClose | MODULE2/restinio/restinio/impl/response_coordinator.hpp:370-406 | After a final connection-close response was handed out, no later run ever hands out an item beyond it |
| PipelineTheorems.CallbackOnce | MODULE2/restinio/restinio/buffers.hpp:724-892 | Every callback is in exactly one place, held or invoked, and once there |
| PipelineTheorems.EveryCallbackAtEnd | MODULE2/restinio/restinio/impl/response_coordinator.hpp:415-444 | When the connection is over every callback that ever entered it was invoked exactly once |
| PipelineTheorems.SuccessMeansWritten | MODULE2/restinio/restinio/impl/write_group_output_ctx.hpp:282-330 | A callback that was told success belongs to an accepted part, and that part, and all before it in all responses, was written |
| PipelineOutcomes.FailureMeansClosed | MODULE2/restinio/restinio/impl/connection.hpp:1356-1460 | The callback of an accepted part is told of a failure only if the connection is closed |
| PipelineOutcomes.WrittenHeard | MODULE2/restinio/restinio/impl/write_group_output_ctx.hpp:291-330 | The callback of a group of which nothing is left to write is told of success, even if it then throws |
| PipelineOutcomes.RefusedNeverSucceeds | MODULE2/restinio/restinio/impl/connection.hpp:885-973 | The callback of a refused part is never told of success, in whatever run follows |
| PipelineOutcomes.NoSuccessAfterClose | MODULE2/restinio/restinio/impl/response_coordinator.hpp:370-406 | Callbacks that are told of success belong to responses up to the closing one |
| PipelineOutcomes.StepDebts | MODULE2/restinio/restinio/impl/connection.hpp:885-973 | Each part with a callback files one entry, which says for good whether it was accepted, for which response and up to which item |
| PipelineParts.AcceptedIff | MODULE2/restinio/restinio/impl/response_coordinator.hpp:323-361 | A part for a live request is accepted, and for that request, if and only if the connection is open, the stream not ended, the response not complete and the ids do not straddle the wrap-around |
| PipelineParts.ReachedComplete | MODULE2/restinio/restinio/impl/response_coordinator.hpp:323-361 | A complete response never changes again, whatever run follows |
| PipelineParts.ResumesIff | MODULE2/restinio/restinio/impl/connection.hpp:989-1056 | A group is started with reading to be resumed if and only if the table was full and its context left it |
| PipelineTheorems.NoLostWrite | MODULE2/restinio/restinio/impl/connection.hpp:943-1056 | An open, idle connection has nothing at the front of its queue that could be written |
| PipelineTheorems.NoStuckResponse | MODULE2/restinio/restinio/impl/response_coordinator.hpp:323-406 | No queued response is both final and empty |
| PipelineTheorems.NoLostRead | MODULE2/restinio/restinio/impl/connection.hpp:1251-1308 | Reading paused for a full table is resumed by the group in transmission once there is room |
| PipelineTheorems.StartsAtZero | MODULE2/restinio/restinio/impl/connection.hpp:1356-1391 | A group is only ever started at its first item, although a failed group does not reset the index |
| PipelineProgress.Drain | MODULE2/restinio/restinio/impl/connection.hpp:1075-1105 | From any live state, successful operations alone bring the connection to rest with everything written that may be, and keep what is known of every callback |
| PipelineProgress.Progress | MODULE2/restinio/restinio/impl/connection.hpp:977-1056 | The same from every state a run reaches: all responses up to the front one, or up to the closing one, get written; and the callback of an accepted part is told of success if and only if its response is one of them |
| PipelineProgress.DueHeard | MODULE2/restinio/restinio/impl/write_group_output_ctx.hpp:282-330 | A part that ends with an item is among them as soon as that item is written |
| PipelineRuns.EmptyPartWaits | MODULE2/restinio/restinio/impl/connection.hpp:977-1056 | A run at rest in which everything up to a part was written and its callback still waits: the part has no items and its response is not the front one |
| PipelineSteps.StepKeeps | MODULE2/restinio/restinio/impl/connection.hpp:845-1460 | Every step keeps the invariant: ids in order, order of items, callback ledger, index and liveness |
| PipelineSteps.RunKeeps | MODULE2/restinio/restinio/impl/connection.hpp:845-1460 | Every run keeps the invariant |
| RequestIds.LookupExact | MODULE2/restinio/restinio/impl/response_coordinator.hpp:195-206 | Looking up an id finds the context with that id exactly when it is live, if and only if the live ids do not straddle the wrap-around |
| PipelineRuns.LiveButRefused | MODULE2/restinio/restinio/impl/response_coordinator.hpp:195-206 | A run after which a request is live and every part of its response is refused |
| PipelineRuns.ManyAnswered | MODULE2/restinio/restinio/impl/connection.hpp:626-712 | Any number of requests can be read and answered on one connection, also beyond 2^32 |
| PipelineRuns.PumpDemandIff | MODULE2/restinio/restinio/impl/connection.hpp:977-986 | After a group was finished, the coordinator is still open when it is asked for the next one if and only if no part that came in between ended the stream |
| PipelineRuns.PumpFindsEnd | MODULE2/restinio/restinio/impl/connection.hpp:1251-1308 | A run in which it is closed |
| Buffers.EnqueueKeepsItems | MODULE2/restinio/restinio/impl/response_coordinator.hpp:61-77 | Queueing a group, merged or not, adds its items at the end and changes nothing else about the items |
| Buffers.EnqueueKeepsDebts | MODULE2/restinio/restinio/impl/response_coordinator.hpp:61-77 | Merging neither loses nor duplicates nor moves the point at which a callback is due |
| Buffers.EnqueueKeepsMarks | MODULE2/restinio/restinio/impl/response_coordinator.hpp:61-77 | Merging neither loses nor moves a status line |
| Buffers.EnqueueCompact | MODULE2/restinio/restinio/impl/response_coordinator.hpp:61-77 | Groups that could be merged never stand side by side in a queue |
| Buffers.MergeConserves | MODULE2/restinio/restinio/buffers.hpp:880-892 | Merging two groups keeps what is owed to whom, and when, if and only if the first has no callback |
| Buffers.WriteGroup.Moved | MODULE2/restinio/restinio/buffers.hpp:724-731 | Moving transfers items, status line and callback and leaves nothing behind |
| Buffers.WriteGroup.SetStatusLineSize | MODULE2/restinio/restinio/buffers.hpp:762-790 | The size is accepted if and only if it is zero or the first item is a buffer of at least that size; else the error says which of the three conditions fails |
| Buffers.WriteGroup.InvokeAfterWriteNotificatorIfExists | MODULE2/restinio/restinio/buffers.hpp:814-827 | The callback is invoked and gone |
| Buffers.WriteGroup.MoveOut | MODULE2/restinio/restinio/impl/response_coordinator.hpp:61-77 | A group that is queued is left empty and without callback |
| Buffers.WriteGroup.MergeWith | MODULE2/restinio/restinio/buffers.hpp:880-892 | The items are appended, the callback is taken over and the other group has none left |
| Buffers.WriteGroup.Destroy | MODULE2/restinio/restinio/buffers.hpp:746-756 | A group that is destroyed still invokes its callback |
| Coordinator.ContextTable.GetByRequestId | MODULE2/restinio/restinio/impl/response_coordinator.hpp:195-206 | The ring slot of the looked-up position, for any first index and capacity |
| Coordinator.ContextTable.Push | MODULE2/restinio/restinio/impl/response_coordinator.hpp:209-227 | The ring is a queue: a new context comes last, without groups although the slot is not cleared; refused when full |
| Coordinator.ContextTable.PopNonchecked | MODULE2/restinio/restinio/impl/response_coordinator.hpp:251-260 | The oldest context leaves, and its slot is left without groups |
| Coordinator.ResponseCoordinator.RegisterNewRequest | MODULE2/restinio/restinio/impl/response_coordinator.hpp:314-320 | Ids are given out consecutively modulo 2^32; a full table refuses and changes nothing |
| Coordinator.ResponseCoordinator.AppendResponse | MODULE2/restinio/restinio/impl/response_coordinator.hpp:323-361 | The contents of the group move into the context of its request; for unknown and complete requests nothing changes but that the callback is invoked |
| Coordinator.ResponseCoordinator.PopReadyBuffers | MODULE2/restinio/restinio/impl/response_coordinator.hpp:370-406 | The first group of the front context is handed out, a complete context leaves, and the coordinator closes with a closing response |
| Coordinator.ResponseCoordinator.Reset | MODULE2/restinio/restinio/impl/response_coordinator.hpp:415-444 | The table is drained and the callbacks of all queued groups are invoked in order |
| OutputContext.BatchesPartition | MODULE2/restinio/restinio/impl/write_group_output_ctx.hpp:252-279 | Extracting operations cuts the items into consecutive pieces, each item once: single files, and non-empty runs of at most the maximum of buffers |
| OutputContext.BatchIsBuffers | MODULE2/restinio/restinio/impl/write_group_output_ctx.hpp:333-354 | A batch is as long as the maximum and the next file allow |
| OutputContext.OperationsTotal | MODULE2/restinio/restinio/impl/write_group_output_ctx.hpp:252-354 | The sizes that the operations of a group announce add up to the size of its items |
| OutputContext.WriteGroupOutput.ExtractNextWriteOperation | MODULE2/restinio/restinio/impl/write_group_output_ctx.hpp:252-279 | The next operation carries the next batch and its exact total size; none at the end of the group |
| OutputContext.WriteGroupOutput.PrepareTrivial | MODULE2/restinio/restinio/impl/write_group_output_ctx.hpp:333-354 | The batching loop finds the longest batch and its size |
| OutputContext.WriteGroupOutput.FailWriteGroup | MODULE2/restinio/restinio/impl/write_group_output_ctx.hpp:282-290 | The callback hears of the failure, the group is gone, the index stays unless the callback throws |
| OutputContext.WriteGroupOutput.constructor | MODULE2/restinio/restinio/impl/write_group_output_ctx.hpp:83-99 | A batch has at most 64 buffers and no more than the system allows |
| Connection.HttpConnection.ReadRequest | MODULE2/restinio/restinio/impl/connection.hpp:626-712 | The objects make the machine's step for a request that was read, which gets the next id, and close the connection when there is no room for it |
| Connection.HttpConnection.WriteResponseParts | MODULE2/restinio/restinio/impl/connection.hpp:885-973 | The objects make the machine's step for an appended part; the group loses its callback to the queue or it is invoked; an error exactly for an unknown or complete request |
| Connection.HttpConnection.DispatchResponseParts | MODULE2/restinio/restinio/impl/connection.hpp:845-882 | The same, and a part that cannot be appended closes the connection |
| Connection.HttpConnection.InitWrite | MODULE2/restinio/restinio/impl/connection.hpp:989-1056 | The next ready group is started, with reading to be resumed if the table was full |
| Connection.HttpConnection.HandleCurrentWriteCtx | MODULE2/restinio/restinio/impl/connection.hpp:1075-1167 | The machine's step: the next operation of the group, or the end of the group; and closing under an operation whose time limit cannot be set; the callbacks invoked are those that the machine adds to its history, in order |
| Connection.HttpConnection.AfterWriteFailed | MODULE2/restinio/restinio/impl/connection.hpp:1356-1391 | The machine's step: the connection is closed and the group failed, with the callbacks of the queue invoked before that of the group |
| Connection.HttpConnection.FinishHandling | MODULE2/restinio/restinio/impl/connection.hpp:1251-1308 | The machine's step: the group is let go, the connection closed behind a closing response, or reading resumed |
| Connection.HttpConnection.InitWriteIfNecessary | MODULE2/restinio/restinio/impl/connection.hpp:977-986 | The machine's step: the next group is started if none is in transmission |
| Connection.HttpConnection.Close | MODULE2/restinio/restinio/impl/connection.hpp:1397-1460 | The machine's step: the socket is closed and the table drained, its callbacks invoked in order |
| LimiterTheorems.NoLostWakeup | MODULE2/restinio/restinio/connection_count_limiter.hpp:188-259 | Under every interleaving, while slots are pending there are no more free places than attempts on their way |
| LimiterTheorems.Accounting | MODULE2/restinio/restinio/connection_count_limiter.hpp:165-259 | The limit is kept, connections are the live monitors, active accepts are those under way plus those that failed, and the stack fits its capacity |
| LimiterTheorems.ActiveExact | MODULE2/restinio/restinio/impl/acceptor.hpp:391-517 | The active accepts are those under way if and only if none was refused or failed |
| LimiterTheorems.AcceptsIffNotLost | MODULE2/restinio/restinio/impl/acceptor.hpp:325-517 | In every reachable state a new accept is possible if and only if fewer accepts failed than there are places and some slot is alive |
| LimiterTheorems.GrantedIff | MODULE2/restinio/restinio/connection_count_limiter.hpp:235-259 | A slot may accept at once if and only if accepts under way, failed accepts and live connections together are fewer than the limit; else it is stacked |
| LimiterTheorems.WakesLatest | MODULE2/restinio/restinio/connection_count_limiter.hpp:201-228 | A connection that ends wakes the slot that was stacked last |
| LimiterTheorems.Deaf | MODULE2/restinio/restinio/connection_count_limiter.hpp:235-259 | With as many failures as places nothing is ever accepted again |
| LimiterTheorems.OneRefusalDeafens | MODULE2/restinio/restinio/impl/acceptor.hpp:391-420 | With one place, one refused connection leads to a state in which nothing can be accepted any more |
| Limiter.StepKeeps | MODULE2/restinio/restinio/connection_count_limiter.hpp:188-259 | Every atomic step keeps the counts, the stack of distinct pending slots and the bound on free places |
| LimiterObjects.ActualLimiter.AcceptNext | MODULE2/restinio/restinio/connection_count_limiter.hpp:235-259 | The counters are stepped, and the accept is called at once or the slot stacked |
| LimiterObjects.ActualLimiter.DecrementParallelConnections | MODULE2/restinio/restinio/connection_count_limiter.hpp:201-228 | A connection less, and the slot on top of the stack scheduled if there is one |
| LimiterObjects.LifetimeMonitor.Moved | MODULE2/restinio/restinio/connection_count_limiter.hpp:373-421 | Moving a monitor leaves the source without limiter and the counters alone |
| LimiterObjects.LifetimeMonitor.Assign | MODULE2/restinio/restinio/connection_count_limiter.hpp:373-421 | Assigning lets go of the old limiter once and takes over the other's |
| LimiterObjects.LifetimeMonitor.Destroy | MODULE2/restinio/restinio/connection_count_limiter.hpp:373-421 | A monitor counts down once, and not at all if it was moved from |
| PegInterpreter.TryProcess | MODULE2/restinio/restinio/helpers/easy_parser.hpp:1472-2115 | The interpreter over the mutable cursor computes what the grammar semantics says, for every clause: error, position and target |
| PegInterpreter.TryParseProducer | MODULE2/restinio/restinio/helpers/easy_parser.hpp:2006-2165 | The same for producers |
| PegInterpreter.TryAlternatives | MODULE2/restinio/restinio/helpers/easy_parser.hpp:1633-1685 | The loop over the options is ordered choice with the cut |
| PegInterpreter.TrySequence | MODULE2/restinio/restinio/helpers/easy_parser.hpp:1906-1944 | All clauses in order, or position and target as before |
| PegInterpreter.TryRepeat | MODULE2/restinio/restinio/helpers/easy_parser.hpp:2058-2115 | The loop of the repetition, with what it does to the target |
| PegInterpreter.EnsureNoRemainingContent | MODULE2/restinio/restinio/helpers/easy_parser.hpp:1564-1582 | No error if and only if only spaces remain, and else the position of the first other character |
| PegInterpreter.TryParse | MODULE2/restinio/restinio/helpers/easy_parser.hpp:5039-5066 | The value if and only if the producer matches all of the text without its trailing spaces |
| PegInterpreter.StripLeavesNoSpace | MODULE2/restinio/restinio/helpers/easy_parser.hpp:1585-1600 | Spaces at the end are removed, all of them and nothing else |
| PegLaws.FailureRestores | MODULE2/restinio/restinio/helpers/easy_parser.hpp:1633-2115 | A failed clause leaves the position, and all but a repetition the target, as they were; lookaheads always do |
| PegLaws.TargetIrrelevant | MODULE2/restinio/restinio/helpers/easy_parser.hpp:1472-2115 | What is accepted, how far, and the error do not depend on the target |
| PegLaws.ChooseFirst | MODULE2/restinio/restinio/helpers/easy_parser.hpp:1633-1685 | Alternatives succeed if and only if some option accepts with all before it failing without a cut, and then give its outcome |
| PegLaws.CutEndsNearest | MODULE2/restinio/restinio/helpers/easy_parser.hpp:1959-1987 | A forced clause that fails ends the nearest alternatives only; the enclosing ones go on |
| PegLaws.CutStops | MODULE2/restinio/restinio/helpers/easy_parser.hpp:1959-1987 | Only forced clauses, sequences and producers can carry a cut outwards |
| PegLaws.SequenceFlattens | MODULE2/restinio/restinio/helpers/easy_parser.hpp:1906-1944 | Nesting of sequences does not matter |
| PegLaws.SequenceIs | MODULE2/restinio/restinio/helpers/easy_parser.hpp:1906-1944 | A sequence is its first clause and then, from there, the others; a failure anywhere leaves position and target as before |
| PegLaws.LookaheadIff | MODULE2/restinio/restinio/helpers/easy_parser.hpp:1777-1881 | A positive lookahead accepts if and only if the sequence of its clauses does, whatever the targets, and a negative one if and only if it does not; the errors |
| PegLaws.ForcedIsSequence | MODULE2/restinio/restinio/helpers/easy_parser.hpp:1959-1987 | A forced clause that succeeds is the sequence of its clauses; one that fails reports so at the position it started from |
| PegLaws.MaybeIsChoice | MODULE2/restinio/restinio/helpers/easy_parser.hpp:1714-1749 | An optional clause always accepts, and is the choice between its sequence and nothing if and only if that is not cut |
| PegLaws.SymbolIff | MODULE2/restinio/restinio/helpers/easy_parser.hpp:2130-2165 | A symbol is taken if and only if there is one that the predicate accepts; which error else |
| PegLaws.ProduceIsSequence | MODULE2/restinio/restinio/helpers/easy_parser.hpp:2009-2050 | The value produced is the target its clauses, in sequence, make of the initial one |
| PegLaws.ConsumeIsTransform | MODULE2/restinio/restinio/helpers/easy_parser.hpp:1472-1520 | Producing from one consumed value is transforming it into the initial value with that value put in |
| PegLaws.TransformTwice | MODULE2/restinio/restinio/helpers/easy_parser.hpp:1179-1220 | Two transformations are the one that does both, and one that leaves the value alone changes nothing |
| PegLaws.AndIsNotNot | MODULE2/restinio/restinio/helpers/easy_parser.hpp:1777-1881 | The positive lookahead is the negative one twice |
| PegLaws.RepeatGreedy | MODULE2/restinio/restinio/helpers/easy_parser.hpp:2058-2115 | A repetition accepts if and only if the minimum can be reached, and takes the greatest number of iterations up to the maximum; the error else |
| PegRepeat.CleanIff | MODULE2/restinio/restinio/helpers/easy_parser.hpp:2058-2115 | All repetitions of some items, on every text, leave the target of their successful iterations if and only if the items leave the target alone whenever they fail |
| PegRepeat.SettledClean | MODULE2/restinio/restinio/helpers/easy_parser.hpp:2058-2115 | A criterion on the grammar: clean when nothing can fail behind a clause that touches the target, and for every single clause that is not a repetition |
| PegRepeat.RepeatSequenced | MODULE2/restinio/restinio/helpers/easy_parser.hpp:1906-2115 | Repeating a sequence of the items instead gives the same error and text, and always the target of the successful iterations |
| PegLaws.RepeatOnceIsMaybe | MODULE2/restinio/restinio/helpers/easy_parser.hpp:1714-1749 | One optional iteration matches the text an optional clause matches; exactly when the targets agree |
| PegLaws.RepeatKeepsFailedItem | MODULE2/restinio/restinio/helpers/easy_parser.hpp:2058-2115 | A failed iteration whose effect on the target stays |
| Digits.FitsExactly | MODULE2/restinio/restinio/impl/overflow_controlled_integer_accumulator.hpp:155-172 | A number that fits is accumulated exactly and never reported, for every base and width |
| Digits.FeedCongruent | MODULE2/restinio/restinio/impl/overflow_controlled_integer_accumulator.hpp:155-187 | What is not reported is the exact value modulo the storage width, and in range |
| Digits.ExactIffFits | MODULE2/restinio/restinio/impl/overflow_controlled_integer_accumulator.hpp:155-187 | The accumulator gives the number that was written if and only if it fits |
| Digits.ReportedIff | MODULE2/restinio/restinio/impl/overflow_controlled_integer_accumulator.hpp:155-179 | An overflow is reported if and only if with some digit the value modulo the width gets smaller, or too large for a signed type |
| Digits.MissedIff | MODULE2/restinio/restinio/impl/overflow_controlled_integer_accumulator.hpp:155-187 | A wrong value comes out unreported if and only if the number does not fit and no digit does that |
| Digits.ReportsAreTrue | MODULE2/restinio/restinio/impl/overflow_controlled_integer_accumulator.hpp:174-179 | Digits that do that belong to a number that does not fit |
| Digits.OverflowMissed | MODULE2/restinio/restinio/impl/overflow_controlled_integer_accumulator.hpp:155-172 | An overflow that is not reported |
| Digits.Accumulator.NextDigit | MODULE2/restinio/restinio/impl/overflow_controlled_integer_accumulator.hpp:155-172 | The object follows the digits fed to it and never forgets an overflow |
| Digits.LeadingIs | MODULE2/restinio/restinio/helpers/easy_parser.hpp:2434-2480 | The leading digits are the longest run of digits up to the maximum, and nothing else is |
| Digits.TryParseDigits | MODULE2/restinio/restinio/helpers/easy_parser.hpp:2434-2556 | A success takes exactly the leading digits up to the maximum, which is reached once around the 8-bit count if it is not positive, and at least the minimum; the errors and their positions |
| Digits.TryParseSigned | MODULE2/restinio/restinio/helpers/easy_parser.hpp:2696-2794 | The same with a sign |
| Digits.UnsignedRoundTrip | MODULE2/restinio/restinio/helpers/easy_parser.hpp:2434-2480 | A number that fits, written in decimal within any text, is read back |
| Digits.SignedRoundTrip | MODULE2/restinio/restinio/helpers/easy_parser.hpp:2696-2794 | Every value of a signed type is read back, the least one included, and positive ones also behind a plus sign |
| Digits.NumberIff | MODULE2/restinio/restinio/helpers/easy_parser.hpp:2434-2556 | A number is read if and only if there are at least the minimum of digits, up to the maximum, and no overflow is noticed; which error at which position else |
| Digits.HexDigitIff | MODULE2/restinio/restinio/helpers/easy_parser.hpp:693-708 | The digits and their values, of both cases |
| ChunkedTheorems.ChunkedRoundTrip | MODULE2/restinio/restinio/message_builders.hpp:656-860 | For any sequence of appended chunks and flushes ended by done: one header, and then a body that a decoder after section 4.1 of RFC 7230 maps to exactly the non-empty chunks, with nothing behind the terminator |
| ChunkedTheorems.ChunkedParts | MODULE2/restinio/restinio/message_builders.hpp:723-760 | The last part and no other is final, only the first has a status line, and it fits |
| ChunkedTheorems.ChunkedCallbacks | MODULE2/restinio/restinio/message_builders.hpp:680-760 | Every callback given with a flush comes out with one part, in order, behind the chunks that were given before it |
| ChunkedTheorems.DoneCallback | MODULE2/restinio/restinio/message_builders.hpp:700-760 | The callback given with done comes out behind everything |
| ChunkedTheorems.OpsStream | MODULE2/restinio/restinio/message_builders.hpp:656-760 | Before done, the wire always holds the header and the coded chunks of a prefix of what was given |
| Chunked.DecodeAll | MODULE2/restinio/restinio/message_builders.hpp:791-860 | The decoder gives back coded chunks with their borders in front of anything it can decode |
| Chunked.BodyBytes | MODULE2/restinio/restinio/message_builders.hpp:791-860 | Chunk ends written late, with the next size or at the end, still make coded chunks |
| Chunked.HexTextIs | MODULE2/restinio/restinio/message_builders.hpp:791-860 | Sizes are written in upper-case hexadecimal without leading zeros |
| TransferCodings.AnnouncedIff | MODULE2/restinio/restinio/message_builders.hpp:762-789 | For which fields the header that is sent has chunked as its last transfer coding, and only there (section 3.3.1 of RFC 7230) |
| TransferCodings.AnnouncedKeeps | MODULE2/restinio/restinio/message_builders.hpp:762-789 | Everything else in the header stays: no field is lost or moved, one is added only if there was none, and only the value of the first may be extended |
| TransferCodings.NeverAnnounced | MODULE2/restinio/restinio/message_builders.hpp:762-789 | A field for which the chunked coding is not announced |
| TransferCodings.TwiceAnnounced | MODULE2/restinio/restinio/message_builders.hpp:762-789 | A field for which it is announced twice |
| ChunkedPipeline.ResponseIs | MODULE2/restinio/restinio/impl/connection.hpp:885-973 | In any run a response consists of the parts accepted for it, in order, whatever is mixed between them |
| ChunkedPipeline.AppendedChunked | MODULE2/restinio/restinio/message_builders.hpp:656-860 | In any run that appends the parts of a finished builder to a response, it is one header and one body that decodes to the chunks |
| ChunkedPipeline.WrittenChunked | MODULE2/restinio/restinio/message_builders.hpp:700-760 | And when the callback of its last part hears of success, all of it was written behind the responses before |
| Chunked.ChunkedResponseBuilder.Finish | MODULE2/restinio/restinio/message_builders.hpp:700-720 | The first call sends all that is left with the terminator; a second one is refused |
| Chunked.ChunkedResponseBuilder.SendReadyData | MODULE2/restinio/restinio/message_builders.hpp:723-760 | The header goes out once, and an empty part only for its callback |
| Chunked.ChunkedResponseBuilder.CreateBufs | MODULE2/restinio/restinio/message_builders.hpp:791-860 | The loop over the chunks makes the specified buffers and empties the list |
| Multipart.CheckBoundaryValue | MODULE2/restinio/restinio/helpers/multipart_body.hpp:455-475 | Accepts exactly the boundaries of section 5.1.1 of RFC 2046 |
| Multipart.SplitMultipartBody | MODULE2/restinio/restinio/helpers/multipart_body.hpp:70-133 | The search loop computes the specified parts, and none when the closing delimiter is missing |
| MultipartTheorems.SplitIff | MODULE2/restinio/restinio/helpers/multipart_body.hpp:70-133 | Parts are found if and only if the body is a preamble, these parts each up to the first delimiter, the closing delimiter and an epilogue |
| MultipartTheorems.MultipartRoundTrip | MODULE2/restinio/restinio/helpers/multipart_body.hpp:70-133 | For a legal boundary, joined parts that do not contain the delimiter are split back, for any preamble line without it and any epilogue |
| MultipartTheorems.MultipartSound | MODULE2/restinio/restinio/helpers/multipart_body.hpp:70-133 | For a legal boundary, the parts found do not contain the delimiter and make up the body with it |
| MultipartTheorems.DelimitedIffFree | MODULE2/restinio/restinio/helpers/multipart_body.hpp:546-552 | A delimiter without line ends ends every part where it should if and only if no part contains it |
| Base64.IsValidBase64String | MODULE2/restinio/restinio/utils/base64.hpp:43-107 | The state machine accepts exactly texts of at least four characters of the alphabet with at most two paddings at the end |
| Base64.EncodeBytes | MODULE2/restinio/restinio/utils/base64.hpp:122-175 | The loop and the two endings encode group by group |
| Base64.TryDecode | MODULE2/restinio/restinio/utils/base64.hpp:183-245 | The loop decodes group by group what is valid, refuses the rest, and reads beyond the end of what is not made of whole groups |
| Base64.EncodeLength | MODULE2/restinio/restinio/utils/base64.hpp:122-175 | Four characters for every three bytes begun |
| Base64.RoundTrip | MODULE2/restinio/restinio/utils/base64.hpp:122-245 | Decoding an encoded string gives it back if and only if it is not empty |
| Base64.EncodeDecode | MODULE2/restinio/restinio/utils/base64.hpp:122-245 | Encoding a decoded text gives it back if and only if it is canonical (section 3.5 of RFC 4648) |
| Base64.TestVectors | MODULE2/restinio/restinio/utils/base64.hpp:122-175 | The alphabet and the order of the bits are those of section 10 of RFC 4648 |
| Base64.AlphabetIs | MODULE2/restinio/restinio/utils/base64_lut.ipp:55-64 | The alphabet is that of section 4 of RFC 4648 |
| Base64.InsideIff | MODULE2/restinio/restinio/utils/base64.hpp:183-245 | Decoding stays inside the text if and only if it is refused or its length is a multiple of four |
| Base64.ValidNotWhole | MODULE2/restinio/restinio/utils/base64.hpp:43-107 | The validator accepts a text that is not made of whole groups |
| Utf8.AcceptsIffUtf8 | MODULE2/restinio/restinio/utils/utf8_checker.hpp:39-192 | The byte-wise check accepts exactly the strings of section 4 of RFC 3629: no overlong forms, surrogates, or five- and six-byte sequences |
| Utf8.Utf8Checker.ProcessByte | MODULE2/restinio/restinio/utils/utf8_checker.hpp:39-113 | The object steps the check |
| PercentEncoding.InplaceUnescape | MODULE2/restinio/restinio/utils/percent_encoding.hpp:239-319 | Overwriting a text while it is being read gives what unescaping a copy gives, result or failure, and touches nothing outside |
| PercentTheorems.UnescapeIff | MODULE2/restinio/restinio/utils/percent_encoding.hpp:239-319 | A text is unescaped to given bytes if and only if it is one of their encodings, each byte written as itself where that is allowed, as a percent sign and two digits of either case, or a space as a plus sign; and the bytes are UTF-8 |
| PercentTheorems.EncodingPrefix | MODULE2/restinio/restinio/utils/percent_encoding.hpp:239-319 | No encoding of some bytes is a proper prefix of another of them |
| PercentTheorems.FailureExplained | MODULE2/restinio/restinio/utils/percent_encoding.hpp:239-319 | A failure is explained: the text before it is an encoding, and what follows cannot go on, for the reason and at the position that are reported |
| PercentEncoding.TakeChar | MODULE2/restinio/restinio/utils/percent_encoding.hpp:251-311 | The body of the loop: which character, how much text, or which failure where |
| Query.TryParseQuery | MODULE2/restinio/restinio/uri_helpers.hpp:395-496 | Parsing and unescaping in one buffer gives the tag, pairs or failure that splitting an untouched copy and then unescaping gives, with all views inside the buffer |
| Query.UnescapePairInplace | MODULE2/restinio/restinio/uri_helpers.hpp:465-485 | Name and value are unescaped where they stand, each without touching the other or anything else |
| Query.LaidApart | MODULE2/restinio/restinio/uri_helpers.hpp:486-490 | The views returned never overlap |
| Query.NextIs | MODULE2/restinio/restinio/uri_helpers.hpp:194-223 | The search finds the first separator or equal sign, and the end if there is none |
| QueryTheorems.SliceJoined | MODULE2/restinio/restinio/uri_helpers.hpp:420-496 | Names without equal signs and values without separators, joined, are split back |
| QueryTheorems.SliceSound | MODULE2/restinio/restinio/uri_helpers.hpp:420-496 | Slices and delimiters always make up the query again, and what is left over has no equal sign |
| QueryTheorems.ParseTagIff | MODULE2/restinio/restinio/uri_helpers.hpp:423-456 | The result is a tag if and only if the query is not empty, has no equal sign and is an encoding of that tag, in UTF-8 |
| QueryTheorems.ParsePairsIff | MODULE2/restinio/restinio/uri_helpers.hpp:395-496 | The result is these pairs if and only if every slice has an equal sign and the slices are encodings of the pairs, in UTF-8 |
| QueryTheorems.ParseMissingIff | MODULE2/restinio/restinio/uri_helpers.hpp:395-496 | A missing equal sign is reported if and only if a slice has none and all before it can be unescaped |
| QueryTheorems.MissingIs | MODULE2/restinio/restinio/uri_helpers.hpp:420-496 | The position reported is the start of a slice, with no equal sign from there on |
| QueryTheorems.ParseRoundTrip | MODULE2/restinio/restinio/uri_helpers.hpp:395-496 | For any traits and any encodings of the pairs, joined, the pairs are parsed back if and only if all are UTF-8 and the encodings contain no delimiter |
| RequestTarget.PiecesMakeWhole | MODULE2/restinio/restinio/http_headers.hpp:1892-1978 | A target appended in any pieces has the same text and separator positions as one set at once |
| RequestTarget.SplitComposes | MODULE2/restinio/restinio/http_headers.hpp:1912-1949 | Path, query and fragment with their separators make up the target, and are as section 3 of RFC 3986 has them |
| RequestTarget.ComposeSplits | MODULE2/restinio/restinio/http_headers.hpp:1912-1949 | Parts come back from the target they make up if and only if they are well formed |
| RequestTarget.RequestHeader.AppendRequestTarget | MODULE2/restinio/restinio/http_headers.hpp:1953-1978 | One piece more, with the separators as for the whole |
| RequestTarget.RequestHeader.Query | MODULE2/restinio/restinio/http_headers.hpp:1923-1932 | The view is the query part, and empty when there is none |
| HeaderString.HeaderFits | MODULE2/restinio/restinio/impl/header_helpers.hpp:44-153 | For any fields and any 64-bit content length the header is no longer than the size reserved |
| HeaderString.ApproxBufferSize | MODULE2/restinio/restinio/impl/header_helpers.hpp:44-60 | The loop computes that size |
| HeaderString.CreateHeaderString | MODULE2/restinio/restinio/impl/header_helpers.hpp:67-153 | The text is the status line and the fields in order |
| HeaderReading.HeaderIff | MODULE2/restinio/restinio/impl/header_helpers.hpp:67-153 | A reader after section 3 of RFC 7230 gets version, status, reason, connection option, content length and all fields back, and the body behind them, if and only if the numbers fit into their digits, the reason has no line end and the fields are plain |
| HeaderReading.FieldsIff | MODULE2/restinio/restinio/impl/header_helpers.hpp:140-153 | Fields come back if and only if no part of them has a line end and no name a separator |
| HeaderReading.LengthBack | MODULE2/restinio/restinio/impl/header_helpers.hpp:120-140 | The content length that is read back is the number that was written |
| HeaderString.StatusLineExact | MODULE2/restinio/restinio/message_builders.hpp:210-215 | The computed size is that of the status line and always accepted; it ends at the first line end if and only if the reason phrase has none |

## Left out

- The read side of a connection, timeouts and upgrades: they rest on a foreign HTTP parser and on timers; a request that was read is a step.
- Sockets, TLS, executors and thread pools: foreign libraries; only atomic steps and the outcomes of operations are modelled.
- Routers and regular expressions: their meaning is that of the engines behind them.
- Response builders other than the chunked one: their output is one header and one body, and adds only easy members.
- Producers for text fragments without regard to case, containers and other conversions of the parser: more of the same single-character producers.
- Texts of error messages and logging.
- Commas within quoted parameters of a transfer coding: list elements are taken to end at every comma.
- Chunks that are files: the size of a chunk is only defined for buffers in the source.
- The escaping function of the source: its format of a negative `char` depends on the formatting library; `IsEncoding` are all encodings that can be unescaped, those of section 2.1 of RFC 3986 among them.
- Memory reservation by strings and vectors, except for the header size and the pending stack.
- The order in which nested callbacks of a drained table see each other's effects: callbacks are invoked in queue order.
