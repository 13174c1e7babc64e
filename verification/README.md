# A verified model of flowpipeline

flowpipeline is a toolkit of segments that read, filter, annotate, aggregate and export network flows. Segments are
goroutines joined by channels; most wrap a library, but some hold state machines or algorithms of their own. This
project models those in Dafny and proves what they promise. `dafny verify dfyconfig.toml` checks everything.

| files | what they model |
|---|---|
| `FilterSyntax`, `FilterMeaning`, `FilterVisitor`, `FlowFilterSegment`, `FilterRuns`, `FilterFields` | the filter evaluator, which writes its results into the nodes of a tree that is reused for every flow, and the flowfilter segment around it |
| `FlowCacheSpec`, `FlowExporter`, `AggregateCache`, `FlowCacheLaws` | the two keyed flow caches with FIN, inactive and active expiry |
| `PipelineChain`, `PipelineWiring`, `Branch`, `PipelineLaws` | goroutines on unbuffered channels: a chain of any number of stages, and three such chains inside a branch |
| `TopTalkerSpec`, `TopTalkers`, `NestedMetrics`, `TopTalkerLaws`, `NestedLaws` | sliding-window databases with garbage collection, and the nested filters that feed them |
| `DiskBuffer`, `DiskBufferLaws` | the disk buffer's decider, workers, watchdogs, forwarding goroutine, wait group and stop channels |
| `BgpPaths`, `PathPairs` | AS paths assembled from slices that share memory, and their export edge by edge |
| `ListText`, `Timestamps` | the text round trip of list columns, and time stamps filled from other units |

Code that changes state step by step is a class or a method with loops. It is proved equal to a function on values
(a tree's answer, a cache, a record's tick, a path), and the promises are proved about these functions: over every
tree, every run, every interleaving. Where a function only computes, a law says what it computes in other terms: the
fields of a flow, the events of a run, the messages that were accepted. Concurrency is a step system: one step is
what one goroutine does alone, or two that meet on an unbuffered channel, and a theorem about reachable states holds
in every interleaving.

## What the proofs show about the code

- A `passes-through` match writes nothing when its list is longer than the flow's AS path or the path is empty
  (`segments/filter/flowfilter/visitor.go:404-414`), so the answer can be the one of an earlier flow. For arbitrary
  annotations the answer is the meaning exactly if the flow settles the filter. Over runs of earlier flows this is the
  exact condition for filters with one such match, and for filters in which no list is part of a different one or
  repeated; for every filter, finitely many short runs decide.
- A bits-per-second range with its bounds exchanged is not reported as an error (`visitor.go:114-120`).
- A threshold window longer than the ring counts some buckets twice (`toptalker_database.go:148-163`).
- Cleaning up can lose a threshold flag until the next tick exactly if the threshold window is not shorter than the
  ring, as with the defaults, where both are 60 buckets (`toptalker_database.go:139-176`, `195-217`).
- The disk buffer's decider can wait for ever in three ways: a cache file has a reading error that does not go away
  (`segments/input/diskbuffer/diskbuffer.go:362-374`); a reader has committed itself to a full memory buffer when the
  input ends, and the goroutine that drained it returns (`435-438`, `518-520`); or the batch size is zero and nobody
  can tell a writer to stop any more (`228-236`, `267-301`). In every reachable state its waiting can end exactly if
  none of these has happened, and a configuration has such a run exactly if it reads cache files at all (its reading
  mark is at least one message) or its batch size is zero.
- When the decider has gone, the goroutine that forwards the memory buffer can end exactly if it is not about to receive
  (`518-523`): the last writer leaves the buffer empty, so a receive begun before the end of the input stays blocked.
- The AS path of a flow is its source path followed by its destination path exactly if a source route was found or the
  flow came without a path (`segments/modify/bgp/bgp.go:150-204`); without a router AS the destination path starts
  with AS 0, and the exported pairs then miss the edge between the two halves.
- The routes of a flow's two addresses can share memory, and then the source side shows in the destination path,
  through the in-place reversal and the stored router (`bgp.go:154`, `168-171`, `178`). The destination path is the
  route that was looked up exactly if each of its cells equals its mirror image where it lies in the source route, and
  holds the router already where that is stored; for one route used for both addresses, exactly if it reads the same
  in both directions.
- `NextHopAs` and `DstAs` are read from the route after the append to the flow's path (`bgp.go:179`, `194-195`), which
  can have stored there: each is the end of the path that was appended exactly if the append did not reach its cell or
  stored the same AS. Without a router, a path that ends with AS 30 can come with `NextHopAs` 0 and `DstAs` 20.
- A second timestamp sync changes nothing, except for seconds = milliseconds = 0 and 499,500,000 <= ns < 500,000,000.
- A layer without a name is printed as a number and read back as Ethernet (`segments/input/replay/replay.go:289-293`).
- The aggregate cache exports the TCP flags of a flow's first packet only (`segments/filter/aggregate/flowcache.go:88-151`);
  they are the union over its packets exactly if no later packet has a flag that the first one lacks.
- A segment listed twice in a pipeline leaves its first position unwired (`pipeline/pipeline.go:87-93`).

## Model

| member | source | states |
|---|---|---|
| FilterVisitor.ProcessNumericRange | segments/filter/flowfilter/visitor.go:481-502 | A bounded range holds between its bounds and is bad exactly if they are exchanged; otherwise the sign decides |
| FilterVisitor.Filter.CheckFlow | segments/filter/flowfilter/visitor.go:18-22 | The walk over the heap reports an error exactly if the tree alone is rejected; otherwise result and remaining annotations are the pure answer and the next leftovers, for whatever annotations it found |
| FilterVisitor.Filter.VisitExpression | segments/filter/flowfilter/visitor.go:270-280 | An expression node ends up with the answer of its subtree, its annotations with the next leftovers |
| FilterVisitor.Filter.VisitChildren | segments/filter/flowfilter/visitor.go:82-85 | The descent evaluates both sides on disjoint parts of the old annotations before the node itself is written |
| FilterVisitor.Filter.VisitStatement | segments/filter/flowfilter/visitor.go:439-450 | The one alternative that is set decides, negated if the statement is |
| FilterVisitor.Filter.VisitDirectionalMatchGroup | segments/filter/flowfilter/visitor.go:188-240 | The keyword selects a side; without one either side suffices, for cid also the flow's own cid |
| FilterVisitor.Filter.VisitDirectionalMatch | segments/filter/flowfilter/visitor.go:91-136 | Both sides hold the meaning of the match for the flow's source and destination fields |
| FilterVisitor.Filter.VisitIfSpeedMatch | segments/filter/flowfilter/visitor.go:298-305 | Speeds are compared in units of 1000 on both sides |
| FilterVisitor.Filter.VisitRegularMatch | segments/filter/flowfilter/visitor.go:241-478 | Every match but passes-through overwrites its annotation with its meaning; a bad range is an error |
| FilterVisitor.Filter.VisitRegularRange | segments/filter/flowfilter/visitor.go:114-127 | Ranges over measured quantities; of the bad ones only the bits-per-second range goes unreported |
| FilterVisitor.Filter.VisitComparison | segments/filter/flowfilter/visitor.go:249-297 | Keyed comparisons, with TCP flags false off TCP and ICMP matches false off ICMP |
| FilterVisitor.Filter.VisitPassesThrough | segments/filter/flowfilter/visitor.go:394-414 | The loop finds the list as a contiguous part of the path if it fits, and otherwise leaves the old annotation |
| FilterMeaning.SettledAnswer | segments/filter/flowfilter/visitor.go:394-414 | A filter that a flow settles answers its meaning, for all leftovers of earlier flows |
| FilterMeaning.UnsettledAnswer | segments/filter/flowfilter/visitor.go:394-414 | A filter that a flow does not settle can be driven to either answer by annotations alone, reachable or not |
| FilterMeaning.AnswerIsMeaningIffSettled | segments/filter/flowfilter/visitor.go:18-22 | The answer is the pure recursive meaning for arbitrary annotations if and only if the flow settles the filter |
| FilterRuns.RunsLeaveConsistent | segments/filter/flowfilter/visitor.go:394-414 | Whatever flows came before, equal lists carry equal annotations |
| FilterRuns.OneFlowLeaves | segments/filter/flowfilter/visitor.go:394-414 | If no list is part of a different one, a single flow can leave any annotations that are equal for equal lists |
| FilterRuns.RightAfterRunsIff | segments/filter/flowfilter/visitor.go:18-22 | For such a filter the answer is the meaning after every run of earlier flows if and only if it is for all annotations that are equal for equal lists |
| FilterRuns.RightAfterRunsIffSettled | segments/filter/flowfilter/visitor.go:18-22 | Without repeated lists that is: if and only if the flow settles the filter |
| FilterRuns.OneListRightIffSettled | segments/filter/flowfilter/visitor.go:18-22 | For one passes-through match with any list in any context, the answer is the meaning after every run if and only if the flow settles the filter |
| FilterRuns.LastWritersLeaveTheSame | segments/filter/flowfilter/visitor.go:404-414 | What a run leaves, the flows that are last to write some list leave alone |
| FilterRuns.SmallPath | segments/filter/flowfilter/visitor.go:404-414 | For every path there is one of bounded length over the lists' numbers and one more that every list treats alike |
| FilterRuns.RightAfterShortRunsIff | segments/filter/flowfilter/visitor.go:18-22 | For every filter the answer is the meaning after all runs of earlier flows if and only if it is after the runs of no more flows than lists, with such paths |
| FilterRuns.RepeatedListIsRight | segments/filter/flowfilter/visitor.go:394-414 | In general settling is not needed: a concrete unsettled filter that every run leaves right |
| FilterMeaning.BadRangeReportedIff | segments/filter/flowfilter/visitor.go:114-127 | A range match with exchanged bounds stops the walk unless it is over bits per second, and accepts no flow either way |
| FilterMeaning.BadRateRange | segments/filter/flowfilter/visitor.go:114-120 | The range from 2 down to 1 bits per second is a filter that is built and accepts nothing |
| FilterMeaning.AllWrittenSettles | segments/filter/flowfilter/visitor.go:404-414 | If every passes-through list fits into the non-empty path, the filter is settled |
| FilterMeaning.StaleAnswer | segments/filter/flowfilter/visitor.go:404-414 | A concrete pair of flows on one tree where the second is accepted though the filter does not mean it |
| FilterMeaning.SideSwap | segments/filter/flowfilter/visitor.go:91-136 | Exchanging a flow's source and destination fields exchanges the two sides of every directional match |
| FilterMeaning.RegularSwap | segments/filter/flowfilter/visitor.go:287-297 | Other matches are blind to that exchange, an ICMP match exactly if it does not see the ports differ |
| FilterMeaning.SwapAnswer | segments/filter/flowfilter/visitor.go:188-240 | Exchanging src and dst in any tree and all source and destination fields of the flow leaves the answer unchanged |
| FilterMeaning.SwapTwice | segments/filter/flowfilter/visitor.go:188-240 | Exchanging the keywords twice is the identity on trees |
| FilterFields.SourceRanges | segments/filter/flowfilter/visitor.go:206-222 | With the keyword src, port, AS, net size, customer number, VRF and interface speed (in thousands) of the source lie between the bounds, exactly |
| FilterFields.DestinationRanges | segments/filter/flowfilter/visitor.go:223-239 | With the keyword dst, those of the destination |
| FilterFields.SidesOfKeywords | segments/filter/flowfilter/visitor.go:91-136 | Address with and without mask, interface number, name and description are those of the keyword's side |
| FilterFields.NoKeyword | segments/filter/flowfilter/visitor.go:189-205 | Without a keyword a match accepts what it accepts with src or with dst; a customer number also what lies in the range by the flow's own number |
| FilterFields.SignsDivide | segments/filter/flowfilter/visitor.go:481-502 | A plain number means equality, a sign strictly below or above |
| FilterFields.PlainRanges | segments/filter/flowfilter/visitor.go:121-127 | Bytes, packets, type of service, preference, discriminator and sampling rate are compared as they are |
| FilterFields.RatesFit | segments/filter/flowfilter/visitor.go:114-120 | Bits and packets per second without division: at least lo and less than hi + 1 in each of the flow's seconds, or in one if it has none |
| FilterFields.ServiceFields | segments/filter/flowfilter/visitor.go:249-262 | A code point and congestion bits are both accepted exactly if the type of service is four times the one plus the other |
| FilterFields.IcmpFields | segments/filter/flowfilter/visitor.go:287-297 | A type and a code are both accepted exactly if the flow is ICMP and its destination port is 256 times the one plus the other |
| FilterFields.Attributes | segments/filter/flowfilter/visitor.go:281-286 | Addresses, direction, country and normalisation by the field they name |
| FilterFields.Codes | segments/filter/flowfilter/visitor.go:263-269 | Frame type, protocol and validation by number or by name |
| FilterFields.FlagFields | segments/filter/flowfilter/visitor.go:451-468 | A value is compared as a whole, a key bit by bit, flags only on TCP flows |
| FilterFields.PassesThroughFields | segments/filter/flowfilter/visitor.go:394-414 | A list that fits is accepted exactly if the path is some front, the list and some back; otherwise the annotation found decides |
| FilterFields.Connectives | segments/filter/flowfilter/visitor.go:270-280 | and, or, negation, parentheses and the empty filter in terms of the answers of their parts |
| FilterFields.KeywordSees | segments/filter/flowfilter/visitor.go:188-240 | A filter of src matches, however composed, answers alike for flows with the same ten source fields, for all leftovers; a filter of dst matches for flows with the same destination fields |
| FlowFilterSegment.New | segments/filter/flowfilter/flowfilter.go:23-41 | No segment if the filter does not parse or its dry run fails, which depends on the tree alone; the dry run leaves every leftover as it was |
| FlowFilterSegment.FlowFilter.Run | segments/filter/flowfilter/flowfilter.go:43-59 | Out and Drops receive, in order, exactly the accepted and (if somebody subscribed) the rejected flows, judged one after the other on one tree |
| FlowFilterSegment.FlowFilter.Forward | segments/filter/flowfilter/flowfilter.go:52-58 | One turn of that loop; ignoring the error is safe because a built segment cannot produce one |
| FlowFilterSegment.EmptyPathKeepsLeftovers | segments/filter/flowfilter/flowfilter.go:35-39 | Walking over a flow without AS path, as the dry run does, changes no leftover |
| FlowFilterSegment.RunSelectsByMeaning | segments/filter/flowfilter/flowfilter.go:51-57 | Over settled flows the segment selects by meaning alone, whatever the tree held before |
| FlowCacheSpec.RunKeepsKeys | segments/input/bpf/flow_exporter.go:178-209 | In every run cached records are non-empty, hold packets of their key only and no FIN; an exported record has one key and a FIN at most as its last packet |
| FlowCacheSpec.RunConservesPackets | segments/input/bpf/flow_exporter.go:121-162 | In every run, for each key the exported packets followed by the cached ones are exactly the inserted ones, in order and with the stamps of their arrival |
| FlowCacheSpec.FlagsAreUnion | segments/input/bpf/flow_exporter.go:157-159 | A flag is set in an exported flow exactly if some packet of the record has it |
| FlowCacheSpec.ExportedKey | segments/input/bpf/flow_exporter.go:199-209 | The 7-tuple of every exported flow maps back to the key of all its packets |
| FlowCacheSpec.RunKeepsTimes | segments/input/bpf/flow_exporter.go:79-126 | In every run whose clock does not run backwards, with L the most that an event is later than one timeout after the last sweep read the clock: exported flows last at most 2 active timeouts + L, neighbouring packets are at most 2 inactive timeouts + L apart, and flows of one key cover ordered, disjoint intervals |
| FlowCacheSpec.OnScheduleTimes | segments/input/bpf/flow_exporter.go:79-126 | With no sweep overdue, also when packets slip in between a sweep's clock reading and its pass, the bounds are 2 timeouts |
| FlowCacheSpec.SummaryStep | segments/input/bpf/flow_exporter.go:135-161 | Adding a packet to a record adds to the message's counters modulo 2^64, unites its flags and keeps the first packet's fields |
| FlowCacheSpec.InsertedSteps | segments/input/bpf/flow_exporter.go:178-197 | Find or create, update, export on FIN, done one after the other, is the insertion of the specification |
| FlowCacheSpec.SweptStep | segments/input/bpf/flow_exporter.go:86-91 | Exporting one more due record extends the sweep by that record and touches no other |
| FlowCacheSpec.SweepingStep | segments/input/bpf/flow_exporter.go:86-91 | Visiting one more record keeps the account of a sweep, which exports it exactly if it was due when the clock was read |
| FlowCacheLaws.NoFlowCutEarly | segments/input/bpf/flow_exporter.go:79-126 | In every run whose clock does not run backwards, if a flow is followed by another one of its key, it ended with a FIN, or the next packet came more than the inactive timeout after its last one, or a sweep exported it that read the clock more than the active timeout after its creation |
| FlowCacheLaws.ExportsEntitled | segments/input/bpf/flow_exporter.go:79-126 | Every export, followed or not, was caused by a FIN as the last packet, or by a sweep that read the clock more than one timeout after the last packet or after the creation |
| FlowCacheLaws.ExportedSpan | segments/input/bpf/flow_exporter.go:128-161 | An exported flow starts when the record of its first packet was created and ends with the stamp of its last packet, whose sampler it has; all other fields but the sums are those of the first packet |
| FlowCacheLaws.RunConservesCounts | segments/input/bpf/flow_exporter.go:121-162 | After every run, for each key, the counters of the exported messages and of the cached record add up to the bytes and packets that arrived, modulo 2^64 |
| FlowExporter.BuildFlow | segments/input/bpf/flow_exporter.go:128-162 | The loop builds the message that sums up exactly the record's packets |
| FlowExporter.FlowExporter.Export | segments/input/bpf/flow_exporter.go:121-126 | The record leaves the map and its summary is sent; no other record changes |
| FlowExporter.FlowExporter.Insert | segments/input/bpf/flow_exporter.go:178-197 | The heap operation takes the specified cache to the specified next cache, records staying apart in memory |
| FlowExporter.FlowExporter.Sweep | segments/input/bpf/flow_exporter.go:79-119 | A pass over the map exports exactly the records that were past their timeout when the clock was read, each once, in the order visited |
| FlowExporter.FlowExporter.Visit | segments/input/bpf/flow_exporter.go:87-91 | One turn of a sweep keeps the account of what has been visited and exported |
| AggregateCache.NewKey | segments/filter/aggregate/flowcache.go:40-68 | The walk over the layers arrives at the 7-tuple key of the decoded packet, though it converts addresses layer by layer |
| AggregateCache.LastIpDecides | segments/filter/aggregate/flowcache.go:89-116 | The last IP layer gives a message its addresses, protocol, type of service and time to live |
| AggregateCache.LastPortsDecide | segments/filter/aggregate/flowcache.go:117-142 | The last TCP or UDP layer gives the ports |
| AggregateCache.LastOthersDecide | segments/filter/aggregate/flowcache.go:91-150 | The last Ethernet layer gives the frame type, the last ICMP layer type and code |
| AggregateCache.WalkedFlags | segments/filter/aggregate/flowcache.go:121-138 | A flag is set exactly if some TCP layer has it |
| AggregateCache.EndsFlow | segments/filter/aggregate/flowcache.go:276-282 | A packet ends its flow exactly if it has a TCP layer and the first one has FIN |
| AggregateCache.BuildFlow | segments/filter/aggregate/flowcache.go:79-157 | Bytes, packets and static fields as in the packet exporter; the flags are those of the first packet only |
| AggregateCache.FlagsAreUnionIff | segments/filter/aggregate/flowcache.go:117-157 | The exported flags are the union over the record's packets if and only if no later packet has a flag that the first one lacks |
| AggregateCache.SynThenFin | segments/filter/aggregate/flowcache.go:117-157 | A SYN packet followed by a FIN packet is exported with SYN only |
| AggregateCache.MessageKey | segments/filter/aggregate/flowcache.go:40-68 | The 7-tuple of a message is the key of all packets of its record |
| AggregateCache.FlowExporter.Insert | segments/filter/aggregate/flowcache.go:260-284 | Insertion is that of the specified cache for the decoded packet with its own time stamp, so conservation and keys carry over |
| AggregateCache.FlowExporter.Export | segments/filter/aggregate/flowcache.go:317-322 | The record leaves the map and its message is sent |
| AggregateCache.FlowExporter.Sweep | segments/filter/aggregate/flowcache.go:218-258 | Both sweeps are those of the specified cache, so its theorems hold over runs of inserts and sweeps |
| PipelineChain.StartInv | pipeline/pipeline.go:98-103 | A started pipeline of any length meets the invariant |
| PipelineChain.RunKeepsInv | segments/pass/pass.go:35-47 | Every interleaving keeps each message in one place, messages in order, and channels closed front to back |
| PipelineChain.DeliveredThenInFlight | segments/filter/flowfilter/flowfilter.go:43-58 | In every reachable state, delivered messages followed by those in flight, last stage first, are the accepted input without the dropped messages |
| PipelineChain.ChannelsUsedOpen | segments/pass/pass.go:40-46 | Nothing is sent on a closed channel and no channel is closed twice |
| PipelineChain.WaitGroupZero | pipeline/pipeline.go:67-76 | In every interleaving the wait group is at zero exactly when all stages have finished |
| PipelineChain.Progress | pipeline/pipeline.go:67-104 | With readers on Out and Drops a pipeline that holds a message, or whose input is closed, can always take a step until it has finished |
| PipelineChain.StepCost | segments/pass/pass.go:43-46 | Every step but accepting makes a well-founded cost smaller |
| PipelineChain.RunsEnd | pipeline/pipeline.go:63-76 | After In is closed every run is finite, bounded by the measure |
| PipelineChain.NothingLost | pipeline/pipeline.go:67-104 | A run that came to rest after closing In has finished all stages, closed each channel once and delivered exactly what it accepted and did not drop |
| PipelineLaws.VerdictsDecide | segments/filter/flowfilter/flowfilter.go:52-58 | In every run a delivered message has passed all stages and a dropped or discarded one was refused by a stage, the last to see it; at rest that is exact for every message |
| PipelineWiring.New | pipeline/pipeline.go:81-95 | nil exactly if a segment is nil; an empty list becomes one pass segment; the segments form a chain over fresh, pairwise different channels exactly if none is listed twice, and one that is listed twice is wired at its last position only |
| PipelineWiring.Connect | pipeline/pipeline.go:85-94 | The loop wires every segment to the channels around its last position |
| PipelineWiring.Pipeline.GetDrop | pipeline/pipeline.go:33-49 | All calls return one channel, all filter segments are subscribed to it, and the chain is untouched |
| Branch.RunKeepsInv | segments/controlflow/branch/branch.go:119-198 | Every interleaving of Run, forwarder, drainer and three pipelines of any length keeps the branch's invariant |
| Branch.ExactlyOnePlace | segments/controlflow/branch/branch.go:119-198 | Each received message is in exactly one place once: with Run, in one of the three pipelines, with the forwarder, in the drainer's hand, sent to Out, sent to Drops, or discarded |
| Branch.BranchesFollowCondition | segments/controlflow/branch/branch.go:127-149 | What entered `then` is an initial part of what the condition output, what entered `else` of what it dropped, and no message entered both |
| Branch.ThenKeepsOrder | segments/controlflow/branch/branch.go:151-163 | Messages that leave through `then` keep the order in which the branch received them |
| Branch.BypassDiscardsNothing | segments/controlflow/branch/branch.go:172-192 | In every reachable state with bypass nothing was sent to Drops and nothing discarded; nothing was discarded if the segment has Drops, and nothing sent there if it has not |
| Branch.OutIsBranchOutputs | segments/controlflow/branch/branch.go:151-192 | Without bypass Out received, in order, exactly what came from an output of a branch |
| Branch.BranchProgress | segments/controlflow/branch/branch.go:122-198 | While the environment reads Out and Drops, no reachable state that holds a message is stuck |
| Branch.StepLowersMeasure | segments/controlflow/branch/branch.go:122-198 | Every step but receiving makes a well-founded measure smaller |
| Branch.RunsSettle | segments/controlflow/branch/branch.go:122-198 | Without new messages every run is no longer than the measure of its start |
| Branch.SettledAtRest | segments/controlflow/branch/branch.go:151-198 | At its end every received message was sent to Out or Drops or discarded, once; with bypass every one was sent to Out |
| TopTalkerSpec.ReportedSum | segments/analysis/toptalkers_metrics/toptalker_database.go:109-131 | A report over b < capacity buckets sums the last b completed buckets, over b = capacity one less and the running one |
| TopTalkerSpec.TickSumExact | segments/analysis/toptalkers_metrics/toptalker_database.go:148-163 | The tick's sum is that of the last n completed buckets for all histories if and only if n fits into the ring |
| TopTalkerSpec.RunsAgree | segments/analysis/toptalkers_metrics/toptalker_database.go:195-217 | With and without cleanup, runs in which bytes never arrive without packets agree on all windows, and on flags if the threshold window is shorter than the ring or a tick followed |
| TopTalkerSpec.CleanupInvisible | segments/analysis/toptalkers_metrics/toptalker_database.go:195-217 | So deleting empty records is unobservable in every window sum, and under the same condition in every flag |
| TopTalkerSpec.FlagsAgreeIff | segments/analysis/toptalkers_metrics/toptalker_database.go:139-217 | In all such runs all flags agree with and without cleanup if and only if the threshold window is shorter than the ring |
| TopTalkerSpec.DeletionHarmlessIff | segments/analysis/toptalkers_metrics/toptalker_database.go:98-107 | Deleting a record without packets changes no window exactly if it has no bytes either |
| TopTalkerSpec.FlagLostUntilTick | segments/analysis/toptalkers_metrics/toptalker_database.go:164-217 | Otherwise, for all thresholds, one burst, a ring of ticks and a cleanup lose the flag |
| TopTalkers.Record.SlotTerm | segments/analysis/toptalkers_metrics/toptalker_database.go:120-126 | Walking backwards around the ring sees the terms of the unbounded history, again and again |
| TopTalkers.Record.Append | segments/analysis/toptalkers_metrics/toptalker_database.go:86-96 | Only the running bucket grows, on the forwarded or the dropped side |
| TopTalkers.Record.IsEmpty | segments/analysis/toptalkers_metrics/toptalker_database.go:98-107 | True exactly if no ring position holds a packet, in terms of the history |
| TopTalkers.Record.GetMetrics | segments/analysis/toptalkers_metrics/toptalker_database.go:109-137 | Each reported average times the seconds of the window is the ring's sum over it, in bits for byte counters; zero buckets mean the whole window |
| TopTalkerLaws.SteadyRate | segments/analysis/toptalkers_metrics/toptalker_database.go:114-135 | If every bucket counted a steady rate, the report is that rate, in bits for bytes, for every number of buckets and every duration |
| TopTalkerLaws.ReportCounts | segments/analysis/toptalkers_metrics/toptalker_database.go:86-131 | After every run, with or without cleanup, a report over fewer buckets than the ring sums exactly the messages that were counted for the key in so many completed buckets, forwarded and dropped apart |
| TopTalkerLaws.FlagCounts | segments/analysis/toptalkers_metrics/toptalker_database.go:139-170 | A tick flags a record exactly if forwarded and dropped messages of the window together reach (threshold + 1) bits, and packets, for each of its seconds |
| TopTalkers.Record.Tick | segments/analysis/toptalkers_metrics/toptalker_database.go:139-176 | The ring advances, compares and clears as the unbounded history does; the flag is set exactly if both truncated averages exceed their thresholds |
| TopTalkers.Database.GetTypedRecord | segments/analysis/toptalkers_metrics/toptalker_database.go:61-71 | The record under the key, a new one if there was none; no other record changes |
| TopTalkers.Database.KeysApart | segments/analysis/toptalkers_metrics/toptalker_database.go:61-62 | For labels without a colon different labels or addresses have different keys |
| TopTalkers.Database.Count | segments/analysis/toptalkers_metrics/toptalker_database.go:61-96 | Lookup and append as one step of the specified database |
| TopTalkers.Database.Beat | segments/analysis/toptalkers_metrics/toptalker_database.go:178-193 | Every record is ticked exactly once |
| TopTalkers.Database.CleanupBeat | segments/analysis/toptalkers_metrics/toptalker_database.go:195-217 | Every so many windows exactly the empty records are deleted |
| NestedMetrics.NestedIsFlat | segments/analysis/traffic_specific_toptalkers/traffic-specific-toptalkers.go:149-189 | A tree of definitions means the same as the flat list of its definitions, each under its own filter and all its ancestors' filters |
| NestedMetrics.VerdictIsMeaning | segments/analysis/traffic_specific_toptalkers/traffic-specific-toptalkers.go:163-164 | The verdict for a valid filter that the message settles is the filter's meaning |
| NestedMetrics.CountsWhatAllFiltersMean | segments/analysis/traffic_specific_toptalkers/traffic-specific-toptalkers.go:163-189 | With valid, settled filters a definition counts exactly the messages that its own and all its ancestors' filters mean |
| NestedMetrics.AddMessage | segments/analysis/traffic_specific_toptalkers/traffic-specific-toptalkers.go:163-189 | The recursion appends to every database of the tree what the nested reading says, once per selected key, asks exactly the filters that the message reaches, and changes nothing else |
| NestedMetrics.AddNext | segments/analysis/traffic_specific_toptalkers/traffic-specific-toptalkers.go:184-187 | Evaluating one subdefinition disturbs neither the leftovers nor the databases of the others |
| NestedMetrics.AddToSubs | segments/analysis/traffic_specific_toptalkers/traffic-specific-toptalkers.go:184-187 | The loop over the subdefinitions gives every database and every filter below what the nested reading says |
| NestedMetrics.Update | segments/analysis/traffic_specific_toptalkers/traffic-specific-toptalkers.go:166-182 | One append for each address that the definition selects |
| NestedMetrics.Run | segments/analysis/traffic_specific_toptalkers/traffic-specific-toptalkers.go:124-131 | Over a whole run every definition's database gains, in order, one append per selected key for exactly the messages that its own and all ancestors' filters accept; each filter, settled or not, accepts what it answers for the leftovers of the earlier messages that have reached it |
| NestedMetrics.RunCountsWhatIsMeant | segments/analysis/traffic_specific_toptalkers/traffic-specific-toptalkers.go:124-189 | With valid filters that the messages settle, these are exactly the messages that all those filters mean |
| NestedLaws.AddressesCounted | segments/analysis/traffic_specific_toptalkers/traffic-specific-toptalkers.go:166-182 | Over a whole run a source definition counts under each printed address exactly the number, bytes and packets of the accepted messages from it, a destination definition of those to it, and both of the two together, forwarded and other messages apart |
| NestedLaws.ConnectionsCounted | segments/analysis/traffic_specific_toptalkers/traffic-specific-toptalkers.go:175-182 | A connection definition counts under each printed pair the accepted messages from its first address to its second |
| NestedLaws.UntypedCountsNothing | segments/analysis/traffic_specific_toptalkers/traffic-specific-toptalkers.go:165-182 | A definition without a traffic type counts nothing |
| NestedLaws.RolesOfAddresses | segments/analysis/traffic_specific_toptalkers/traffic-specific-toptalkers.go:169-176 | If different addresses print differently, these are the messages with those addresses |
| DiskBuffer.WorkKeepsInv | segments/input/diskbuffer/diskbuffer.go:224-427 | Every worker step keeps a round's invariant, and the number of unfinished workers falls by one exactly at a Done |
| DiskBuffer.RunKeepsInv | segments/input/diskbuffer/diskbuffer.go:502-575 | Every interleaving of decider, workers, input and forwarding goroutine keeps the invariant |
| DiskBuffer.WaitGroupCounts | segments/input/diskbuffer/diskbuffer.go:533-575 | The wait group counts the workers that have not called Done, never goes negative, and is zero when the decider starts a turn |
| DiskBuffer.FileWorkNeverOverlaps | segments/input/diskbuffer/diskbuffer.go:242-427 | File work happens in one round at a time, and only in the one the decider waits for |
| DiskBuffer.SavedBeforeDone | segments/input/diskbuffer/diskbuffer.go:242-265 | A worker that called Done has flushed and closed its files: every line it wrote is stored |
| DiskBuffer.ClosedAtMostOnce | segments/input/diskbuffer/diskbuffer.go:224-348 | No stop channel, of a round or of the end of the input, is ever closed twice |
| DiskBuffer.RoundCanEnd | segments/input/diskbuffer/diskbuffer.go:224-427 | An unfinished round that is not one of those that cannot end has a step, or needs one of the forwarding goroutine, that keeps it so and brings it closer to its end |
| DiskBuffer.WorkComesCloser | segments/input/diskbuffer/diskbuffer.go:224-440 | Every worker step brings its round closer to the end in a well-founded order, except for a cache file that starts to fail, the retries after it, and a watchdog that looks and finds nothing |
| DiskBuffer.ForwardComesCloser | segments/input/diskbuffer/diskbuffer.go:513-526 | So does every step of the forwarding goroutine |
| DiskBuffer.WorkKeepsHopeless | segments/input/diskbuffer/diskbuffer.go:224-440 | No worker step lets a round end that cannot |
| DiskBuffer.WaitEndsIff | segments/input/diskbuffer/diskbuffer.go:224-440 | In every reachable state the decider's waiting for a round can end if and only if no cache file fails for ever, no reader is committed to a full buffer that nobody will drain, and no writer with empty batches is beyond being told to stop |
| DiskBuffer.StuckByFile | segments/input/diskbuffer/diskbuffer.go:360-374 | For every configuration that reads cache files, a run to a failing file |
| DiskBuffer.StuckByFullBuffer | segments/input/diskbuffer/diskbuffer.go:435-438 | For every configuration that reads cache files, a run that fills the buffer before a committed reader and ends the input, without a failing file |
| DiskBuffer.StuckByEmptyBatches | segments/input/diskbuffer/diskbuffer.go:539-545 | For every configuration with batch size zero, a run to the last writer, which never returns |
| DiskBuffer.ConfigStallsIff | segments/input/diskbuffer/diskbuffer.go:547-571 | A valid configuration has a run that leaves the decider waiting for ever if and only if its reading mark is at least one message or its batch size is zero |
| DiskBuffer.NothingInBuffer | segments/input/diskbuffer/diskbuffer.go:267-291 | When the decider has gone the memory buffer is empty: the last writer took every message that was in it |
| DiskBuffer.ForwarderEndsIff | segments/input/diskbuffer/diskbuffer.go:513-526 | When the decider has gone, the forwarding goroutine can end if and only if it does not wait for a message |
| DiskBuffer.ForwarderDeserted | segments/input/diskbuffer/diskbuffer.go:513-526 | For every configuration with non-empty batches, a run after which it waits for ever |
| DiskBuffer.DeciderMoves | segments/input/diskbuffer/diskbuffer.go:533-575 | Everywhere else the decider can take its next step at once |
| DiskBuffer.TurnDoesOneThing | segments/input/diskbuffer/diskbuffer.go:547-571 | A turn that starts reading does not go on to write |
| DiskBuffer.TurnsExactly | segments/input/diskbuffer/diskbuffer.go:547-561 | In percentages of the capacity, when a turn reads and when it writes |
| DiskBuffer.WatchdogsExactly | segments/input/diskbuffer/diskbuffer.go:224-337 | In percentages of the capacity, when the watchdogs see their marks crossed |
| DiskBufferLaws.RunConserves | segments/input/diskbuffer/diskbuffer.go:224-526 | Over every run, what was in the buffer, in the forwarder's hand or written, and what entered since, is there or has been sent |
| DiskBufferLaws.NothingIsLost | segments/input/diskbuffer/diskbuffer.go:484-545 | When the decider has gone, every message that entered the buffer has been sent, is about to be, or is stored in a closed cache file |
| DiskBufferLaws.StoppedOpensNothing | segments/input/diskbuffer/diskbuffer.go:379-396 | A reader that has been told to stop opens no file after the one it is in |
| DiskBufferLaws.AlarmedHandsNothingOn | segments/input/diskbuffer/diskbuffer.go:398-441 | After the alarm a reader hands no further line to the next segment or the buffer |
| DiskBufferLaws.SignalsHaveReasons | segments/input/diskbuffer/diskbuffer.go:224-337 | The alarm is raised only above the high mark or after the end of the input, and a stop given only beyond the low mark |
| BgpPaths.ReversedAt | segments/modify/bgp/bgp.go:154 | Element k of the reversed path is element k from its end |
| BgpPaths.Reverse | segments/modify/bgp/bgp.go:154 | The window is reversed where it is, memory outside it stays |
| BgpPaths.Append | segments/modify/bgp/bgp.go:169-178 | The result holds the old content and the new values; it stores into spare capacity exactly if they fit, and into new memory otherwise |
| BgpPaths.AppendBeside | segments/modify/bgp/bgp.go:169-179 | Appending to one of two slices that share memory leaves both contents alone |
| BgpPaths.AppendToBoth | segments/modify/bgp/bgp.go:168-171 | The flow's path and the source path grow by the router, whether they share memory or not |
| BgpPaths.TakeSource | segments/modify/bgp/bgp.go:150-171 | The source path is the route backwards and the router, and exactly which memory cells of the route change |
| BgpPaths.TakeDestination | segments/modify/bgp/bgp.go:173-200 | The destination path is the router and the route; the flow's path grows by it while the source path keeps its content; next and last AS are what the route's memory holds after that append |
| BgpPaths.Annotate | segments/modify/bgp/bgp.go:150-204 | For chosen routes that share memory in any way, and every capacity: all three paths, validation, and next and last AS as the ends of the route's memory after both sides |
| BgpPaths.SeenIntactIff | segments/modify/bgp/bgp.go:150-178 | The destination copies its route as it was looked up if and only if it lies in other memory or each of its cells is its own mirror image in the source route and, where the router is stored, holds the router already |
| BgpPaths.SeenReversed | segments/modify/bgp/bgp.go:154-178 | If both addresses have the same route, the destination reads it reversed, and as it was looked up if and only if it reads the same in both directions |
| BgpPaths.ReadAsSeenIff | segments/modify/bgp/bgp.go:178-195 | An AS of the copied route, such as its first or last, is still there when it is read if and only if the append to the flow's path did not reach its cell or stored the same AS |
| BgpPaths.EndsOverwritten | segments/modify/bgp/bgp.go:179-195 | One array [10, 20, 30, x], source route [10] with capacity 4, destination route [20, 30] and no router: next AS 0, last AS 20 |
| BgpPaths.FindFirst | segments/modify/bgp/bgp.go:150-153 | The loop chooses the first route that the value function chooses |
| BgpPaths.FirstIsBest | segments/modify/bgp/bgp.go:150-153 | That route is best and has a path, no earlier one is and has, and without a choice no route is and has |
| BgpPaths.OthersUnobservable | segments/modify/bgp/bgp.go:151-175 | Removing the routes that are not best changes no choice, and nothing else of the lists is used |
| BgpPaths.HalvesAt | segments/modify/bgp/bgp.go:154-178 | Element by element: the route backwards and the router, the router and the route |
| BgpPaths.Assemble | segments/modify/bgp/bgp.go:150-204 | The path is the source path followed by the destination path if and only if a source route was found or the flow came without a path; and what all other annotations are, by the chosen routes' fields |
| PathPairs.DedupIsProper | segments/output/prometheus/prometheus.go:220-231 | Deduplication leaves no equal neighbours, keeps both ends and the set of hops |
| PathPairs.DedupFixpoints | segments/output/prometheus/prometheus.go:220-231 | Exactly the paths without equal neighbours stay as they are; deduplicating twice adds nothing |
| PathPairs.DedupJoins | segments/output/prometheus/prometheus.go:220-231 | Joining two paths merges at most at the joint |
| PathPairs.DedupConsecutiveASNs | segments/output/prometheus/prometheus.go:220-231 | The loop, which looks at its own result, drops exactly the repetitions in the path |
| PathPairs.Exporter.ExportASPathPairsWithDirection | segments/output/prometheus/prometheus.go:191-218 | Counts the edges of the deduplicated path in order, and the flow's end with itself |
| PathPairs.Exporter.ExportFlow | segments/output/prometheus/prometheus.go:151-154 | Source, then destination |
| PathPairs.DirectionPairs | segments/output/prometheus/prometheus.go:191-218 | Each direction with two distinct hops adds exactly one pair of an AS with itself; the others are the path's edges |
| PathPairs.PairsWalkThePath | segments/output/prometheus/prometheus.go:191-218 | With two different hops, and only then, the pairs walk the path from its first to its last AS; the pair of an AS with itself is the first AS towards the source and the last towards the destination |
| PathPairs.PairsAreEdgesIffHalvesMeet | segments/output/prometheus/prometheus.go:191-231 | The other pairs of both directions are the edges of the whole deduplicated path if and only if the halves share the AS where they meet |
| PathPairs.FlowPairsAreEdges | segments/modify/bgp/bgp.go:168-179 | For assembled flows with both routes that is: if and only if the router has an AS number (or the source route starts at AS 0) |
| ListText.FieldsOfJoin | segments/input/replay/replay.go:253 | Splitting words joined by single spaces gives the words back |
| ListText.ParseSlice | segments/input/replay/replay.go:247-265 | The loop rejects exactly texts without brackets and lists with a rejected entry, and otherwise returns all handled entries in order |
| ListText.ParsedIff | segments/input/replay/replay.go:247-265 | A text is read as a list if and only if it is one in brackets whose fields the handler accepts one by one as that list |
| ListText.RoundTripIffInverted | segments/input/replay/replay.go:247-265 | For any printer of words, a printed list comes back if and only if the handler inverts the printer on each element |
| ListText.Uint32ListsComeBack | segments/input/replay/replay.go:267-275 | All lists of 32-bit numbers come back as they were |
| ListText.LayerListsComeBackIffDefined | segments/input/replay/replay.go:289-293 | A list of layers comes back if and only if every layer in it has a name |
| ListText.NamesInOrder | pb/enrichedflow.pb.go:105-138 | The names of values 0 to 13, in order |
| ListText.NamesComeBack | pb/enrichedflow.pb.go:105-138 | The maps from values to names and back are inverse on all defined layers |
| ListText.BulkInsert | segments/output/sqlite/sqlite.go:182-202 | One row per flow with every field formatted; columns of numbers parse back to them |
| ListText.RowReadsBack | segments/output/sqlite/sqlite.go:182-202 | Texts are written as they are, addresses as printed, missing ones as nothing; numbers parse back, and layers if and only if every one has a name |
| Timestamps.EnrichedFlow.SyncMissingTimeStamps | pb/legacyconverter.go:275-286 | Start, end and time of receipt are filled independently through pointers, as the value functions say |
| Timestamps.FillTimeIfEmptyWithFallback | pb/legacyconverter.go:291-294 | The second source counts only if the first leaves the stamp empty, also when it rounds to zero |
| Timestamps.FillTimeIfEmpty | pb/legacyconverter.go:299-306 | Only an empty stamp with a present source is written |
| Timestamps.PresentStampsStay | pb/legacyconverter.go:275-306 | A stamp that is present never changes |
| Timestamps.RoundingIsNear | pb/legacyconverter.go:304 | A conversion to a coarser unit is off by at most half of it, and halves go up |
| Timestamps.FilledFrom | pb/legacyconverter.go:276-282 | With two sources, seconds agree with the nanoseconds unless these round to zero, then with the milliseconds; and so on for the other units |
| Timestamps.LoneSourceFillsIffLarge | pb/legacyconverter.go:275-286 | A single stamp fills all units if and only if it is large enough, and then each two agree to within half of the coarser unit |
| Timestamps.SecondCallChangesNothingIff | pb/legacyconverter.go:275-286 | A second call changes nothing if and only if the stamps do not round twice |
| Timestamps.ThirdCallChangesNothing | pb/legacyconverter.go:275-286 | Two calls are always enough |
| Timestamps.ReceivedSettles | pb/legacyconverter.go:284-285 | The time of receipt settles at once and keeps what is present |

## Left out

- The filter grammar and its parser are not part of this model: trees are built by constructors that demand what the
  grammar gives (one alternative set, a known direction or conjunction, ranges with bounds or a number).
- String and IP address operations of the filter are parameters (`Library`), as are the printing of addresses, the
  parsing of a next hop and the formatting of IP columns.
- FilterMeaning.UnsettledAnswer: ranges over arbitrary annotations, of which earlier flows can leave only some.
- FilterMeaning.AnswerIsMeaningIffSettled: its "only if" half ranges over arbitrary annotations too; the exact conditions
  over runs of earlier flows are those of `FilterRuns`.
- FlowExporter.FlowExporter.Sweep: the goroutines' tickers appear as the order and the times of events; the pass under
  the lock is one step.
- FlowExporter.FlowExporter.Insert: the two readings of the clock are parameters, and the run of events begins with
  real packets; the zero packet inserted when the packet channel closes is not modelled.
- AggregateCache.FlowExporter.Insert: hardware addresses, which the original never sets on a record, are left out, so
  the flow direction stays unset; flows from other exporters (`InsertFlow`, `Aggregate`) are left out because that path
  never unlocks or initialises the cache.
- PipelineChain.RunKeepsInv: stages forward, drop or discard each message once; segments that create messages, or that
  run several workers on one output (`ParallelizedSegment`), are left out.
- Branch.RunKeepsInv: begins after the drop channels are subscribed and ends before shutdown, because the drainer stops
  as soon as any one of its inputs closes.
- TopTalkers.Record.Append: 64-bit counters do not overflow.
- TopTalkers.Record.GetMetrics: floating-point averages are exact quotients of sums that do not overflow.
- TopTalkers.Record.Tick: the quotients that are compared with the thresholds are exact before they are truncated.
- TopTalkers.Database.CleanupBeat: lookup and append are one step, so no record is deleted between them; the size gauge
  and the stop messages are left out.
- NestedMetrics.AddMessage: a database is seen as the sequence of appends it receives, and each definition has one even
  if it counts nothing; the order in which databases are created is left out.
- DiskBuffer.RunKeepsInv: flow contents, cache files on disk and the next segment are the environment; the file format,
  size accounting, messages skipped because they cannot be written, the goroutines for queue status and file listing,
  and whether messages survive the disk are left out.
- DiskBuffer.ForwarderEndsIff: says when one goroutine can end; the output is closed when all of them have.
- BgpPaths.Assemble: route lookup is left out.
- PathPairs.Exporter.ExportFlow: counters are the sequence of what is added to them; labels, the whole-path counter and
  the reset job are left out.
- ListText.BulkInsert: the database, its transactions and scalar columns read by the driver are left out; byte slices
  (`parseByteSlices`) contain spaces inside an element and do not come back.
- Timestamps.EnrichedFlow.SyncMissingTimeStamps: factors are exact and products do not overflow; binary floating point
  may round large nanosecond stamps differently.
- Network, Kafka, SNMP, BPF and Prometheus calls, configuration, field-by-field conversion, CSV output, anonymisation,
  address tries and percentile estimates are left out: they are input, output, libraries or wide but easy copying.
