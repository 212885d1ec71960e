# LoRaWAN trace post-processors, modelled in Dafny

The ns-3 LoRaWAN simulator writes CSV traces of events at the physical
layer, the MAC layer and the network server. Four Python scripts turn
these traces into delivery statistics. Each script works in three steps:

1. A row loop groups the events by a correlation key into one record per
   transmission, packet or message. The record holds one list per trace
   source.
2. A classification loop decides each record's fate. A record can be
   skipped, counted as delivered or not delivered, removed, or it can
   abort the run.
3. The outcomes are folded into per-node counters, global counters and
   small fixed-size histograms, and then reported.

This project models those steps for one trace file and proves what the
scripts promise about the counters they print.

Rows are records whose fields are already split and converted. The
scripts' fatal paths are all modelled as an `Err` result:

- `exit`, and a failed `assert`;
- a missing dictionary key and an index out of range;
- a division by zero;
- a `re.search` that finds nothing.

Each loop of a script is a Dafny `method` with a `while` loop over local
values. The method is proved equal to a recursive specification function,
and the properties are lemmas about those functions.

Python dictionaries keep insertion order. A dictionary is therefore
modelled as a `map` plus the `seq` of its keys in insertion order.

The modules:

- `Common` holds the result types and Python list indexing. It also holds
  histogram sums (`Sum`, and `WeightedSum`, the "W sum" column) and
  `Count`.
- `Settings` models the `sim-settings.txt` search: the first occurrence
  of `key = digits`, as `re.search` finds it.
- `PhyGrouping`, `PhyJudge`, `PhyClassify`, `PhyProperties` and
  `PhyReport` model `parse_phytx_trace.py`, the strict PHY variant:
  - the grouping by PhyTraceIdTag;
  - the receiver search and the drop-reason collection;
  - the classification loop with its `del` and its `exit(1)`;
  - a verdict-based characterisation of that loop;
  - the output stage.
- `PhyLax` models `parse-packet-trace.py`, the lax PHY variant. Its layout
  keeps the tuples inline in the PhyTxBegin and PhyRxDrop lists. The
  module proves that this grouping is a projection of the strict
  grouping. It also proves that classification under the strict drop
  check disabled is the same as the lax classification, so the only
  divergence between the two scripts is the drop check.
- `MacGrouping`, `MacClassify` and `MacReport` model
  `parse_macpackets_trace.py`:
  - the grouping by packet hex with the first-seen timestamp;
  - the resolution through MacTxOk, MacTxDrop and MacSentPktMisc;
  - the upstream and downstream histograms and the per-node counters;
  - the per-simulation line and the per-end-device lines.
- `NsGrouping` and `NsTally` model `parse_nsdsmsgs_trace.py`:
  - the grouping of downstream messages with non-empty payload;
  - the acknowledgement and drop resolution;
  - the receive-window and remaining-transmissions tallies;
  - the summary.

Where the script's behaviour differs from what one would read into its
comments, the model follows the code:

- The MAC downstream test reads `nodes[tx_node_devicetype]['DeviceType']`.
  That looks up the node whose id equals the sender's device type (see
  `MacClassify.DirectionSpec`).
- The NS histogram index is Python indexing. A remaining-transmissions
  value from -5 to -1 counts from the end of the list.
- An unresolved MAC packet or NS message divides by `last_timestamp`. When
  that is 0.0, the run stops with ZeroDivisionError.
- Every script fails on a trace-source name that has no list, through
  KeyError. The one exception is the name `Timestamp` in the MAC script:
  that entry holds a float, so the `append` raises AttributeError. A
  malformed row is not the only way to fail.

## Model

| member | source | states |
|---|---|---|
| Common.PyIndex | parse_nsdsmsgs_trace.py:102 | Python indexing: defined exactly for `-len <= i < len`; a negative index counts from the end |
| Common.Bump | parse_macpackets_trace.py:116-119 | `h[i] += 1` succeeds exactly for an index Python accepts, keeps the length and raises the histogram sum by one |
| Common.BumpWeighted | parse_macpackets_trace.py:161-169 | bumping bucket i raises the "W sum" (sum of i times bucket i) by i |
| Common.Count | parse_phytx_trace.py:161-166 | `list.count(x)` is at most the length and is zero exactly when x is absent |
| Common.Without | parse_phytx_trace.py:137 | `del` drops exactly that key from the insertion order and keeps the order free of duplicates |
| Settings.DigitRun | parse_phytx_trace.py:147-150 | the greedy `[0-9]+` run: all digits, followed by a non-digit or the end |
| Settings.TokenLength | parse_macpackets_trace.py:203-209 | `[0-9]+` matches the digit run, `[0-1]` matches a single 0 or 1 |
| Settings.FirstMatch | parse_phytx_trace.py:152-155 | the match found is the leftmost one at or after the start position, and none exists when it returns None |
| Settings.Search | parse_phytx_trace.py:152-155 | `re.search(...).groups()[0]`: None exactly when the pattern matches nowhere, else the group of the leftmost match |
| Settings.SearchFindsNumber | parse_phytx_trace.py:147-155 | a text whose first `key` is followed by a number yields that number |
| Settings.IntSetting | parse_phytx_trace.py:152-155 | fails with the key exactly when the pattern matches nowhere; else the value of the captured digits |
| Settings.ParsePhySettings | parse_phytx_trace.py:143-155 | succeeds exactly when all four keys are found, with their values in the script's fields |
| Settings.DrMethodParamOf | parse_macpackets_trace.py:218-224 | method 0 needs a `PER limit = d.d` value and keeps its matched text; method 2 needs a fixed data-rate index and keeps its decimal value; a missing one is an error naming its key; any other method leaves the field unset |
| Settings.BitSetting | parse_macpackets_trace.py:206-214 | `usConfirmedData = [0-1]`: fails exactly when absent, naming the key; otherwise the value is the captured digit, 0 or 1 |
| Settings.ParseMacSettings | parse_macpackets_trace.py:203-224 | succeeds iff all seven keys and the method's parameter are found; each field is then the value searched for its key; usConfirmedData is at most 1; the extra field is a PER limit exactly for method 0 and a data rate exactly for method 2 |
| PhyGrouping.SourceNamed | parse_phytx_trace.py:29-39 | a trace source with a list is recognised by its name; any other name is kept for the KeyError |
| PhyGrouping.RecordEffect | parse_phytx_trace.py:39-50 | a row appends its node to the list of its source only; PhyTxBegin adds `(node, channel, dr)` and PhyRxDrop adds `(node, reason)`; Delivered is untouched |
| PhyGrouping.AddRow | parse_phytx_trace.py:22-50 | a row fails exactly when its trace source has no list, and names that source |
| PhyGrouping.GroupPhyTrace | parse_phytx_trace.py:22-50 | the row loop computes the grouping fold |
| PhyGrouping.RecordKeepsShape | parse_phytx_trace.py:39-50 | the Misc lists stay parallel to the PhyTxBegin and PhyRxDrop lists |
| PhyGrouping.RecordKeepsRegistered | parse_phytx_trace.py:31-39 | every node a record lists has a node entry |
| PhyGrouping.RegisteredGrows | parse_phytx_trace.py:31-32 | registration survives new node entries |
| PhyGrouping.AddRowKeepsShape | parse_phytx_trace.py:22-50 | one row keeps the orders duplicate-free and complete, the lists parallel and every listed node registered |
| PhyGrouping.GroupFromKeepsShape | parse_phytx_trace.py:22-50 | the row loop keeps that shape |
| PhyGrouping.GroupRowsShaped | parse_phytx_trace.py:22-50 | the first pass yields a shaped grouping |
| PhyGrouping.GroupFromFailsOnUnknownSource | parse_phytx_trace.py:30-39 | the first pass fails exactly when some row has an unknown source, and the error names the first such row |
| PhyGrouping.AddRowColumn | parse_phytx_trace.py:36-39 | a row adds to key k's list of source s only when it carries k and s; a key exists afterwards exactly when it did before or the row carries it |
| PhyGrouping.GroupFromColumns | parse_phytx_trace.py:35-39 | key k's list of source s ends as its old list plus the nodes of the rows with k and s, in row order |
| PhyGrouping.GroupFromKeys | parse_phytx_trace.py:35-37 | a key has a record exactly when it had one or some row carries it |
| PhyGrouping.GroupFromNodes | parse_phytx_trace.py:31-32 | a node entry is created once, at the node's first row, with that row's device type and zero counters, and never changes afterwards |
| PhyJudge.TypesOf | parse_phytx_trace.py:82 | the device type of every registered node |
| PhyJudge.ExpectedReceiverType | parse_phytx_trace.py:71-73 | the expected receiver type is 1 exactly when the sender is a gateway (type 0), otherwise 0 |
| PhyJudge.ScanReceivers | parse_phytx_trace.py:79-93 | delivered exactly when some PhyRxBegin entry of the expected type is in PhyRxEnd (and, strictly, not in PhyRxDrop); the scan stops at the first such entry |
| PhyJudge.DropReasons | parse_phytx_trace.py:101-109 | at most one reason per PhyRxDropMisc entry |
| PhyJudge.DropReasonsFromExpectedNodes | parse_phytx_trace.py:101-109 | a reason is collected exactly when some drop entry of an expected-type node carries it |
| PhyJudge.TallyDrops | parse_phytx_trace.py:101-109 | the drop loop collects exactly those reasons, in order |
| PhyJudge.Judge | parse_phytx_trace.py:62-137 | any verdict except a malformed sender names a registered sender |
| PhyJudge.JudgeSpec | parse_phytx_trace.py:62-137 | malformed sender iff not exactly one PhyTxBegin; completed iff PhyTxEnd is `[sender]`; aborted iff not completed and the sender is in PhyTxDrop; a completed transmission is delivered iff a receiver qualifies; drops are recorded only when it is not delivered; the data rate comes from PhyTxBeginMisc[0] |
| PhyJudge.StrictDeliveryIsLaxDelivery | parse-packet-trace.py:75-86 | a strict delivery is always a lax delivery |
| PhyJudge.DeliveryRulesDifferOnlyByDropCheck | parse_phytx_trace.py:85-93 | lax but not strict delivery iff some receiver qualifies laxly and every such receiver also dropped |
| PhyJudge.StrictAndLaxJudgements | parse-packet-trace.py:65-91 | both rules complete the same transmissions; they differ only when strict says not delivered, lax says delivered, and a receiver is in both PhyRxEnd and PhyRxDrop |
| PhyClassify.Counted | parse_phytx_trace.py:66-114 | counting a verdict creates no node entry |
| PhyClassify.CountedKeepsTypes | parse_phytx_trace.py:66-114 | counting never changes a device type |
| PhyClassify.Step | parse_phytx_trace.py:60-137 | one iteration keeps the node set and changes no other key's record |
| PhyClassify.StepSpec | parse_phytx_trace.py:62-137 | fatal exactly on an aborted transmission; a malformed sender changes nothing; a truncated transmission is deleted after its sender's Sent is raised by one |
| PhyClassify.StepKeepsReady | parse_phytx_trace.py:60-137 | the keys still to visit stay present and unchanged, and every node they list stays registered |
| PhyClassify.ShapedIsReady | parse_phytx_trace.py:60 | `list(phy_transmissions.keys())` is ready to be visited |
| PhyClassify.RecordDrops | parse_phytx_trace.py:101-114 | the reasons go to the node's list and to the simulation list, and the data rate goes to each reason's list |
| PhyClassify.ClassifyOne | parse_phytx_trace.py:61-137 | the loop body computes one step |
| PhyClassify.ClassifyPhyTransmissions | parse_phytx_trace.py:60-137 | the classification loop computes the classification fold |
| PhyLax.LaxAddRow | parse-packet-trace.py:23-47 | a lax row fails exactly when its source has no list |
| PhyLax.LaxGroupTrace | parse-packet-trace.py:23-47 | the lax row loop computes the lax grouping fold |
| PhyLax.ProjectTxs | parse-packet-trace.py:37-47 | the lax layout of every strict record, key by key |
| PhyLax.ProjectRecord | parse-packet-trace.py:39-47 | appending a row and then projecting equals appending the row in the lax layout |
| PhyLax.LaxAddRowIsProjection | parse-packet-trace.py:23-47 | one lax row step is the projection of the strict row step |
| PhyLax.LaxGroupFromIsProjection | parse-packet-trace.py:23-47 | the lax row loop is the projection of the strict row loop |
| PhyLax.LaxGroupingIsProjection | parse-packet-trace.py:23-47 | the lax grouping is the strict grouping in lax layout, errors included |
| PhyLax.LaxScanReceivers | parse-packet-trace.py:75-86 | delivered exactly when some expected-type PhyRxBegin entry is in PhyRxEnd, with no drop check |
| PhyLax.JudgeLax | parse-packet-trace.py:59-126 | any verdict except a malformed sender names a registered sender |
| PhyLax.JudgeLaxSpec | parse-packet-trace.py:59-126 | as for the strict judgement, with the sender and data rate read from the inline PhyTxBegin tuple and drops read from the PhyRxDrop tuples |
| PhyLax.ProjectKeepsSender | parse-packet-trace.py:63-64 | the sender of the lax layout is registered |
| PhyLax.JudgeLaxIsJudge | parse-packet-trace.py:57-126 | the lax judgement equals the strict judgement with the drop check disabled |
| PhyLax.LaxStep | parse-packet-trace.py:57-126 | one lax iteration keeps the node set and no other key's record |
| PhyLax.LaxStepKeepsReady | parse-packet-trace.py:57-126 | the keys still to visit stay present and ready |
| PhyLax.LaxClassifyOne | parse-packet-trace.py:58-126 | the lax loop body computes one lax step |
| PhyLax.LaxClassifyTransmissions | parse-packet-trace.py:57-126 | the lax classification loop computes the lax classification fold |
| PhyLax.ReadyProjects | parse-packet-trace.py:57 | readiness carries over to the lax layout |
| PhyLax.LaxStepIsProjection | parse-packet-trace.py:57-126 | a lax step is the projection of the strict step with the drop check disabled |
| PhyLax.LaxClassifyFromIsProjection | parse-packet-trace.py:57-126 | the lax loop from any ready state is the projection of the relaxed strict loop |
| PhyLax.LaxClassifyIsProjection | parse-packet-trace.py:57-126 | the whole lax classification is the relaxed strict classification in lax layout |
| PhyProperties.VerdictsOf | parse_phytx_trace.py:60-137 | one verdict per visited key |
| PhyProperties.CountedAll | parse_phytx_trace.py:60-137 | folding the verdicts creates no node entry |
| PhyProperties.VerdictAt | parse_phytx_trace.py:60-61 | the i-th verdict judges the i-th key's record |
| PhyProperties.ClassifyFromByVerdicts | parse_phytx_trace.py:60-137 | the loop succeeds exactly when no verdict is an abort; its counters are the fold of the verdicts on the records as grouped, so deleting a key never affects later decisions |
| PhyProperties.Number | parse_phytx_trace.py:67-98 | the number of verdicts with a given effect on node n |
| PhyProperties.NumberCompleted | parse_phytx_trace.py:91-97 | the number of completed verdicts, delivered or not |
| PhyProperties.SentSplits | parse_phytx_trace.py:66-137 | Sent = Delivered + NotDelivered + deleted, per node |
| PhyProperties.CountedNode | parse_phytx_trace.py:66-114 | one verdict raises only its sender's Sent (once), the Delivered or NotDelivered of a completed sender (exactly one), and adds the drops of a NotDelivered |
| PhyProperties.CountedAllNode | parse_phytx_trace.py:60-114 | each node's counters and drop list are what the verdicts give it |
| PhyProperties.CountedAllTotals | parse_phytx_trace.py:56-114 | the global delivered and undelivered counters count completed verdicts; `sim_drop_reasons` is all drops in order |
| PhyProperties.AddRatesLength | parse_phytx_trace.py:111-114 | each reason's data-rate list grows by the number of times the reason is recorded |
| PhyProperties.CountedKeepsDropTally | parse_phytx_trace.py:107-114 | one verdict keeps every reason's data-rate list as long as that reason's count in `sim_drop_reasons` |
| PhyProperties.CountedAllKeepsDropTally | parse_phytx_trace.py:107-114 | the whole fold keeps that agreement |
| PhyProperties.ClassifyByVerdicts | parse_phytx_trace.py:60-137 | the pass from the start counters succeeds iff no abort, and its counters are the fold of the verdicts |
| PhyProperties.PhyCountersConserved | parse_phytx_trace.py:66-114 | after the pass every node keeps its type; Sent = Delivered + NotDelivered + deleted; the global counters and the drop tally agree with the verdicts |
| PhyProperties.ClassifyFromRecords | parse_phytx_trace.py:60-137 | a visited record stays exactly when it was not truncated, with Delivered set by its verdict; unvisited ones are untouched |
| PhyProperties.PhyRecordsAfterPass | parse_phytx_trace.py:90-137 | after the pass a key remains exactly when not deleted, and Delivered is true exactly for a completed delivery |
| PhyReport.InRange | parse_phytx_trace.py:161-166 | the number of reasons inside the printed categories |
| PhyReport.Histogram | parse_phytx_trace.py:161-166 | one count per printed category |
| PhyReport.HistogramSnoc | parse_phytx_trace.py:161-166 | a new reason raises its category's count, or none when out of range |
| PhyReport.HistogramSum | parse_phytx_trace.py:160-166 | the category counts add up to the in-range reasons, which is all of them when all are in range |
| PhyReport.NodeLines | parse_phytx_trace.py:181-184 | at most one output line per node |
| PhyReport.NodeLinesSpec | parse_phytx_trace.py:181-184 | a line is written exactly for a node with Sent > 0, carrying its delivered and sent counts |
| PhyReport.WriteNodeLines | parse_phytx_trace.py:181-184 | the output loop writes those lines in node insertion order |
| PhyReport.Report | parse_phytx_trace.py:141-184 | fails exactly when a setting is missing or no transmission remains for the ratio's division; settings are read first |
| PhyReport.ClassifyKeepsNodes | parse_phytx_trace.py:60-137 | the pass keeps the node dictionary's keys |
| PhyReport.LaxGroupsShaped | parse-packet-trace.py:23-47 | the lax first pass yields a shaped lax grouping |
| PhyReport.LaxClassifyKeepsNodes | parse-packet-trace.py:57-126 | the lax pass keeps every node entry |
| PhyReport.ProjectTxsSize | parse-packet-trace.py:147 | the lax dictionary has as many transmissions as the strict one |
| PhyReport.LaxRunIsRelaxedRun | parse-packet-trace.py:23-177 | a whole lax run equals a strict run with the drop check disabled |
| PhyReport.RunPhyOk | parse_phytx_trace.py:12-188 | a successful run grouped, classified and reported |
| PhyReport.PassLines | parse_phytx_trace.py:181-184 | output lines are for exactly the nodes that sent, with counts the verdicts give |
| PhyReport.PassSummary | parse_phytx_trace.py:158-166 | the summary counts completed verdicts; the reason histogram sums to the in-range drops |
| PhyReport.PassRateTable | parse_phytx_trace.py:170-177 | each reason's data-rate counts sum to at most the reason's count, and exactly to it when all rates are 0..5 |
| PhyReport.PassDropTally | parse_phytx_trace.py:109-114 | `sim_drop_reasons` is all drops and agrees with the data-rate lists |
| PhyReport.TallyRateTable | parse_phytx_trace.py:170-177 | the rate table of a reason never counts more than the reason was recorded |
| PhyReport.PhyRunLines | parse_phytx_trace.py:181-184 | a successful run writes a line exactly for each node that sent, with its delivered and sent counts |
| PhyReport.PhyRunSummary | parse_phytx_trace.py:158-166 | a successful run prints the completed counts and the drops, and at least one transmission remains |
| PhyReport.RunPhyParser | parse_phytx_trace.py:12-188 | the script computes the run function, for either variant |
| MacGrouping.MacSourceNamed | parse_macpackets_trace.py:32-47 | the listed sources and MacSentPktMisc are recognised by name; any other name, `Timestamp` included, is kept for the fatal lookup |
| MacGrouping.MacRecordEffect | parse_macpackets_trace.py:38-47 | a row appends its node to its source's list only; MacSentPkt adds `(node, tries)`; the timestamp is untouched |
| MacGrouping.MacAddRow | parse_macpackets_trace.py:30-47 | a row fails exactly when its source has no list |
| MacGrouping.GroupMacTrace | parse_macpackets_trace.py:30-47 | the row loop computes the grouping fold |
| MacGrouping.MacRecordKeepsRegistered | parse_macpackets_trace.py:38-41 | every node a packet lists has an entry |
| MacGrouping.MacAddRowKeepsShape | parse_macpackets_trace.py:30-47 | one row keeps the order duplicate-free and complete, `last_timestamp` the last new key's timestamp, nodes registered and counters fresh |
| MacGrouping.MacGroupFromKeepsShape | parse_macpackets_trace.py:30-47 | the row loop keeps that shape |
| MacGrouping.MacGroupRowsShaped | parse_macpackets_trace.py:30-47 | the first pass yields a shaped grouping |
| MacGrouping.MacGroupFromFailsOnUnknownSource | parse_macpackets_trace.py:38 | the first pass fails exactly when some row's source has no list, naming the first one |
| MacGrouping.MacGroupFromTimestamps | parse_macpackets_trace.py:34-37 | a packet's Timestamp is its first row's timestamp and never changes |
| MacGrouping.MacAddRowColumn | parse_macpackets_trace.py:38 | a row adds to key k's list of source s only when it carries k and s |
| MacGrouping.MacAddRowMisc | parse_macpackets_trace.py:44-47 | a MacSentPkt row adds its tuple to its key's MacSentPktMisc |
| MacGrouping.MacGroupFromColumns | parse_macpackets_trace.py:38 | each list ends as the nodes of the rows of that key and source, in order |
| MacGrouping.MacGroupFromMisc | parse_macpackets_trace.py:44-47 | MacSentPktMisc ends as the tuples of that key's MacSentPkt rows, in order |
| MacGrouping.MacGroupFromNodes | parse_macpackets_trace.py:40-41 | a node entry is created once, at the first row, with that row's device type and zero counters, and is never changed |
| MacClassify.OneDistinct | parse_macpackets_trace.py:68-71 | one distinct transmitter iff MacTx is non-empty and lists one node only |
| MacClassify.Resolve | parse_macpackets_trace.py:66-101 | a counted packet has one transmitter and at most four receivers; a delivered one has as many tries as MacTx entries; an undelivered one has none |
| MacClassify.ResolveSkips | parse_macpackets_trace.py:68-75 | skipped for the transmitter count exactly when MacTx is not one node repeated, for the receivers exactly when more than four distinct |
| MacClassify.ResolveCounts | parse_macpackets_trace.py:84-95 | delivered iff one MacTxOk and the first MacSentPktMisc records `len(MacTx)` tries; undelivered iff otherwise one MacTxDrop |
| MacClassify.ResolveFails | parse_macpackets_trace.py:86-101 | fatal exactly on a tries mismatch or when an unresolved packet divides by a zero `last_timestamp`; skipped without MacSentPktMisc or when unresolved |
| MacClassify.CountDir | parse_macpackets_trace.py:106-141 | the histogram updates succeed exactly when every index is in range |
| MacClassify.CountDirKeepsConsistent | parse_macpackets_trace.py:106-124 | keeps sent sum = packets, sent W sum = nrSent, senttries sum = delivered, senttries W sum = tries, packets = delivered + undelivered, not-received = sent - received, an all-zero sent-vs-received table |
| MacClassify.DirectionSpec | parse_macpackets_trace.py:104-144 | upstream iff the sender is type 1; any other sender is downstream iff the node whose id is its device type exists as a gateway (node 0 for a gateway sender); otherwise a KeyError or the fatal exit |
| MacClassify.MacStep | parse_macpackets_trace.py:66-154 | one packet step keeps the node set |
| MacClassify.MacStepSkips | parse_macpackets_trace.py:68-101 | a skipped packet touches no counter |
| MacClassify.MacStepCounts | parse_macpackets_trace.py:103-154 | a counted packet updates its sender's entry and its direction's statistics only |
| MacClassify.MacClassifyFrom | parse_macpackets_trace.py:66-154 | the pass keeps the node set |
| MacClassify.MacStepKeepsConsistent | parse_macpackets_trace.py:103-154 | one step keeps both directions consistent, every node's type, and Generated = Delivered + NotDelivered |
| MacClassify.MacClassifyFromConsistent | parse_macpackets_trace.py:66-154 | the loop keeps that consistency |
| MacClassify.MacTypesOf | parse_macpackets_trace.py:105 | the device type of every node |
| MacClassify.StartMacConsistent | parse_macpackets_trace.py:54-65 | the initial counters are consistent |
| MacClassify.StartFromConsistent | parse_macpackets_trace.py:54-154 | the loop from the initial counters ends consistent |
| MacClassify.MacPassConsistent | parse_macpackets_trace.py:54-154 | after the pass the histogram sums and W sums match the counters, Generated = Delivered + NotDelivered, and types are unchanged |
| MacClassify.CountInDirection | parse_macpackets_trace.py:106-141 | the direction update computes the direction function |
| MacClassify.MacClassifyOne | parse_macpackets_trace.py:67-154 | the loop body computes one step |
| MacClassify.MacClassifyPackets | parse_macpackets_trace.py:66-154 | the classification loop computes the pass function |
| MacReport.MinOf | parse_macpackets_trace.py:291 | the least node id of a non-empty set |
| MacReport.SortedIds | parse_macpackets_trace.py:291 | `sorted(nodes)`: strictly increasing and holding exactly the ids |
| MacReport.MacNodeLines | parse_macpackets_trace.py:291-296 | at most one line per node |
| MacReport.MacNodeLinesSpec | parse_macpackets_trace.py:291-296 | a line is written exactly for a node with Generated > 0 |
| MacReport.MacNodeLinesIncreasing | parse_macpackets_trace.py:291 | lines come in increasing node id |
| MacReport.WriteMacNodeLines | parse_macpackets_trace.py:291-296 | the output loop writes those lines |
| MacReport.MacReportOf | parse_macpackets_trace.py:196-296 | fails exactly when a setting is missing or there is no upstream packet for the PDR division; writes the simulation line and the node lines |
| MacReport.RunMacOk | parse_macpackets_trace.py:19-300 | a successful run is grouped, classified consistently and reported over sorted nodes |
| MacReport.ReportSimulationLine | parse_macpackets_trace.py:256-278 | the line's upstream sent buckets sum to usPackets and weigh to usSent, its senttries buckets sum to usDelivered, usDelivered <= usPackets, its sent-vs-received table is all zeros; downstream buckets sum to the downstream counters |
| MacReport.MacRunSimulationLine | parse_macpackets_trace.py:256-278 | a successful run's line comes from consistent counters with at least one upstream packet |
| MacReport.MacRunNodeLines | parse_macpackets_trace.py:291-296 | a successful run writes a line exactly for each node with Generated > 0, where Generated = Delivered + NotDelivered, in increasing node id |
| MacReport.RunMacParser | parse_macpackets_trace.py:19-300 | the script computes the run function |
| NsGrouping.NsSourceNamed | parse_nsdsmsgs_trace.py:57-61 | the three sources are recognised by name; any other name is kept for the KeyError |
| NsGrouping.NsRecord | parse_nsdsmsgs_trace.py:56-61 | a row appends its tuple to its source's list only |
| NsGrouping.NsAddRow | parse_nsdsmsgs_trace.py:33-61 | an empty payload changes nothing and fails exactly when its type is not 3; any other row fails exactly when its source has no list |
| NsGrouping.GroupNsTrace | parse_nsdsmsgs_trace.py:32-61 | the row loop computes the grouping fold |
| NsGrouping.NsAddRowKeepsShape | parse_nsdsmsgs_trace.py:48-50 | one row keeps the order duplicate-free and listing exactly the keys |
| NsGrouping.NsGroupFromKeepsShape | parse_nsdsmsgs_trace.py:48-50 | the row loop keeps that shape |
| NsGrouping.NsGroupRowsShaped | parse_nsdsmsgs_trace.py:48-50 | the first pass yields a shaped grouping |
| NsGrouping.NsGroupFromFails | parse_nsdsmsgs_trace.py:33-61 | the first pass succeeds exactly when every empty payload has type 3 and every other row a known source |
| NsGrouping.NsAddRowColumn | parse_nsdsmsgs_trace.py:56-61 | a row adds its tuple to key k's list of source s only when non-empty with k and s |
| NsGrouping.NsGroupFromColumns | parse_nsdsmsgs_trace.py:56-61 | each list ends as the tuples of the non-empty rows of that key and source, in order; empty payloads never reach a list |
| NsGrouping.NsGroupFromKeys | parse_nsdsmsgs_trace.py:48-50 | the messages are exactly the keys of the non-empty rows |
| NsGrouping.NsGroupFromLastTimestamp | parse_nsdsmsgs_trace.py:48-50 | `last_timestamp` ends as the timestamp of the last row that introduced a key |
| NsTally.WindowCount | parse_nsdsmsgs_trace.py:90-97 | the number of tuples in a receive window is at most their number |
| NsTally.WindowsFromSpec | parse_nsdsmsgs_trace.py:90-97 | the window loop succeeds iff every tuple is in window 1 or 2, then adds each window's count, which together make all tuples |
| NsTally.NsStepOk | parse_nsdsmsgs_trace.py:73-106 | a message step fails exactly when the message is never sent, is unresolved with a zero `last_timestamp`, or is resolved with a bad window, two acknowledgements or drops, or a remaining count outside -5..4 |
| NsTally.NsStepSkips | parse_nsdsmsgs_trace.py:80-85 | a message neither acknowledged nor dropped touches no counter |
| NsTally.NsStepCounts | parse_nsdsmsgs_trace.py:87-110 | a resolved message adds its sends per window, one unique message, its tuples to the totals, and one to its remaining-transmissions bucket |
| NsTally.NsStepKeepsConsistent | parse_nsdsmsgs_trace.py:87-110 | one step keeps rw1 + rw2 = total sends, histogram sum = acknowledged, acknowledged and dropped each at most unique, unique at most acknowledged + dropped and at most sends |
| NsTally.NsClassifyFromConsistent | parse_nsdsmsgs_trace.py:71-110 | the loop keeps those relations |
| NsTally.StartConsistent | parse_nsdsmsgs_trace.py:63-70 | the initial counters satisfy them |
| NsTally.StartFromConsistent | parse_nsdsmsgs_trace.py:63-110 | the loop from the initial counters ends consistent |
| NsTally.NsPassConsistent | parse_nsdsmsgs_trace.py:63-110 | the counters after the pass satisfy them |
| NsTally.NsClassifyFromOk | parse_nsdsmsgs_trace.py:71-110 | the loop succeeds exactly when every message passes the script's checks |
| NsTally.NsClassifyFromTotals | parse_nsdsmsgs_trace.py:87-110 | unique = resolved messages; total, acknowledged and dropped = the tuples of resolved messages only |
| NsTally.NsClassifyOne | parse_nsdsmsgs_trace.py:72-110 | the loop body, with its window loop, computes one step |
| NsTally.NsClassifyMessages | parse_nsdsmsgs_trace.py:71-110 | the message loop computes the pass function |
| NsTally.NsReportOf | parse_nsdsmsgs_trace.py:112-122 | the summary fails exactly when there is no unique or no acknowledged message to divide by, and otherwise reports the counters |
| NsTally.NsRunSummary | parse_nsdsmsgs_trace.py:20-122 | a printed summary has 0 < acknowledged <= unique <= sends, dropped <= unique <= acknowledged + dropped, rw1 + rw2 = sends, and a five-bucket histogram summing to acknowledged |
| NsTally.RunNsParser | parse_nsdsmsgs_trace.py:20-122 | the script computes the run function |

## Left out

- Argument parsing, the loop over several CSV files, reading the CSV and skipping its header, opening the settings file, and writing or appending the output files with their header-once check are I/O. The model covers one trace file and one settings text.
- Console printing and warnings are not modelled. This includes the message behind the 0.99 fraction, which only decides whether to print. The division inside that fraction is modelled, because it can fail.
- Converting columns (`int(...)`, `float(...)`) and the column count are not modelled: rows arrive as parsed records, so a ValueError or IndexError on a malformed row is not modelled.
- Timestamps are exact `real` values rather than floats. The ratio columns are not computed: PDR, the per-node ratios and the NS averages. The model keeps only their divisions by zero, as errors. The PER limit is kept as its matched text.
- parse-packet-trace.py keeps node ids as strings. The model uses integers, so two spellings of one number are the same node here.
- Python's `\d` also matches non-ASCII digits. The model matches only `0`-`9`.
- The strict PHY rate table is printed in sorted reason order and the lax one in insertion order. The model keeps the table as a map and does not model the print order.
- Console-only MAC values are not modelled: the downstream not-received count is kept but only printed, and so are the console tables.
- Dead state that is built but never read is not modelled:
  - `app_packets` in both PHY scripts. Its KeyError on an unknown trace source is the same condition as the modelled one.
  - `data_rate_stats` and `output_line_dr_pdrs` in the MAC script.
  - `ds_packets_sent_vs_received` in the MAC script.
  - `nodes`, `mac_packets` and `data_rate_stats` in the NS script.
- dispatch_drcalcperlimit.py is not part of this model. It only builds shell commands for an external simulator.
- simulation_tasks.py is not part of this model. It wraps a subprocess in a distributed task queue.
- The exit status of `exit(1)` and `exit()` is not modelled. Both are a fatal `Err`.
- PhyClassify.Counted: the function's own contract only keeps the node set. The counting it performs is stated by PhyProperties.CountedNode.
- MacClassify.MacStep: the function's own contract only keeps the node set. The updates are stated by MacClassify.MacStepCounts and MacClassify.MacStepKeepsConsistent.
