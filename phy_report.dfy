/** The output stage of both PHY parsers: the simulation settings, the
    delivery summary, the drop-reason histograms, and one output row per node
    that sent something; and the whole run of each parser from trace rows and
    settings text to that report. */
module PhyReport {
  import opened Common
  import opened Settings
  import opened PhyGrouping
  import opened PhyJudge
  import opened PhyClassify
  import opened PhyProperties
  import opened PhyLax

  /** How many entries of xs are in `0 .. n-1`. */
  function InRange(xs: seq<int>, n: nat): (r: nat)
    ensures r <= |xs|
  {
    if |xs| == 0 then 0 else InRange(xs[..|xs| - 1], n) + (if 0 <= xs[|xs| - 1] < n then 1 else 0)
  }

  /** `[xs.count(0), …, xs.count(n-1)]`, the drop-reason and data-rate
      tables of the summary (n is 6 in both). */
  function Histogram(xs: seq<int>, n: nat): (h: seq<int>)
    ensures |h| == n
  {
    seq(n, i => Count(xs, i))
  }

  /** One more entry moves one bucket up by one, if it falls in a bucket. */
  lemma HistogramSnoc(xs: seq<int>, x: int, n: nat)
    ensures 0 <= x < n ==> Bump(Histogram(xs, n), x) == Some(Histogram(xs + [x], n))
    ensures !(0 <= x < n) ==> Histogram(xs + [x], n) == Histogram(xs, n)
  {
    var h, h' := Histogram(xs, n), Histogram(xs + [x], n);
    assert (xs + [x])[..|xs|] == xs;
    assert forall i :: 0 <= i < n ==> h'[i] == h[i] + (if x == i then 1 else 0);
    if 0 <= x < n {
      assert h' == h[x := h[x] + 1];
    } else {
      assert h' == h;
    }
  }

  /** The buckets add up to the entries that fall in one; so they account
      for every entry exactly when all are in range. */
  lemma {:induction false} HistogramSum(xs: seq<int>, n: nat)
    ensures Sum(Histogram(xs, n)) == InRange(xs, n)
    ensures (forall i :: 0 <= i < |xs| ==> 0 <= xs[i] < n) ==> Sum(Histogram(xs, n)) == |xs|
  {
    if |xs| == 0 {
      assert Histogram(xs, n) == Zeros(n);
      SumZeros(n);
    } else {
      var p, x := xs[..|xs| - 1], xs[|xs| - 1];
      assert p + [x] == xs;
      HistogramSum(p, n);
      HistogramSnoc(p, x, n);
    }
  }

  /** One line of the output file; the delivery ratio column is left out. */
  datatype NodeLine = NodeLine(settings: PhySettings, node: NodeId, delivered: nat, sent: nat)

  /** The output lines, in node order, of the nodes with a positive Sent. */
  function NodeLines(s: PhySettings, nodes: map<NodeId, PhyNode>, order: seq<NodeId>): (lines: seq<NodeLine>)
    requires forall n :: n in order ==> n in nodes
    ensures |lines| <= |order|
  {
    if |order| == 0 then []
    else
      var n := order[0];
      (if nodes[n].sent > 0 then [NodeLine(s, n, nodes[n].delivered, nodes[n].sent)] else [])
      + NodeLines(s, nodes, order[1..])
  }

  /** A line is written exactly for each listed node that sent something,
      carrying that node's counters and the settings. */
  lemma {:induction false} NodeLinesSpec(s: PhySettings, nodes: map<NodeId, PhyNode>, order: seq<NodeId>, l: NodeLine)
    requires forall n :: n in order ==> n in nodes
    ensures l in NodeLines(s, nodes, order) <==>
              l.node in order && nodes[l.node].sent > 0
              && l == NodeLine(s, l.node, nodes[l.node].delivered, nodes[l.node].sent)
  {
    if |order| > 0 {
      NodeLinesSpec(s, nodes, order[1..], l);
      assert forall n :: n in order <==> n == order[0] || n in order[1..];
    }
  }

  /** The loop that writes the output file. */
  method WriteNodeLines(s: PhySettings, nodes: map<NodeId, PhyNode>, order: seq<NodeId>) returns (lines: seq<NodeLine>)
    requires forall n :: n in order ==> n in nodes
    ensures lines == NodeLines(s, nodes, order)
  {
    lines := [];
    var i := 0;
    while i < |order|
      invariant 0 <= i <= |order|
      invariant lines + NodeLines(s, nodes, order[i..]) == NodeLines(s, nodes, order)
    {
      var n := order[i];
      assert order[i..][1..] == order[i + 1..];
      if nodes[n].sent > 0 {
        lines := lines + [NodeLine(s, n, nodes[n].delivered, nodes[n].sent)];
      }
      i := i + 1;
    }
    assert order[i..] == [];
  }

  /** What the output stage prints and writes: the delivered, remaining and
      undelivered transmission counts of the summary line, the number of
      recorded drops, the reason histogram, the data-rate histogram of each
      reason, and the output lines. */
  datatype PhySummary = PhySummary(
    settings: PhySettings, delivered: nat, remaining: nat, undelivered: nat, dropped: nat,
    reasonCounts: seq<int>, rateCounts: map<int, seq<int>>, lines: seq<NodeLine>)

  datatype ReportError =
    | BadSettings(cause: SettingsError)   // a setting is missing from the settings file
    | NoTransmissions                     // division by the number of remaining transmissions

  /** The output stage over the state the classification left: the settings
      are read first, then the summary divides by the number of remaining
      transmissions. */
  function Report(text: string, remaining: nat, t: Tally, order: seq<NodeId>): (r: Result<PhySummary, ReportError>)
    requires forall n :: n in order ==> n in t.nodes
    ensures r.Err? <==> ParsePhySettings(text).Err? || remaining == 0
    ensures ParsePhySettings(text).Err? ==> r == Err(BadSettings(ParsePhySettings(text).error))
    ensures r.Ok? ==> r.value.settings == ParsePhySettings(text).value && r.value.remaining == remaining
  {
    match ParsePhySettings(text)
    case Err(e) => Err(BadSettings(e))
    case Ok(s) =>
      if remaining == 0 then Err(NoTransmissions)
      else
        Ok(PhySummary(s, t.nDelivered, remaining, t.nUndelivered, |t.simDropReasons|,
                      Histogram(t.simDropReasons, 6),
                      map r | r in t.drByReason :: Histogram(t.drByReason[r], 6),
                      NodeLines(s, t.nodes, order)))
  }

  // ---------------------------------------------------------------------
  // Whole runs

  datatype PhyRunError =
    | GroupingFailed(group: GroupError)
    | ClassificationFailed(phy: PhyError)
    | ReportFailed(report: ReportError)

  lemma ClassifyKeepsNodes(strict: bool, g: PhyGroups)
    requires Shaped(g) && Classify(strict, g).Ok?
    ensures Classify(strict, g).value.tally.nodes.Keys == g.nodes.Keys
  {
    ClassifyByVerdicts(strict, g);
  }

  /** A run of `parse_phytx_trace.py` (strict) or of the drop-check-free
      rule on the strict layout, from the trace rows and the settings
      text. */
  function RunPhy(strict: bool, rows: seq<PhyRow>, text: string): Result<PhySummary, PhyRunError>
  {
    match GroupRows(rows)
    case Err(e) => Err(GroupingFailed(e))
    case Ok(g) =>
      GroupRowsShaped(rows);
      match Classify(strict, g)
      case Err(e) => Err(ClassificationFailed(e))
      case Ok(st) =>
        ClassifyKeepsNodes(strict, g);
        match Report(text, |st.txs|, st.tally, g.nodeOrder)
        case Err(e) => Err(ReportFailed(e))
        case Ok(s) => Ok(s)
  }

  /** A run of `parse-packet-trace.py`. */
  function RunLax(rows: seq<PhyRow>, text: string): Result<PhySummary, PhyRunError>
  {
    match LaxGroupRows(rows)
    case Err(e) => Err(GroupingFailed(e))
    case Ok(g) =>
      LaxGroupsShaped(rows);
      match LaxClassify(g)
      case Err(e) => Err(ClassificationFailed(e))
      case Ok(st) =>
        LaxClassifyKeepsNodes(rows);
        match Report(text, |st.txs|, st.tally, g.nodeOrder)
        case Err(e) => Err(ReportFailed(e))
        case Ok(s) => Ok(s)
  }

  lemma LaxGroupsShaped(rows: seq<PhyRow>)
    requires LaxGroupRows(rows).Ok?
    ensures LaxShaped(LaxGroupRows(rows).value)
  {
    LaxGroupingIsProjection(rows);
    GroupRowsShaped(rows);
    LaxClassifyIsProjection(GroupRows(rows).value);
  }

  lemma LaxClassifyKeepsNodes(rows: seq<PhyRow>)
    requires LaxGroupRows(rows).Ok?
    ensures LaxShaped(LaxGroupRows(rows).value)
    ensures var g := LaxGroupRows(rows).value;
            LaxClassify(g).Ok? ==> forall n :: n in g.nodeOrder ==> n in LaxClassify(g).value.tally.nodes
  {
    LaxGroupsShaped(rows);
    LaxGroupingIsProjection(rows);
    GroupRowsShaped(rows);
    var g := GroupRows(rows).value;
    LaxClassifyIsProjection(g);
    if Classify(false, g).Ok? {
      ClassifyKeepsNodes(false, g);
    }
  }

  lemma ProjectTxsSize(txs: map<string, PhyTx>)
    ensures |ProjectTxs(txs)| == |txs|
  {
    assert ProjectTxs(txs).Keys == txs.Keys;
    assert |ProjectTxs(txs).Keys| == |txs.Keys|;
  }

  /** The earlier parser produces exactly the report of the strict one with
      the drop check switched off, including every failure. */
  lemma LaxRunIsRelaxedRun(rows: seq<PhyRow>, text: string)
    ensures RunLax(rows, text) == RunPhy(false, rows, text)
  {
    LaxGroupingIsProjection(rows);
    if GroupRows(rows).Ok? {
      var g := GroupRows(rows).value;
      GroupRowsShaped(rows);
      LaxClassifyIsProjection(g);
      if Classify(false, g).Ok? {
        ClassifyKeepsNodes(false, g);
        ProjectTxsSize(Classify(false, g).value.txs);
      }
    }
  }

  /** A run that reaches the output grouped the rows, classified every
      transmission without an abort, and reported on the state left. */
  lemma RunPhyOk(strict: bool, rows: seq<PhyRow>, text: string)
    requires RunPhy(strict, rows, text).Ok?
    ensures GroupRows(rows).Ok? && Shaped(GroupRows(rows).value)
    ensures var g := GroupRows(rows).value;
            && Classify(strict, g).Ok?
            && Classify(strict, g).value.tally.nodes.Keys == g.nodes.Keys
            && Report(text, |Classify(strict, g).value.txs|, Classify(strict, g).value.tally, g.nodeOrder).Ok?
            && RunPhy(strict, rows, text).value
               == Report(text, |Classify(strict, g).value.txs|, Classify(strict, g).value.tally, g.nodeOrder).value
  {
    GroupRowsShaped(rows);
    ClassifyKeepsNodes(strict, GroupRows(rows).value);
  }

  /** After a pass that does not abort, a line is written exactly for each
      node whose count of transmissions that were not skipped is positive;
      the line carries that count as Sent and the number of its delivered
      transmissions as Delivered. */
  lemma PassLines(strict: bool, g: PhyGroups, s: PhySettings, l: NodeLine)
    requires Shaped(g) && Classify(strict, g).Ok?
    ensures forall n :: n in g.nodeOrder ==> n in Classify(strict, g).value.tally.nodes
    ensures var vs := Verdicts(strict, g);
            l in NodeLines(s, Classify(strict, g).value.tally.nodes, g.nodeOrder) <==>
              l.node in g.nodes && Number(vs, l.node, CountsSent) > 0
              && l == NodeLine(s, l.node, Number(vs, l.node, CountsDelivered), Number(vs, l.node, CountsSent))
  {
    var vs := Verdicts(strict, g);
    ClassifyKeepsNodes(strict, g);
    var t := Classify(strict, g).value.tally;
    NodeLinesSpec(s, t.nodes, g.nodeOrder, l);
    if l.node in g.nodes {
      ClassifyByVerdicts(strict, g);
      assert g.nodes[l.node] == FreshNode(g.nodes[l.node].deviceType);
      CountedAllNode(StartTally(g.nodes), vs, l.node);
    }
  }

  /** The summary line's counts after a pass that does not abort: delivered
      and undelivered are the completed transmissions by outcome, and the
      reason histogram accounts for every recorded drop whose reason is one
      of the six ns-3 drop reasons. */
  lemma PassSummary(strict: bool, g: PhyGroups)
    requires Shaped(g) && Classify(strict, g).Ok?
    ensures var t := Classify(strict, g).value.tally;
            var vs := Verdicts(strict, g);
            && t.nDelivered == NumberCompleted(vs, true)
            && t.nUndelivered == NumberCompleted(vs, false)
            && |t.simDropReasons| == |AllDrops(vs)|
            && Sum(Histogram(t.simDropReasons, 6)) == InRange(AllDrops(vs), 6)
  {
    var vs := Verdicts(strict, g);
    ClassifyByVerdicts(strict, g);
    CountedAllTotals(StartTally(g.nodes), vs);
    assert Classify(strict, g).value.tally.simDropReasons == AllDrops(vs);
    HistogramSum(AllDrops(vs), 6);
  }

  /** Each reason's data-rate row adds up to at most the number of times
      that reason was recorded, and exactly to it when every data rate is a
      valid index. */
  lemma PassRateTable(strict: bool, g: PhyGroups, reason: int)
    requires Shaped(g) && Classify(strict, g).Ok?
    requires reason in Classify(strict, g).value.tally.drByReason
    ensures var t := Classify(strict, g).value.tally;
            && Sum(Histogram(t.drByReason[reason], 6)) <= Count(AllDrops(Verdicts(strict, g)), reason)
            && ((forall i :: 0 <= i < |t.drByReason[reason]| ==> 0 <= t.drByReason[reason][i] < 6) ==>
                  Sum(Histogram(t.drByReason[reason], 6)) == Count(AllDrops(Verdicts(strict, g)), reason))
  {
    PassDropTally(strict, g);
    TallyRateTable(Classify(strict, g).value.tally, reason);
  }

  /** The pass leaves `sim_drop_reasons` as the drops of all verdicts, in
      step with the data-rate lists. */
  lemma PassDropTally(strict: bool, g: PhyGroups)
    requires Shaped(g) && Classify(strict, g).Ok?
    ensures Classify(strict, g).value.tally.simDropReasons == AllDrops(Verdicts(strict, g))
    ensures DropTallyAgrees(Classify(strict, g).value.tally)
  {
    var vs := Verdicts(strict, g);
    ClassifyByVerdicts(strict, g);
    CountedAllTotals(StartTally(g.nodes), vs);
    assert DropTallyAgrees(StartTally(g.nodes));
    CountedAllKeepsDropTally(StartTally(g.nodes), vs);
  }

  lemma TallyRateTable(t: Tally, reason: int)
    requires DropTallyAgrees(t) && reason in t.drByReason
    ensures Sum(Histogram(t.drByReason[reason], 6)) <= Count(t.simDropReasons, reason)
    ensures (forall i :: 0 <= i < |t.drByReason[reason]| ==> 0 <= t.drByReason[reason][i] < 6) ==>
              Sum(Histogram(t.drByReason[reason], 6)) == Count(t.simDropReasons, reason)
  {
    assert Count(t.simDropReasons, reason) == |RatesOf(t.drByReason, reason)|;
    HistogramSum(t.drByReason[reason], 6);
  }

  /** The lines of a run that reaches the output, as in `PassLines`. */
  lemma PhyRunLines(strict: bool, rows: seq<PhyRow>, text: string, l: NodeLine)
    requires RunPhy(strict, rows, text).Ok?
    ensures GroupRows(rows).Ok? && Shaped(GroupRows(rows).value)
    ensures var g := GroupRows(rows).value;
            var vs := Verdicts(strict, g);
            l in RunPhy(strict, rows, text).value.lines <==>
              l.node in g.nodes && Number(vs, l.node, CountsSent) > 0
              && l == NodeLine(ParsePhySettings(text).value, l.node, Number(vs, l.node, CountsDelivered), Number(vs, l.node, CountsSent))
  {
    RunPhyOk(strict, rows, text);
    PassLines(strict, GroupRows(rows).value, ParsePhySettings(text).value, l);
  }

  /** The summary of a run that reaches the output, as in `PassSummary`;
      there is at least one remaining transmission. */
  lemma PhyRunSummary(strict: bool, rows: seq<PhyRow>, text: string)
    requires RunPhy(strict, rows, text).Ok?
    ensures GroupRows(rows).Ok? && Shaped(GroupRows(rows).value)
    ensures var s := RunPhy(strict, rows, text).value;
            var vs := Verdicts(strict, GroupRows(rows).value);
            && s.delivered == NumberCompleted(vs, true)
            && s.undelivered == NumberCompleted(vs, false)
            && s.dropped == |AllDrops(vs)|
            && Sum(s.reasonCounts) == InRange(AllDrops(vs), 6)
            && s.remaining > 0
  {
    RunPhyOk(strict, rows, text);
    PassSummary(strict, GroupRows(rows).value);
  }

  /** The strict parser as the scripts run it. */
  method RunPhyParser(strict: bool, rows: seq<PhyRow>, text: string) returns (r: Result<PhySummary, PhyRunError>)
    ensures r == RunPhy(strict, rows, text)
  {
    var grouped := GroupPhyTrace(rows);
    if grouped.Err? {
      return Err(GroupingFailed(grouped.error));
    }
    var g := grouped.value;
    GroupRowsShaped(rows);
    var classified := ClassifyPhyTransmissions(strict, g);
    if classified.Err? {
      return Err(ClassificationFailed(classified.error));
    }
    var st := classified.value;
    ClassifyKeepsNodes(strict, g);
    var settings := ParsePhySettings(text);
    if settings.Err? {
      return Err(ReportFailed(BadSettings(settings.error)));
    }
    if |st.txs| == 0 {
      return Err(ReportFailed(NoTransmissions));
    }
    var lines := WriteNodeLines(settings.value, st.tally.nodes, g.nodeOrder);
    r := Ok(PhySummary(settings.value, st.tally.nDelivered, |st.txs|, st.tally.nUndelivered, |st.tally.simDropReasons|,
                       Histogram(st.tally.simDropReasons, 6),
                       map k | k in st.tally.drByReason :: Histogram(st.tally.drByReason[k], 6),
                       lines));
  }
}
