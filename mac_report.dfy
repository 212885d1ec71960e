/** Output stage of `parse_macpackets_trace.py`: the settings, the
    per-simulation line and the per-end-device lines, and the whole run from
    trace rows to those lines. */
module MacReport {
  import opened Common
  import opened Settings
  import opened MacGrouping
  import opened MacClassify

  // ---------------------------------------------------------------------
  // Python's sorted() on the node ids

  predicate Increasing(xs: seq<NodeId>)
  {
    forall i, j :: 0 <= i < j < |xs| ==> xs[i] < xs[j]
  }

  lemma HasMember(s: set<NodeId>)
    requires s != {}
    ensures exists y :: y in s
  {
    if forall y :: y !in s {
      assert false;
    }
  }

  lemma {:induction false} MinExists(s: set<NodeId>)
    requires s != {}
    ensures exists m :: m in s && forall x :: x in s ==> m <= x
    decreases |s|
  {
    HasMember(s);
    var y :| y in s;
    var others := s - {y};
    assert forall x :: x in s ==> x == y || x in others;
    if others != {} {
      MinExists(others);
      var m :| m in others && forall x :: x in others ==> m <= x;
      if y < m {
        assert forall x :: x in s ==> y <= x;
      } else {
        assert forall x :: x in s ==> m <= x;
      }
    } else {
      assert forall x :: x in s ==> y <= x;
    }
  }

  /** The smallest id of a non-empty set. */
  function MinOf(s: set<NodeId>): (m: NodeId)
    requires s != {}
    ensures m in s && forall x :: x in s ==> m <= x
  {
    MinExists(s);
    var m :| m in s && forall x :: x in s ==> m <= x;
    m
  }

  /** `sorted(nodes)`: the ids in increasing order. */
  function SortedIds(s: set<NodeId>): (r: seq<NodeId>)
    ensures Increasing(r)
    ensures forall x :: x in r <==> x in s
    decreases |s|
  {
    if s == {} then []
    else
      var m := MinOf(s);
      var rest := SortedIds(s - {m});
      assert forall x :: x in rest ==> m < x;
      [m] + rest
  }

  // ---------------------------------------------------------------------
  // Per-end-device lines

  /** One line of the per-end-device file (the PDR column, a float, is not
      modelled). */
  datatype MacNodeLine = MacNodeLine(settings: MacSettings, node: NodeId, delivered: nat, generated: nat, sent: nat, received: nat)

  function LineOf(s: MacSettings, id: NodeId, n: MacNode): MacNodeLine
  {
    MacNodeLine(s, id, n.delivered, n.generated, n.sent, n.received)
  }

  /** The lines, in the given order, of the nodes that generated a packet. */
  function MacNodeLines(s: MacSettings, nodes: map<NodeId, MacNode>, order: seq<NodeId>): (lines: seq<MacNodeLine>)
    requires forall n :: n in order ==> n in nodes
    ensures |lines| <= |order|
  {
    if |order| == 0 then []
    else
      var n := order[0];
      (if nodes[n].generated > 0 then [LineOf(s, n, nodes[n])] else []) + MacNodeLines(s, nodes, order[1..])
  }

  /** A line is written exactly for each listed node with a positive
      Generated, carrying that node's counters. */
  lemma {:induction false} MacNodeLinesSpec(s: MacSettings, nodes: map<NodeId, MacNode>, order: seq<NodeId>, l: MacNodeLine)
    requires forall n :: n in order ==> n in nodes
    ensures l in MacNodeLines(s, nodes, order) <==>
              l.node in order && nodes[l.node].generated > 0 && l == LineOf(s, l.node, nodes[l.node])
  {
    if |order| > 0 {
      MacNodeLinesSpec(s, nodes, order[1..], l);
      assert forall n :: n in order <==> n == order[0] || n in order[1..];
    }
  }

  /** Lines written in increasing node order come out in increasing node
      order. */
  lemma {:induction false} MacNodeLinesIncreasing(s: MacSettings, nodes: map<NodeId, MacNode>, order: seq<NodeId>)
    requires forall n :: n in order ==> n in nodes
    requires Increasing(order)
    ensures var lines := MacNodeLines(s, nodes, order);
            forall i, j :: 0 <= i < j < |lines| ==> lines[i].node < lines[j].node
  {
    if |order| > 0 {
      var rest := MacNodeLines(s, nodes, order[1..]);
      assert Increasing(order[1..]);
      MacNodeLinesIncreasing(s, nodes, order[1..]);
      forall k | 0 <= k < |rest|
        ensures order[0] < rest[k].node
      {
        MacNodeLinesSpec(s, nodes, order[1..], rest[k]);
      }
      var n := order[0];
      if nodes[n].generated > 0 {
        var lines := [LineOf(s, n, nodes[n])] + rest;
        assert forall j :: 0 < j < |lines| ==> lines[j] == rest[j - 1];
      }
    }
  }

  /** The loop that writes the per-end-device file. */
  method WriteMacNodeLines(s: MacSettings, nodes: map<NodeId, MacNode>, order: seq<NodeId>) returns (lines: seq<MacNodeLine>)
    requires forall n :: n in order ==> n in nodes
    ensures lines == MacNodeLines(s, nodes, order)
  {
    lines := [];
    var i := 0;
    while i < |order|
      invariant 0 <= i <= |order|
      invariant lines + MacNodeLines(s, nodes, order[i..]) == MacNodeLines(s, nodes, order)
    {
      var n := order[i];
      assert order[i..][1..] == order[i + 1..];
      if nodes[n].generated > 0 {
        lines := lines + [LineOf(s, n, nodes[n])];
      }
      i := i + 1;
    }
    assert order[i..] == [];
  }

  // ---------------------------------------------------------------------
  // The per-simulation line

  /** The per-simulation line (the PDR column, a float, is not modelled):
      the settings, the upstream delivered / packet / sent / received
      counts, the first five buckets of each upstream histogram, the
      sent-versus-received table, and the downstream histograms. */
  datatype SimulationLine = SimulationLine(
    settings: MacSettings, usDelivered: nat, usPackets: nat, usSent: nat, usReceived: nat,
    usSentHist: seq<int>, usReceivedHist: seq<int>, usSentTriesHist: seq<int>,
    usSentVsReceived: seq<seq<int>>,
    dsSentHist: seq<int>, dsReceivedHist: seq<int>, dsSentTriesHist: seq<int>)

  /** Everything the output stage writes. */
  datatype MacOutput = MacOutput(simulation: SimulationLine, nodeLines: seq<MacNodeLine>)

  datatype MacReportError =
    | BadMacSettings(cause: SettingsError)   // a setting is missing from the settings file
    | NoUpstreamPackets                      // the PDR column divides by zero upstream packets

  /** The first `n` buckets of a histogram, as the output format lists them. */
  function Buckets(h: seq<int>, n: nat): seq<int>
    requires n <= |h|
  {
    h[..n]
  }

  /** The per-simulation line of the given counters. */
  function SimulationLineOf(s: MacSettings, t: MacTally): SimulationLine
    requires |t.up.sent| == 5 && |t.up.received| >= 5 && |t.up.sentTries| == 5
    requires |t.down.sent| == 5 && |t.down.received| >= 5 && |t.down.sentTries| == 5
  {
    SimulationLine(s, t.up.nrDelivered, t.up.nrPackets, t.up.nrSent, t.up.nrReceived,
                   Buckets(t.up.sent, 5), Buckets(t.up.received, 5), Buckets(t.up.sentTries, 5),
                   t.up.sentVsReceived,
                   Buckets(t.down.sent, 5), Buckets(t.down.received, 5), Buckets(t.down.sentTries, 5))
  }

  /** The output stage over the counters the pass left: settings first,
      then the per-simulation line, which divides by the upstream packet
      count, then the lines of the nodes in the given order. */
  function MacReportOf(text: string, t: MacTally, order: seq<NodeId>): (r: Result<MacOutput, MacReportError>)
    requires |t.up.sent| == 5 && |t.up.received| >= 5 && |t.up.sentTries| == 5
    requires |t.down.sent| == 5 && |t.down.received| >= 5 && |t.down.sentTries| == 5
    requires forall n :: n in order ==> n in t.nodes
    ensures r.Err? <==> ParseMacSettings(text).Err? || t.up.nrPackets == 0
    ensures ParseMacSettings(text).Err? ==> r == Err(BadMacSettings(ParseMacSettings(text).error))
    ensures r.Ok? ==> r.value.simulation == SimulationLineOf(ParseMacSettings(text).value, t)
    ensures r.Ok? ==> r.value.nodeLines == MacNodeLines(ParseMacSettings(text).value, t.nodes, order)
  {
    var s :- match ParseMacSettings(text) { case Err(e) => Err(BadMacSettings(e)) case Ok(s) => Ok(s) };
    if t.up.nrPackets == 0 then Err(NoUpstreamPackets)
    else Ok(MacOutput(SimulationLineOf(s, t), MacNodeLines(s, t.nodes, order)))
  }

  // ---------------------------------------------------------------------
  // Whole runs

  datatype MacRunError =
    | MacGroupingFailed(group: MacGroupError)
    | MacClassificationFailed(mac: MacError)
    | MacReportFailed(report: MacReportError)

  /** A run of `parse_macpackets_trace.py` on one trace and its settings
      text. */
  function RunMac(rows: seq<MacRow>, text: string): Result<MacOutput, MacRunError>
  {
    match MacGroupRows(rows)
    case Err(e) => Err(MacGroupingFailed(e))
    case Ok(g) =>
      MacGroupRowsShaped(rows);
      match MacClassifyAll(g)
      case Err(e) => Err(MacClassificationFailed(e))
      case Ok(t) =>
        MacPassConsistent(g);
        match MacReportOf(text, t, SortedIds(t.nodes.Keys))
        case Err(e) => Err(MacReportFailed(e))
        case Ok(out) => Ok(out)
  }

  lemma RunMacOk(rows: seq<MacRow>, text: string)
    requires RunMac(rows, text).Ok?
    ensures MacGroupRows(rows).Ok? && MacShaped(MacGroupRows(rows).value)
    ensures MacClassifyAll(MacGroupRows(rows).value).Ok?
    ensures var g := MacGroupRows(rows).value;
            var t := MacClassifyAll(g).value;
            && MacConsistent(t, MacTypesOf(g.nodes))
            && ParseMacSettings(text).Ok? && t.up.nrPackets > 0
            && MacReportOf(text, t, SortedIds(t.nodes.Keys)).Ok?
            && RunMac(rows, text).value == MacReportOf(text, t, SortedIds(t.nodes.Keys)).value
  {
    MacGroupRowsShaped(rows);
    MacPassConsistent(MacGroupRows(rows).value);
  }

  /** The per-simulation line written from consistent counters: each
      upstream histogram the line lists sums to the packet count and its
      weighted sum is the matching total (sent, and tries of delivered
      packets), and the sent-versus-received table is all zeros. */
  lemma ReportSimulationLine(s: MacSettings, t: MacTally)
    requires DirConsistent(t.up) && |t.up.received| == 20
    requires DirConsistent(t.down) && |t.down.received| == 5
    ensures var l := SimulationLineOf(s, t);
            && l.settings == s && l.usPackets == t.up.nrPackets
            && Sum(l.usSentHist) == l.usPackets && WeightedSum(l.usSentHist) == l.usSent
            && Sum(l.usSentTriesHist) == l.usDelivered && WeightedSum(l.usSentTriesHist) == t.up.nrTries
            && l.usDelivered <= l.usPackets
            && l.usReceivedHist == t.up.received[..5]
            && l.usSentVsReceived == EmptySentVsReceived
            && Sum(l.dsSentHist) == t.down.nrPackets && Sum(l.dsSentTriesHist) == t.down.nrDelivered
            && l.dsReceivedHist == t.down.received
  {
    assert Buckets(t.up.sent, 5) == t.up.sent;
    assert Buckets(t.up.sentTries, 5) == t.up.sentTries;
    assert Buckets(t.down.sent, 5) == t.down.sent;
    assert Buckets(t.down.sentTries, 5) == t.down.sentTries;
    assert Buckets(t.down.received, 5) == t.down.received;
  }

  /** The per-simulation line of a run carries the settings and the
      counters of a consistent pass. */
  lemma MacRunSimulationLine(rows: seq<MacRow>, text: string)
    requires RunMac(rows, text).Ok?
    ensures MacGroupRows(rows).Ok? && MacShaped(MacGroupRows(rows).value)
    ensures MacClassifyAll(MacGroupRows(rows).value).Ok?
    ensures var t := MacClassifyAll(MacGroupRows(rows).value).value;
            && DirConsistent(t.up) && |t.up.received| == 20
            && DirConsistent(t.down) && |t.down.received| == 5
            && t.up.nrPackets > 0
            && RunMac(rows, text).value.simulation == SimulationLineOf(ParseMacSettings(text).value, t)
  {
    RunMacOk(rows, text);
  }

  /** The per-end-device lines of a run: in increasing node order, one for
      each node that generated a counted packet, carrying its counters; a
      node's Generated is its Delivered plus its NotDelivered. */
  lemma MacRunNodeLines(rows: seq<MacRow>, text: string, l: MacNodeLine)
    requires RunMac(rows, text).Ok?
    ensures MacGroupRows(rows).Ok? && MacShaped(MacGroupRows(rows).value)
    ensures MacClassifyAll(MacGroupRows(rows).value).Ok?
    ensures MacClassifyAll(MacGroupRows(rows).value).value.nodes.Keys == MacGroupRows(rows).value.nodes.Keys
    ensures var g := MacGroupRows(rows).value;
            var t := MacClassifyAll(g).value;
            && (l in RunMac(rows, text).value.nodeLines <==>
                  l.node in g.nodes && t.nodes[l.node].generated > 0
                  && l == LineOf(ParseMacSettings(text).value, l.node, t.nodes[l.node]))
            && (l.node in t.nodes ==> t.nodes[l.node].generated == t.nodes[l.node].delivered + t.nodes[l.node].notDelivered)
    ensures var lines := RunMac(rows, text).value.nodeLines;
            forall i, j :: 0 <= i < j < |lines| ==> lines[i].node < lines[j].node
  {
    RunMacOk(rows, text);
    var g := MacGroupRows(rows).value;
    var t := MacClassifyAll(g).value;
    var s := ParseMacSettings(text).value;
    var order := SortedIds(t.nodes.Keys);
    MacNodeLinesSpec(s, t.nodes, order, l);
    MacNodeLinesIncreasing(s, t.nodes, order);
  }

  /** The whole script as it runs: group, classify, then write. */
  method RunMacParser(rows: seq<MacRow>, text: string) returns (r: Result<MacOutput, MacRunError>)
    ensures r == RunMac(rows, text)
  {
    var grouped := GroupMacTrace(rows);
    if grouped.Err? {
      return Err(MacGroupingFailed(grouped.error));
    }
    var g := grouped.value;
    MacGroupRowsShaped(rows);
    var classified := MacClassifyPackets(g);
    if classified.Err? {
      return Err(MacClassificationFailed(classified.error));
    }
    var t := classified.value;
    MacPassConsistent(g);
    var settings := ParseMacSettings(text);
    if settings.Err? {
      return Err(MacReportFailed(BadMacSettings(settings.error)));
    }
    if t.up.nrPackets == 0 {
      return Err(MacReportFailed(NoUpstreamPackets));
    }
    var s := settings.value;
    var lines := WriteMacNodeLines(s, t.nodes, SortedIds(t.nodes.Keys));
    r := Ok(MacOutput(
           SimulationLine(s, t.up.nrDelivered, t.up.nrPackets, t.up.nrSent, t.up.nrReceived,
                          t.up.sent[..5], t.up.received[..5], t.up.sentTries[..5],
                          t.up.sentVsReceived,
                          t.down.sent[..5], t.down.received[..5], t.down.sentTries[..5]),
           lines));
    assert r.value.simulation == SimulationLineOf(s, t);
  }
}
