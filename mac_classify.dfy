/** Second pass of `parse_macpackets_trace.py`: visit the packets in
    first-seen order, skip the malformed and unresolved ones, and fold each
    counted packet into the statistics of its direction (upstream for an
    end device's packet, downstream for a gateway's) and into its sender's
    counters. */
module MacClassify {
  import opened Common
  import opened MacGrouping

  /** Python's `len(set(xs))`. */
  function DistinctCount(xs: seq<NodeId>): nat
  {
    |set x | x in xs|
  }

  lemma EmptyDistinct(xs: seq<NodeId>)
    requires |xs| == 0
    ensures DistinctCount(xs) == 0
  {
    assert (set x | x in xs) == {};
  }

  lemma TwoDistinct(xs: seq<NodeId>, i: nat)
    requires i < |xs| && xs[i] != xs[0]
    ensures DistinctCount(xs) >= 2
  {
    var s := set x | x in xs;
    var pair := {xs[0], xs[i]};
    assert pair <= s;
    assert s == pair + (s - pair);
    assert |pair| == 2;
  }

  /** A list has one distinct entry exactly when it is non-empty and every
      entry equals the first. */
  lemma OneDistinct(xs: seq<NodeId>)
    ensures DistinctCount(xs) == 1 <==> |xs| > 0 && forall i :: 0 <= i < |xs| ==> xs[i] == xs[0]
  {
    if |xs| > 0 && forall i :: 0 <= i < |xs| ==> xs[i] == xs[0] {
      assert (set x | x in xs) == {xs[0]};
    }
    if |xs| == 0 {
      EmptyDistinct(xs);
    }
    forall i | 0 <= i < |xs| && xs[i] != xs[0]
      ensures DistinctCount(xs) >= 2
    {
      TwoDistinct(xs, i);
    }
  }

  /** Why a packet touches no counter. */
  datatype SkipReason =
    | NotOneTransmitter     // MacTx names a number of distinct nodes other than one
    | TooManyReceivers      // MacRx names more than four distinct nodes
    | NoSentPktTries        // acknowledged but no MacSentPkt tuple recorded
    | Unresolved            // neither one MacTxOk nor one MacTxDrop

  datatype Resolution = Skipped(why: SkipReason) | Counts(delivered: bool, tries: int)

  /** The fatal conditions of the pass. */
  datatype MacError =
    | TriesMismatch(key: string)              // `assert nr_sent == nr_sent_tries` fails
    | MiscNotTuple(key: string)               // MacSentPktMisc starts with a bare node id (TypeError)
    | ZeroLastTimestamp(key: string)          // `Timestamp / last_timestamp` with a zero divisor
    | UnknownTypeNode(key: string, id: int)   // `nodes[tx_node_devicetype]` raises KeyError
    | UnknownDeviceType(key: string)          // "Fatal error unknown device type", then exit
    | HistogramIndex(key: string)             // a histogram index raises IndexError

  /** How a packet is resolved: skip, count as delivered with the recorded
      number of tries, count as not delivered, or fail. `last` is
      `last_timestamp`, which the unresolved case divides by. */
  function Resolve(key: string, p: MacPacket, last: real): (r: Result<Resolution, MacError>)
    ensures r.Ok? && r.value.Counts? ==> DistinctCount(p.tx) == 1 && DistinctCount(p.rx) <= 4
    ensures r.Ok? && r.value.Counts? && r.value.delivered ==> r.value.tries == |p.tx|
    ensures r.Ok? && r.value.Counts? && !r.value.delivered ==> r.value.tries == 0
  {
    if DistinctCount(p.tx) != 1 then Ok(Skipped(NotOneTransmitter))
    else if DistinctCount(p.rx) > 4 then Ok(Skipped(TooManyReceivers))
    else if |p.txOk| == 1 then
      if |p.sentPktMisc| > 0 then
        match p.sentPktMisc[0]
        case BareNode(_) => Err(MiscNotTuple(key))
        case Tries(_, n) => if |p.tx| != n then Err(TriesMismatch(key)) else Ok(Counts(true, n))
      else Ok(Skipped(NoSentPktTries))
    else if |p.txDrop| == 1 then Ok(Counts(false, 0))
    else if last == 0.0 then Err(ZeroLastTimestamp(key))
    else Ok(Skipped(Unresolved))
  }

  /** The packet is well formed: one transmitter, at most four distinct
      receivers. */
  predicate WellFormed(p: MacPacket)
  {
    DistinctCount(p.tx) == 1 && DistinctCount(p.rx) <= 4
  }

  /** The skip rules: a packet whose MacTx entries are not all one node (or
      which has none) is skipped first, then one with more than four distinct
      receivers; each well-formed packet is counted, skipped as unresolved,
      or stops the run. */
  lemma ResolveSkips(key: string, p: MacPacket, last: real)
    ensures Resolve(key, p, last) == Ok(Skipped(NotOneTransmitter)) <==>
              !(|p.tx| > 0 && forall i :: 0 <= i < |p.tx| ==> p.tx[i] == p.tx[0])
    ensures Resolve(key, p, last) == Ok(Skipped(TooManyReceivers)) <==> DistinctCount(p.tx) == 1 && DistinctCount(p.rx) > 4
    ensures Resolve(key, p, last).Ok? && Resolve(key, p, last).value.Counts? ==> WellFormed(p)
  {
    OneDistinct(p.tx);
  }

  /** A well-formed packet is delivered exactly when it has one MacTxOk and
      its first MacSentPktMisc entry is a tuple whose count is the number of
      MacTx entries; it is not delivered exactly when it has no single
      MacTxOk but one MacTxDrop. */
  lemma ResolveCounts(key: string, p: MacPacket, last: real)
    requires WellFormed(p)
    ensures Resolve(key, p, last) == Ok(Counts(true, |p.tx|)) <==>
              |p.txOk| == 1 && |p.sentPktMisc| > 0 && p.sentPktMisc[0] == Tries(p.sentPktMisc[0].node, |p.tx|)
    ensures Resolve(key, p, last) == Ok(Counts(false, 0)) <==> |p.txOk| != 1 && |p.txDrop| == 1
  {
  }

  /** The fatal and the remaining skip cases of a well-formed packet: an
      acknowledged packet whose first MacSentPktMisc entry disagrees with
      MacTx stops the run, and so does an unresolved packet when
      `last_timestamp` is zero. */
  lemma ResolveFails(key: string, p: MacPacket, last: real)
    requires WellFormed(p)
    ensures Resolve(key, p, last).Err? <==>
              (|p.txOk| == 1 && |p.sentPktMisc| > 0 && p.sentPktMisc[0] != Tries(p.sentPktMisc[0].node, |p.tx|))
              || (|p.txOk| != 1 && |p.txDrop| != 1 && last == 0.0)
    ensures Resolve(key, p, last) == Ok(Skipped(NoSentPktTries)) <==> |p.txOk| == 1 && |p.sentPktMisc| == 0
    ensures Resolve(key, p, last) == Ok(Skipped(Unresolved)) <==> |p.txOk| != 1 && |p.txDrop| != 1 && last != 0.0
  {
  }

  // ---------------------------------------------------------------------
  // Direction statistics

  /** The statistics of one direction: the counters of the stats dictionary,
      the sent / received / sent-tries histograms, the count of transmissions
      never received, and the sent-versus-received table. */
  datatype DirStats = DirStats(
    nrPackets: nat, nrSent: nat, nrReceived: nat, nrDelivered: nat, nrUndelivered: nat, nrTries: int,
    sent: seq<int>, received: seq<int>, sentTries: seq<int>, notReceived: int, sentVsReceived: seq<seq<int>>)

  /** `[[0], [0, 0], [0, 0, 0], [0, 0, 0, 0], [0, 0, 0, 0, 0]]`. */
  const EmptySentVsReceived: seq<seq<int>> := [Zeros(1), Zeros(2), Zeros(3), Zeros(4), Zeros(5)]

  /** Fresh upstream statistics; its received histogram has 20 buckets. */
  const UpStart := DirStats(0, 0, 0, 0, 0, 0, Zeros(5), Zeros(20), Zeros(5), 0, EmptySentVsReceived)

  /** Fresh downstream statistics; its received histogram has 5 buckets. */
  const DownStart := DirStats(0, 0, 0, 0, 0, 0, Zeros(5), Zeros(5), Zeros(5), 0, EmptySentVsReceived)

  /** One counted packet in its direction: Python's `+=` on the counters,
      then `xs[i] += 1` on the histograms, any of which may raise
      IndexError (None). */
  function CountDir(d: DirStats, nSent: nat, nReceived: nat, delivered: bool, tries: int): (r: Option<DirStats>)
    ensures r.Some? <==> nSent < |d.sent| && nReceived < |d.received| && (delivered ==> -|d.sentTries| <= tries < |d.sentTries|)
  {
    match Bump(d.sent, nSent)
    case None => None
    case Some(sent) =>
      match Bump(d.received, nReceived)
      case None => None
      case Some(received) =>
        match (if delivered then Bump(d.sentTries, tries) else Some(d.sentTries))
        case None => None
        case Some(sentTries) =>
          Some(DirStats(d.nrPackets + 1, d.nrSent + nSent, d.nrReceived + nReceived,
                        d.nrDelivered + (if delivered then 1 else 0), d.nrUndelivered + (if delivered then 0 else 1),
                        d.nrTries + tries, sent, received, sentTries,
                        d.notReceived + (if nSent != nReceived then nSent - nReceived else 0),
                        d.sentVsReceived))
  }

  /** What the summary tables and the simulation output line rely on: each
      histogram sums to its packet count and its weighted sum is the
      matching total; every counted packet is delivered or not; the
      never-received count is sent minus received; the sent-versus-received
      table stays as it started. */
  ghost predicate DirConsistent(d: DirStats)
  {
    && |d.sent| == 5 && |d.sentTries| == 5
    && Sum(d.sent) == d.nrPackets && WeightedSum(d.sent) == d.nrSent
    && Sum(d.received) == d.nrPackets && WeightedSum(d.received) == d.nrReceived
    && Sum(d.sentTries) == d.nrDelivered && WeightedSum(d.sentTries) == d.nrTries
    && d.nrPackets == d.nrDelivered + d.nrUndelivered
    && d.notReceived == d.nrSent - d.nrReceived
    && d.sentVsReceived == EmptySentVsReceived
  }

  /** Counting a packet whose recorded tries are its number of
      transmissions when delivered (zero otherwise) keeps the statistics
      consistent. */
  lemma CountDirKeepsConsistent(d: DirStats, nSent: nat, nReceived: nat, delivered: bool, tries: int)
    requires DirConsistent(d) && CountDir(d, nSent, nReceived, delivered, tries).Some?
    requires tries == (if delivered then nSent else 0)
    ensures DirConsistent(CountDir(d, nSent, nReceived, delivered, tries).value)
  {
    BumpWeighted(d.sent, nSent);
    BumpWeighted(d.received, nReceived);
    if delivered {
      BumpWeighted(d.sentTries, nSent);
    }
  }

  // ---------------------------------------------------------------------
  // The pass

  datatype Direction = Upstream | Downstream

  /** The direction test as written: a sender of device type 1 is upstream;
      otherwise the script looks up the node whose id is the sender's device
      type and calls the packet downstream if that node is a gateway. */
  function DirectionOf(key: string, nodes: map<NodeId, MacNode>, sender: NodeId): (r: Result<Direction, MacError>)
    requires sender in nodes
  {
    var t := nodes[sender].deviceType;
    if t == 1 then Ok(Upstream)
    else if t !in nodes then Err(UnknownTypeNode(key, t))
    else if nodes[t].deviceType == 0 then Ok(Downstream)
    else Err(UnknownDeviceType(key))
  }

  /** An end device's packet is upstream. Any other sender's packet is
      downstream exactly when the node whose id is the sender's device type
      exists and is a gateway, and the run stops otherwise; for a gateway
      sender that node is node 0. */
  lemma DirectionSpec(key: string, nodes: map<NodeId, MacNode>, sender: NodeId)
    requires sender in nodes
    ensures nodes[sender].deviceType == 1 <==> DirectionOf(key, nodes, sender) == Ok(Upstream)
    ensures nodes[sender].deviceType != 1 ==>
              (DirectionOf(key, nodes, sender) == Ok(Downstream) <==>
                 nodes[sender].deviceType in nodes && nodes[nodes[sender].deviceType].deviceType == 0)
    ensures nodes[sender].deviceType == 0 ==>
              (DirectionOf(key, nodes, sender) == Ok(Downstream) <==> 0 in nodes && nodes[0].deviceType == 0)
    ensures nodes[sender].deviceType == 0 && 0 !in nodes ==> DirectionOf(key, nodes, sender) == Err(UnknownTypeNode(key, 0))
    ensures nodes[sender].deviceType == 0 && 0 in nodes && nodes[0].deviceType != 0 ==>
              DirectionOf(key, nodes, sender) == Err(UnknownDeviceType(key))
  {
  }

  /** The counters of both directions and of every node. */
  datatype MacTally = MacTally(up: DirStats, down: DirStats, nodes: map<NodeId, MacNode>)

  function StartMacTally(nodes: map<NodeId, MacNode>): MacTally
  {
    MacTally(UpStart, DownStart, nodes)
  }

  /** The sender's counters after one counted packet. */
  function CountNode(n: MacNode, p: MacPacket, delivered: bool): MacNode
  {
    n.(sent := n.sent + |p.tx|, received := n.received + |p.rx|, dropped := n.dropped + |p.rxDrop|,
       generated := n.generated + 1,
       delivered := n.delivered + (if delivered then 1 else 0),
       notDelivered := n.notDelivered + (if delivered then 0 else 1))
  }

  /** One iteration of the classification loop. */
  function MacStep(t: MacTally, key: string, p: MacPacket, last: real): (r: Result<MacTally, MacError>)
    requires MacRegistered(p, t.nodes.Keys)
    ensures r.Ok? ==> r.value.nodes.Keys == t.nodes.Keys
  {
    match Resolve(key, p, last)
    case Err(e) => Err(e)
    case Ok(Skipped(_)) => Ok(t)
    case Ok(Counts(delivered, tries)) =>
      OneDistinct(p.tx);
      var sender := p.tx[0];
      assert sender in MacColumn(p, Tx);
      match DirectionOf(key, t.nodes, sender)
      case Err(e) => Err(e)
      case Ok(dir) =>
        var d := if dir == Upstream then t.up else t.down;
        match CountDir(d, |p.tx|, |p.rx|, delivered, tries)
        case None => Err(HistogramIndex(key))
        case Some(d') =>
          var nodes := t.nodes[sender := CountNode(t.nodes[sender], p, delivered)];
          if dir == Upstream then Ok(MacTally(d', t.down, nodes)) else Ok(MacTally(t.up, d', nodes))
  }

  /** A skipped packet changes nothing. */
  lemma MacStepSkips(t: MacTally, key: string, p: MacPacket, last: real)
    requires MacRegistered(p, t.nodes.Keys)
    requires Resolve(key, p, last).Ok? && Resolve(key, p, last).value.Skipped?
    ensures MacStep(t, key, p, last) == Ok(t)
  {
  }

  /** A counted packet raises its sender's Generated by one, exactly one of
      its Delivered and NotDelivered by one, and its Sent, Received and
      Dropped by the lengths of MacTx, MacRx and MacRxDrop; no other node and
      no device type changes, and the other direction's statistics stay. */
  lemma MacStepCounts(t: MacTally, key: string, p: MacPacket, last: real)
    requires MacRegistered(p, t.nodes.Keys)
    requires MacStep(t, key, p, last).Ok? && Resolve(key, p, last).value.Counts?
    ensures |p.tx| > 0 && p.tx[0] in t.nodes
    ensures var t' := MacStep(t, key, p, last).value;
            var n := t.nodes[p.tx[0]];
            var res := Resolve(key, p, last).value;
            && t'.nodes == t.nodes[p.tx[0] := CountNode(n, p, res.delivered)]
            && (t.nodes[p.tx[0]].deviceType == 1 ==> t'.down == t.down && t'.up == CountDir(t.up, |p.tx|, |p.rx|, res.delivered, res.tries).value)
            && (t.nodes[p.tx[0]].deviceType != 1 ==> t'.up == t.up && t'.down == CountDir(t.down, |p.tx|, |p.rx|, res.delivered, res.tries).value)
  {
    OneDistinct(p.tx);
    assert p.tx[0] in MacColumn(p, Tx);
  }

  /** The keys still to visit are records whose nodes are registered. */
  ghost predicate Visitable(packets: map<string, MacPacket>, ids: set<NodeId>, pending: seq<string>)
  {
    forall k :: k in pending ==> k in packets && MacRegistered(packets[k], ids)
  }

  function MacClassifyFrom(packets: map<string, MacPacket>, last: real, t: MacTally, pending: seq<string>): (r: Result<MacTally, MacError>)
    requires Visitable(packets, t.nodes.Keys, pending)
    ensures r.Ok? ==> r.value.nodes.Keys == t.nodes.Keys
    decreases |pending|
  {
    if |pending| == 0 then Ok(t)
    else
      match MacStep(t, pending[0], packets[pending[0]], last)
      case Err(e) => Err(e)
      case Ok(t') => MacClassifyFrom(packets, last, t', pending[1..])
  }

  /** The pass over `list(mac_packets.keys())`. */
  function MacClassifyAll(g: MacGroups): Result<MacTally, MacError>
    requires MacShaped(g)
  {
    MacClassifyFrom(g.packets, g.lastTimestamp, StartMacTally(g.nodes), g.keys)
  }

  /** The invariant of the pass: both directions are consistent, every
      node's Generated is its Delivered plus NotDelivered, and no device
      type changes. */
  ghost predicate MacConsistent(t: MacTally, types: map<NodeId, int>)
  {
    && DirConsistent(t.up) && |t.up.received| == 20
    && DirConsistent(t.down) && |t.down.received| == 5
    && t.nodes.Keys == types.Keys
    && forall n :: n in t.nodes ==> t.nodes[n].generated == t.nodes[n].delivered + t.nodes[n].notDelivered
                                    && t.nodes[n].deviceType == types[n]
  }

  lemma MacStepKeepsConsistent(t: MacTally, key: string, p: MacPacket, last: real, types: map<NodeId, int>)
    requires MacRegistered(p, t.nodes.Keys) && MacConsistent(t, types) && MacStep(t, key, p, last).Ok?
    ensures MacConsistent(MacStep(t, key, p, last).value, types)
  {
    var r := Resolve(key, p, last);
    if r.value.Counts? {
      MacStepCounts(t, key, p, last);
      var d := if t.nodes[p.tx[0]].deviceType == 1 then t.up else t.down;
      CountDirKeepsConsistent(d, |p.tx|, |p.rx|, r.value.delivered, r.value.tries);
    }
  }

  lemma {:induction false} MacClassifyFromConsistent(packets: map<string, MacPacket>, last: real, t: MacTally, pending: seq<string>, types: map<NodeId, int>)
    requires Visitable(packets, t.nodes.Keys, pending) && MacConsistent(t, types)
    requires MacClassifyFrom(packets, last, t, pending).Ok?
    ensures MacConsistent(MacClassifyFrom(packets, last, t, pending).value, types)
    decreases |pending|
  {
    if |pending| > 0 {
      var t' := MacStep(t, pending[0], packets[pending[0]], last).value;
      MacStepKeepsConsistent(t, pending[0], packets[pending[0]], last, types);
      MacClassifyFromConsistent(packets, last, t', pending[1..], types);
    }
  }

  /** Device type of every node; mirrors PhyJudge.TypesOf over the MAC
      node record. */
  function MacTypesOf(nodes: map<NodeId, MacNode>): (types: map<NodeId, int>)
    ensures types.Keys == nodes.Keys
    ensures forall n :: n in nodes ==> types[n] == nodes[n].deviceType
  {
    map n | n in nodes :: nodes[n].deviceType
  }

  lemma StartMacConsistent(nodes: map<NodeId, MacNode>)
    requires forall n :: n in nodes ==> nodes[n] == FreshMacNode(nodes[n].deviceType)
    ensures MacConsistent(StartMacTally(nodes), MacTypesOf(nodes))
  {
    SumZeros(5);
    SumZeros(20);
  }

  /** After a pass that does not fail, the upstream and downstream
      statistics are consistent, every node's Generated is its Delivered plus
      NotDelivered, and the node dictionary and device types are those the
      first pass built. */
  lemma MacPassConsistent(g: MacGroups)
    requires MacShaped(g) && MacClassifyAll(g).Ok?
    ensures MacConsistent(MacClassifyAll(g).value, MacTypesOf(g.nodes))
  {
    StartFromConsistent(g.packets, g.lastTimestamp, g.nodes, g.keys);
  }

  lemma StartFromConsistent(packets: map<string, MacPacket>, last: real, nodes: map<NodeId, MacNode>, keys: seq<string>)
    requires Visitable(packets, nodes.Keys, keys)
    requires forall n :: n in nodes ==> nodes[n] == FreshMacNode(nodes[n].deviceType)
    requires MacClassifyFrom(packets, last, StartMacTally(nodes), keys).Ok?
    ensures MacConsistent(MacClassifyFrom(packets, last, StartMacTally(nodes), keys).value, MacTypesOf(nodes))
  {
    StartMacConsistent(nodes);
    MacClassifyFromConsistent(packets, last, StartMacTally(nodes), keys, MacTypesOf(nodes));
  }

  // ---------------------------------------------------------------------
  // The pass as the script runs it

  /** The statistics updates of one counted packet in its direction. */
  method CountInDirection(d: DirStats, nSent: nat, nReceived: nat, delivered: bool, tries: int) returns (r: Option<DirStats>)
    ensures r == CountDir(d, nSent, nReceived, delivered, tries)
  {
    var nrDelivered, nrUndelivered := d.nrDelivered, d.nrUndelivered;
    if delivered {
      nrDelivered := nrDelivered + 1;
    } else {
      nrUndelivered := nrUndelivered + 1;
    }
    var sent, received, sentTries := d.sent, d.received, d.sentTries;
    if nSent >= |sent| {
      return None;
    }
    sent := sent[nSent := sent[nSent] + 1];
    if nReceived >= |received| {
      return None;
    }
    received := received[nReceived := received[nReceived] + 1];
    if delivered {
      var j := PyIndex(|sentTries|, tries);
      if j.None? {
        return None;
      }
      sentTries := sentTries[j.value := sentTries[j.value] + 1];
    }
    var notReceived := d.notReceived;
    if nSent != nReceived {
      notReceived := notReceived + (nSent - nReceived);
    }
    r := Some(DirStats(d.nrPackets + 1, d.nrSent + nSent, d.nrReceived + nReceived, nrDelivered, nrUndelivered,
                       d.nrTries + tries, sent, received, sentTries, notReceived, d.sentVsReceived));
  }

  /** The body of the classification loop for one key. */
  method MacClassifyOne(t: MacTally, key: string, p: MacPacket, last: real) returns (r: Result<MacTally, MacError>)
    requires MacRegistered(p, t.nodes.Keys)
    ensures r == MacStep(t, key, p, last)
  {
    if |set x | x in p.tx| != 1 || |set x | x in p.rx| > 4 {
      return Ok(t);
    }
    var delivered := false;
    var tries := 0;
    if |p.txOk| == 1 {
      delivered := true;
      if |p.sentPktMisc| > 0 {
        if p.sentPktMisc[0].BareNode? {
          return Err(MiscNotTuple(key));
        }
        tries := p.sentPktMisc[0].count;
        if |p.tx| != tries {
          return Err(TriesMismatch(key));
        }
      } else {
        return Ok(t);
      }
    } else if |p.txDrop| == 1 {
      delivered := false;
    } else {
      if last == 0.0 {
        return Err(ZeroLastTimestamp(key));
      }
      return Ok(t);
    }
    assert Resolve(key, p, last) == Ok(Counts(delivered, tries));
    OneDistinct(p.tx);
    var sender := p.tx[0];
    assert sender in MacColumn(p, Tx);
    var nodes := t.nodes;
    var up, down := t.up, t.down;
    if nodes[sender].deviceType == 1 {
      var counted := CountInDirection(up, |p.tx|, |p.rx|, delivered, tries);
      if counted.None? {
        return Err(HistogramIndex(key));
      }
      up := counted.value;
    } else if nodes[sender].deviceType !in nodes {
      return Err(UnknownTypeNode(key, nodes[sender].deviceType));
    } else if nodes[nodes[sender].deviceType].deviceType == 0 {
      var counted := CountInDirection(down, |p.tx|, |p.rx|, delivered, tries);
      if counted.None? {
        return Err(HistogramIndex(key));
      }
      down := counted.value;
    } else {
      return Err(UnknownDeviceType(key));
    }
    var n := nodes[sender];
    n := n.(sent := n.sent + |p.tx|);
    n := n.(received := n.received + |p.rx|);
    n := n.(dropped := n.dropped + |p.rxDrop|);
    n := n.(generated := n.generated + 1);
    if delivered {
      n := n.(delivered := n.delivered + 1);
    } else {
      n := n.(notDelivered := n.notDelivered + 1);
    }
    nodes := nodes[sender := n];
    r := Ok(MacTally(up, down, nodes));
  }

  /** The classification loop. */
  method MacClassifyPackets(g: MacGroups) returns (r: Result<MacTally, MacError>)
    requires MacShaped(g)
    ensures r == MacClassifyAll(g)
  {
    var t := StartMacTally(g.nodes);
    var pending := g.keys;
    var i := 0;
    while i < |pending|
      invariant 0 <= i <= |pending|
      invariant t.nodes.Keys == g.nodes.Keys
      invariant MacClassifyFrom(g.packets, g.lastTimestamp, t, pending[i..]) == MacClassifyAll(g)
    {
      var stepped := MacClassifyOne(t, pending[i], g.packets[pending[i]], g.lastTimestamp);
      if stepped.Err? {
        return Err(stepped.error);
      }
      assert pending[i..][1..] == pending[i + 1..];
      t := stepped.value;
      i := i + 1;
    }
    r := Ok(t);
  }
}
