/** First pass of `parse_macpackets_trace.py`: fold the rows of a MAC
    packets trace into one record per packet (keyed by the packet's hex
    dump), remembering the timestamp of the packet's first row, holding one
    node list per trace source and the (node, transmissions) tuples of the
    MacSentPkt rows, and register every node at its first row. */
module MacGrouping {
  import opened Common

  /** The six trace sources whose rows append a node id to a list. */
  datatype MacSource = Tx | TxOk | TxDrop | Rx | RxDrop | SentPkt

  function MacSourceName(s: MacSource): string
  {
    match s
    case Tx => "MacTx"
    case TxOk => "MacTxOk"
    case TxDrop => "MacTxDrop"
    case Rx => "MacRx"
    case RxDrop => "MacRxDrop"
    case SentPkt => "MacSentPkt"
  }

  /** The trace source column of a row. A packet record is a dictionary
      with one more list, MacSentPktMisc, so a row naming it appends its bare
      node id there; any other name raises KeyError, except `Timestamp`,
      whose float entry raises AttributeError. */
  datatype MacSourceField = Listed(source: MacSource) | MiscListed | Unlisted(name: string)

  const MiscName := "MacSentPktMisc"

  /** How the trace source column is read. */
  function MacSourceNamed(name: string): (r: MacSourceField)
    ensures r.Listed? ==> MacSourceName(r.source) == name
    ensures r.MiscListed? <==> name == MiscName
    ensures r.Unlisted? <==> name != MiscName && forall s: MacSource :: MacSourceName(s) != name
    ensures r.Unlisted? ==> r.name == name
  {
    if name == "MacTx" then Listed(Tx)
    else if name == "MacTxOk" then Listed(TxOk)
    else if name == "MacTxDrop" then Listed(TxDrop)
    else if name == "MacRx" then Listed(Rx)
    else if name == "MacRxDrop" then Listed(RxDrop)
    else if name == "MacSentPkt" then Listed(SentPkt)
    else if name == MiscName then MiscListed
    else Unlisted(name)
  }

  /** One row of the trace, already split into fields: timestamp (column 0),
      device type (1), node id (2), trace source (5), packet hex (6) and the
      number of transmissions (8), which only MacSentPkt rows fill. */
  datatype MacRow = MacRow(timestamp: real, deviceType: int, node: NodeId, source: MacSourceField, packetKey: string, tries: int)

  /** An entry of MacSentPktMisc: the (node, transmissions) tuple of a
      MacSentPkt row, or the bare node id of a row naming the list itself. */
  datatype MiscEntry = Tries(node: NodeId, count: int) | BareNode(node: NodeId)

  /** A reconstructed MAC packet. */
  datatype MacPacket = MacPacket(
    timestamp: real, tx: seq<NodeId>, txOk: seq<NodeId>, txDrop: seq<NodeId>,
    rx: seq<NodeId>, rxDrop: seq<NodeId>, sentPkt: seq<NodeId>, sentPktMisc: seq<MiscEntry>)

  function NewPacket(timestamp: real): MacPacket
  {
    MacPacket(timestamp, [], [], [], [], [], [], [])
  }

  function MacColumn(p: MacPacket, s: MacSource): seq<NodeId>
  {
    match s
    case Tx => p.tx
    case TxOk => p.txOk
    case TxDrop => p.txDrop
    case Rx => p.rx
    case RxDrop => p.rxDrop
    case SentPkt => p.sentPkt
  }

  /** What a row adds to MacSentPktMisc. */
  function MiscOf(row: MacRow): seq<MiscEntry>
  {
    match row.source
    case Listed(s) => if s == SentPkt then [Tries(row.node, row.tries)] else []
    case MiscListed => [BareNode(row.node)]
    case Unlisted(_) => []
  }

  /** The record after one row whose source has a list. */
  function MacRecord(p: MacPacket, row: MacRow): MacPacket
    requires !row.source.Unlisted?
  {
    match row.source
    case MiscListed => p.(sentPktMisc := p.sentPktMisc + [BareNode(row.node)])
    case Listed(s) =>
      match s
      case Tx => p.(tx := p.tx + [row.node])
      case TxOk => p.(txOk := p.txOk + [row.node])
      case TxDrop => p.(txDrop := p.txDrop + [row.node])
      case Rx => p.(rx := p.rx + [row.node])
      case RxDrop => p.(rxDrop := p.rxDrop + [row.node])
      case SentPkt => p.(sentPkt := p.sentPkt + [row.node], sentPktMisc := p.sentPktMisc + [Tries(row.node, row.tries)])
  }

  /** A row appends its node to the list of its source and to no other
      node list, adds `MiscOf(row)` to MacSentPktMisc, and leaves the
      timestamp alone. */
  lemma MacRecordEffect(p: MacPacket, row: MacRow)
    requires !row.source.Unlisted?
    ensures forall s: MacSource :: MacColumn(MacRecord(p, row), s)
              == MacColumn(p, s) + (if row.source == Listed(s) then [row.node] else [])
    ensures MacRecord(p, row).sentPktMisc == p.sentPktMisc + MiscOf(row)
    ensures MacRecord(p, row).timestamp == p.timestamp
  {
  }

  /** A node's entry: its device type and the counters the classification
      pass fills in. */
  datatype MacNode = MacNode(deviceType: int, sent: nat, received: nat, dropped: nat,
                             generated: nat, delivered: nat, notDelivered: nat)

  function FreshMacNode(deviceType: int): MacNode
  {
    MacNode(deviceType, 0, 0, 0, 0, 0, 0)
  }

  /** The dictionaries the first pass fills, the insertion order of the
      packets, and `last_timestamp`. */
  datatype MacGroups = MacGroups(packets: map<string, MacPacket>, keys: seq<string>,
                                 nodes: map<NodeId, MacNode>, lastTimestamp: real)

  const NoMacGroups := MacGroups(map[], [], map[], -1.0)

  datatype MacGroupError = UnknownMacSource(name: string)

  /** One iteration of the row loop: a new key gets a record stamped with
      the row's timestamp, which also becomes `last_timestamp`. */
  function MacAddRow(g: MacGroups, row: MacRow): (r: Result<MacGroups, MacGroupError>)
    ensures r.Err? <==> row.source.Unlisted?
    ensures r.Err? ==> r.error == UnknownMacSource(row.source.name)
  {
    if row.source.Unlisted? then Err(UnknownMacSource(row.source.name))
    else
      var k := row.packetKey;
      var isNew := k !in g.packets;
      var p := if isNew then NewPacket(row.timestamp) else g.packets[k];
      var nodes := if row.node in g.nodes then g.nodes else g.nodes[row.node := FreshMacNode(row.deviceType)];
      Ok(MacGroups(g.packets[k := MacRecord(p, row)],
                   if isNew then g.keys + [k] else g.keys,
                   nodes,
                   if isNew then row.timestamp else g.lastTimestamp))
  }

  function MacGroupFrom(g: MacGroups, rows: seq<MacRow>): Result<MacGroups, MacGroupError>
    decreases |rows|
  {
    if |rows| == 0 then Ok(g)
    else
      match MacAddRow(g, rows[0])
      case Err(e) => Err(e)
      case Ok(g') => MacGroupFrom(g', rows[1..])
  }

  function MacGroupRows(rows: seq<MacRow>): Result<MacGroups, MacGroupError>
  {
    MacGroupFrom(NoMacGroups, rows)
  }

  /** The first pass as the script runs it. */
  method GroupMacTrace(rows: seq<MacRow>) returns (r: Result<MacGroups, MacGroupError>)
    ensures r == MacGroupRows(rows)
  {
    var packets: map<string, MacPacket> := map[];
    var keys: seq<string> := [];
    var nodes: map<NodeId, MacNode> := map[];
    var lastTimestamp: real := -1.0;
    var i := 0;
    while i < |rows|
      invariant 0 <= i <= |rows|
      invariant MacGroupFrom(MacGroups(packets, keys, nodes, lastTimestamp), rows[i..]) == MacGroupRows(rows)
    {
      var row := rows[i];
      ghost var before := MacGroups(packets, keys, nodes, lastTimestamp);
      var k := row.packetKey;
      if k !in packets {
        lastTimestamp := row.timestamp;
        packets := packets[k := NewPacket(row.timestamp)];
        keys := keys + [k];
      }
      if row.source.Unlisted? {
        return Err(UnknownMacSource(row.source.name));
      }
      packets := packets[k := MacRecord(packets[k], row)];
      if row.node !in nodes {
        nodes := nodes[row.node := FreshMacNode(row.deviceType)];
      }
      assert MacGroups(packets, keys, nodes, lastTimestamp) == MacAddRow(before, row).value;
      assert rows[i..][1..] == rows[i + 1..];
      i := i + 1;
    }
    r := Ok(MacGroups(packets, keys, nodes, lastTimestamp));
  }

  // ---------------------------------------------------------------------
  // What the first pass builds

  /** Every node a record's lists mention has an entry. */
  predicate MacRegistered(p: MacPacket, ids: set<NodeId>)
  {
    forall s: MacSource, n :: n in MacColumn(p, s) ==> n in ids
  }

  /** The invariant of the row loop: the order lists each key once and
      exactly the keys present, `last_timestamp` is the timestamp of the
      newest key (-1 before any row), every record is registered, and every
      node entry is fresh. */
  ghost predicate MacShaped(g: MacGroups)
  {
    && Distinct(g.keys)
    && (forall k :: k in g.packets <==> k in g.keys)
    && (if |g.keys| == 0 then g.lastTimestamp == -1.0 else g.lastTimestamp == g.packets[g.keys[|g.keys| - 1]].timestamp)
    && (forall k :: k in g.packets ==> MacRegistered(g.packets[k], g.nodes.Keys))
    && (forall n :: n in g.nodes ==> g.nodes[n] == FreshMacNode(g.nodes[n].deviceType))
  }

  lemma MacRecordKeepsRegistered(p: MacPacket, row: MacRow, ids: set<NodeId>)
    requires !row.source.Unlisted? && MacRegistered(p, ids) && row.node in ids
    ensures MacRegistered(MacRecord(p, row), ids)
  {
    MacRecordEffect(p, row);
    forall s: MacSource, n | n in MacColumn(MacRecord(p, row), s)
      ensures n in ids
    {
      assert n in MacColumn(p, s) || n == row.node;
    }
  }

  lemma MacAddRowKeepsShape(g: MacGroups, row: MacRow)
    requires MacShaped(g) && MacAddRow(g, row).Ok?
    ensures MacShaped(MacAddRow(g, row).value)
  {
    var g' := MacAddRow(g, row).value;
    var k := row.packetKey;
    var p := if k in g.packets then g.packets[k] else NewPacket(row.timestamp);
    assert MacRegistered(p, g'.nodes.Keys);
    MacRecordKeepsRegistered(p, row, g'.nodes.Keys);
    assert MacRecord(p, row).timestamp == p.timestamp;
    forall k' | k' in g'.packets
      ensures MacRegistered(g'.packets[k'], g'.nodes.Keys)
    {
      if k' != k {
        assert MacRegistered(g.packets[k'], g.nodes.Keys);
      }
    }
    if k in g.packets && |g.keys| > 0 {
      assert g.keys[|g.keys| - 1] in g.packets;
    }
    assert Distinct(g'.keys);
  }

  lemma {:induction false} MacGroupFromKeepsShape(g: MacGroups, rows: seq<MacRow>)
    requires MacShaped(g) && MacGroupFrom(g, rows).Ok?
    ensures MacShaped(MacGroupFrom(g, rows).value)
    decreases |rows|
  {
    if |rows| > 0 {
      MacAddRowKeepsShape(g, rows[0]);
      MacGroupFromKeepsShape(MacAddRow(g, rows[0]).value, rows[1..]);
    }
  }

  /** The first pass yields a shaped grouping; in particular
      `last_timestamp` ends as the timestamp of the last new key. */
  lemma MacGroupRowsShaped(rows: seq<MacRow>)
    requires MacGroupRows(rows).Ok?
    ensures MacShaped(MacGroupRows(rows).value)
  {
    MacGroupFromKeepsShape(NoMacGroups, rows);
  }

  /** The first pass fails exactly when some row names a source with no
      list, and then it reports the first such row. */
  lemma {:induction false} MacGroupFromFailsOnUnknownSource(g: MacGroups, rows: seq<MacRow>)
    ensures MacGroupFrom(g, rows).Ok? <==> forall i :: 0 <= i < |rows| ==> !rows[i].source.Unlisted?
    ensures MacGroupFrom(g, rows).Err? ==>
              exists i :: (0 <= i < |rows| && rows[i].source.Unlisted?
                           && (forall j :: 0 <= j < i ==> !rows[j].source.Unlisted?)
                           && MacGroupFrom(g, rows).error == UnknownMacSource(rows[i].source.name))
    decreases |rows|
  {
    if |rows| > 0 && MacAddRow(g, rows[0]).Ok? {
      var rest := rows[1..];
      MacGroupFromFailsOnUnknownSource(MacAddRow(g, rows[0]).value, rest);
      assert forall i :: 1 <= i < |rows| ==> rows[i] == rest[i - 1];
      if MacGroupFrom(g, rows).Err? {
        var i :| 0 <= i < |rest| && rest[i].source.Unlisted?
                 && (forall j :: 0 <= j < i ==> !rest[j].source.Unlisted?)
                 && MacGroupFrom(g, rows).error == UnknownMacSource(rest[i].source.name);
        assert rows[i + 1] == rest[i];
      }
    }
  }

  /** The timestamp of the first row carrying key k, if any. */
  function FirstTimestamp(rows: seq<MacRow>, k: string): Option<real>
  {
    if |rows| == 0 then None
    else if rows[0].packetKey == k then Some(rows[0].timestamp)
    else FirstTimestamp(rows[1..], k)
  }

  /** A packet record exists exactly for the keys seen before or in some
      row, and its Timestamp is that of the key's first row: later rows
      never change it. */
  lemma {:induction false} MacGroupFromTimestamps(g: MacGroups, rows: seq<MacRow>, k: string)
    requires MacGroupFrom(g, rows).Ok?
    ensures k in MacGroupFrom(g, rows).value.packets <==> k in g.packets || FirstTimestamp(rows, k).Some?
    ensures k in g.packets ==> MacGroupFrom(g, rows).value.packets[k].timestamp == g.packets[k].timestamp
    ensures k !in g.packets && FirstTimestamp(rows, k).Some? ==>
              MacGroupFrom(g, rows).value.packets[k].timestamp == FirstTimestamp(rows, k).value
    decreases |rows|
  {
    if |rows| > 0 {
      var g' := MacAddRow(g, rows[0]).value;
      var p := if rows[0].packetKey in g.packets then g.packets[rows[0].packetKey] else NewPacket(rows[0].timestamp);
      MacRecordEffect(p, rows[0]);
      MacGroupFromTimestamps(g', rows[1..], k);
    }
  }

  /** The nodes of the rows that carry key k and list source s, in row
      order. */
  function MacSelected(rows: seq<MacRow>, k: string, s: MacSource): seq<NodeId>
  {
    if |rows| == 0 then []
    else (if rows[0].packetKey == k && rows[0].source == Listed(s) then [rows[0].node] else [])
         + MacSelected(rows[1..], k, s)
  }

  /** What the rows that carry key k add to MacSentPktMisc, in row order. */
  function MiscSelected(rows: seq<MacRow>, k: string): seq<MiscEntry>
  {
    if |rows| == 0 then []
    else (if rows[0].packetKey == k then MiscOf(rows[0]) else []) + MiscSelected(rows[1..], k)
  }

  /** The node list of source s that key k has so far; none for a key not
      seen yet. */
  function ColumnOf(g: MacGroups, k: string, s: MacSource): seq<NodeId>
  {
    if k in g.packets then MacColumn(g.packets[k], s) else []
  }

  /** The MacSentPktMisc list that key k has so far. */
  function MiscListOf(g: MacGroups, k: string): seq<MiscEntry>
  {
    if k in g.packets then g.packets[k].sentPktMisc else []
  }

  lemma MacAddRowColumn(g: MacGroups, row: MacRow, k: string, s: MacSource)
    requires MacAddRow(g, row).Ok?
    ensures ColumnOf(MacAddRow(g, row).value, k, s) == ColumnOf(g, k, s) + MacSelected([row], k, s)
  {
    assert [row][1..] == [];
    if row.packetKey == k {
      var p := if k in g.packets then g.packets[k] else NewPacket(row.timestamp);
      MacRecordEffect(p, row);
      assert MacAddRow(g, row).value.packets[k] == MacRecord(p, row);
    }
  }

  lemma MacAddRowMisc(g: MacGroups, row: MacRow, k: string)
    requires MacAddRow(g, row).Ok?
    ensures MiscListOf(MacAddRow(g, row).value, k) == MiscListOf(g, k) + MiscSelected([row], k)
  {
    assert [row][1..] == [];
    if row.packetKey == k {
      var p := if k in g.packets then g.packets[k] else NewPacket(row.timestamp);
      MacRecordEffect(p, row);
      assert MacAddRow(g, row).value.packets[k] == MacRecord(p, row);
    }
  }

  lemma MacSelectedSplit(rows: seq<MacRow>, k: string, s: MacSource)
    requires |rows| > 0
    ensures MacSelected(rows, k, s) == MacSelected([rows[0]], k, s) + MacSelected(rows[1..], k, s)
  {
    assert [rows[0]][1..] == [];
  }

  lemma MiscSelectedSplit(rows: seq<MacRow>, k: string)
    requires |rows| > 0
    ensures MiscSelected(rows, k) == MiscSelected([rows[0]], k) + MiscSelected(rows[1..], k)
  {
    assert [rows[0]][1..] == [];
  }

  /** Every node list of key k's final record holds, after what it held
      before, exactly the nodes of the rows of that key and source, in row
      order. */
  lemma {:induction false} MacGroupFromColumns(g: MacGroups, rows: seq<MacRow>, k: string, s: MacSource)
    requires MacGroupFrom(g, rows).Ok?
    ensures ColumnOf(MacGroupFrom(g, rows).value, k, s) == ColumnOf(g, k, s) + MacSelected(rows, k, s)
    decreases |rows|
  {
    if |rows| > 0 {
      MacAddRowColumn(g, rows[0], k, s);
      MacGroupFromColumns(MacAddRow(g, rows[0]).value, rows[1..], k, s);
      MacSelectedSplit(rows, k, s);
    }
  }

  /** MacSentPktMisc of key k's final record holds, after what it held
      before, the (node, transmissions) tuple of each MacSentPkt row of that
      key and the bare node of each row naming the list, in row order. */
  lemma {:induction false} MacGroupFromMisc(g: MacGroups, rows: seq<MacRow>, k: string)
    requires MacGroupFrom(g, rows).Ok?
    ensures MiscListOf(MacGroupFrom(g, rows).value, k) == MiscListOf(g, k) + MiscSelected(rows, k)
    decreases |rows|
  {
    if |rows| > 0 {
      MacAddRowMisc(g, rows[0], k);
      MacGroupFromMisc(MacAddRow(g, rows[0]).value, rows[1..], k);
      MiscSelectedSplit(rows, k);
    }
  }

  /** The device type of the first row that mentions node n, if any. */
  function FirstMacDeviceType(rows: seq<MacRow>, n: NodeId): Option<int>
  {
    if |rows| == 0 then None
    else if rows[0].node == n then Some(rows[0].deviceType)
    else FirstMacDeviceType(rows[1..], n)
  }

  /** A node entry is created once, at the node's first row, with that row's
      device type and zero counters. */
  lemma {:induction false} MacGroupFromNodes(g: MacGroups, rows: seq<MacRow>, n: NodeId)
    requires MacGroupFrom(g, rows).Ok?
    ensures n in MacGroupFrom(g, rows).value.nodes <==> n in g.nodes || FirstMacDeviceType(rows, n).Some?
    ensures n in g.nodes ==> MacGroupFrom(g, rows).value.nodes[n] == g.nodes[n]
    ensures n !in g.nodes && FirstMacDeviceType(rows, n).Some? ==>
              MacGroupFrom(g, rows).value.nodes[n] == FreshMacNode(FirstMacDeviceType(rows, n).value)
    decreases |rows|
  {
    if |rows| > 0 {
      MacGroupFromNodes(MacAddRow(g, rows[0]).value, rows[1..], n);
    }
  }
}
