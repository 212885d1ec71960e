/** First pass of `parse_phytx_trace.py`: fold the rows of a PHY
    transmissions trace into one record per PhyTraceIdTag, holding one list
    of node ids per trace source, and register every node at its first row. */
module PhyGrouping {
  import opened Common

  /** One row of the trace, already split into fields: device type
      (column 1), node id (column 2), trace source name (column 5),
      PhyTraceIdTag (column 6), and columns 9 and 10, which a PhyTxBegin row
      fills with its channel and data-rate index and a PhyRxDrop row with its
      drop reason (column 9). */
  datatype PhyRow = PhyRow(deviceType: int, node: NodeId, source: SourceField, phyKey: string, col9: int, col10: int)

  /** The six trace sources that have a list in a transmission record. */
  datatype PhySource = TxBegin | RxBegin | TxEnd | RxEnd | RxDrop | TxDrop

  function SourceName(s: PhySource): string
  {
    match s
    case TxBegin => "PhyTxBegin"
    case RxBegin => "PhyRxBegin"
    case TxEnd => "PhyTxEnd"
    case RxEnd => "PhyRxEnd"
    case RxDrop => "PhyRxDrop"
    case TxDrop => "PhyTxDrop"
  }

  /** The trace source column of a row: one of the six names, or any other
      text, on which the script's dictionary lookup raises KeyError. */
  datatype SourceField = Known(source: PhySource) | Unknown(name: string)

  /** How the trace source column is read. */
  function SourceNamed(name: string): (r: SourceField)
    ensures r.Known? ==> SourceName(r.source) == name
    ensures r.Unknown? <==> forall s: PhySource :: SourceName(s) != name
    ensures r.Unknown? ==> r.name == name
  {
    if name == "PhyTxBegin" then Known(TxBegin)
    else if name == "PhyRxBegin" then Known(RxBegin)
    else if name == "PhyTxEnd" then Known(TxEnd)
    else if name == "PhyRxEnd" then Known(RxEnd)
    else if name == "PhyRxDrop" then Known(RxDrop)
    else if name == "PhyTxDrop" then Known(TxDrop)
    else Unknown(name)
  }

  /** The (node, channel, data rate) tuple of a PhyTxBegin row. */
  datatype TxBeginAux = TxBeginAux(node: NodeId, channel: int, dataRate: int)

  /** The (node, drop reason) tuple of a PhyRxDrop row. */
  datatype RxDropAux = RxDropAux(node: NodeId, reason: int)

  /** A reconstructed PHY transmission: one node list per trace source, the
      two auxiliary tuple lists, and the Delivered flag. */
  datatype PhyTx = PhyTx(
    txBegin: seq<NodeId>, txBeginMisc: seq<TxBeginAux>,
    rxBegin: seq<NodeId>, txEnd: seq<NodeId>, rxEnd: seq<NodeId>,
    rxDrop: seq<NodeId>, rxDropMisc: seq<RxDropAux>,
    txDrop: seq<NodeId>, delivered: bool)

  const EmptyTx := PhyTx([], [], [], [], [], [], [], [], false)

  /** The node list of a trace source. */
  function Column(tx: PhyTx, s: PhySource): seq<NodeId>
  {
    match s
    case TxBegin => tx.txBegin
    case RxBegin => tx.rxBegin
    case TxEnd => tx.txEnd
    case RxEnd => tx.rxEnd
    case RxDrop => tx.rxDrop
    case TxDrop => tx.txDrop
  }

  function TxBeginAuxOf(row: PhyRow): TxBeginAux
  {
    TxBeginAux(row.node, row.col9, row.col10)
  }

  function RxDropAuxOf(row: PhyRow): RxDropAux
  {
    RxDropAux(row.node, row.col9)
  }

  /** The record after one row of source s (its effect is stated by
      RecordEffect). */
  function Record(tx: PhyTx, s: PhySource, row: PhyRow): PhyTx
  {
    match s
    case TxBegin => tx.(txBegin := tx.txBegin + [row.node], txBeginMisc := tx.txBeginMisc + [TxBeginAuxOf(row)])
    case RxBegin => tx.(rxBegin := tx.rxBegin + [row.node])
    case TxEnd => tx.(txEnd := tx.txEnd + [row.node])
    case RxEnd => tx.(rxEnd := tx.rxEnd + [row.node])
    case RxDrop => tx.(rxDrop := tx.rxDrop + [row.node], rxDropMisc := tx.rxDropMisc + [RxDropAuxOf(row)])
    case TxDrop => tx.(txDrop := tx.txDrop + [row.node])
  }

  /** A row of source s appends its node to the list of s and to no other
      list; a PhyTxBegin row also appends its tuple to PhyTxBeginMisc, a
      PhyRxDrop row to PhyRxDropMisc; the Delivered flag is untouched. */
  lemma RecordEffect(tx: PhyTx, s: PhySource, row: PhyRow)
    ensures Column(Record(tx, s, row), s) == Column(tx, s) + [row.node]
    ensures forall o: PhySource :: o != s ==> Column(Record(tx, s, row), o) == Column(tx, o)
    ensures Record(tx, s, row).txBeginMisc == tx.txBeginMisc + (if s == TxBegin then [TxBeginAuxOf(row)] else [])
    ensures Record(tx, s, row).rxDropMisc == tx.rxDropMisc + (if s == RxDrop then [RxDropAuxOf(row)] else [])
    ensures Record(tx, s, row).delivered == tx.delivered
  {
  }

  /** A node's entry: its device type (0 gateway, 1 end device) and the
      counters the classification pass fills in. */
  datatype PhyNode = PhyNode(deviceType: int, sent: nat, delivered: nat, notDelivered: nat, dropRxReasons: seq<int>)

  function FreshNode(deviceType: int): PhyNode
  {
    PhyNode(deviceType, 0, 0, 0, [])
  }

  /** The two dictionaries the first pass fills, with their insertion
      orders (`keys` for the transmissions, `nodeOrder` for the nodes). */
  datatype PhyGroups = PhyGroups(txs: map<string, PhyTx>, keys: seq<string>, nodes: map<NodeId, PhyNode>, nodeOrder: seq<NodeId>)

  const NoGroups := PhyGroups(map[], [], map[], [])

  datatype GroupError = UnknownTraceSource(name: string)

  /** The record a key has so far; a key not seen yet starts empty. */
  function TxOf(g: PhyGroups, k: string): PhyTx
  {
    if k in g.txs then g.txs[k] else EmptyTx
  }

  /** One iteration of the row loop. */
  function AddRow(g: PhyGroups, row: PhyRow): (r: Result<PhyGroups, GroupError>)
    ensures r.Err? <==> row.source.Unknown?
    ensures r.Err? ==> r.error == UnknownTraceSource(row.source.name)
  {
    match row.source
    case Unknown(name) => Err(UnknownTraceSource(name))
    case Known(s) =>
      var keys := if row.phyKey in g.txs then g.keys else g.keys + [row.phyKey];
      var txs := g.txs[row.phyKey := Record(TxOf(g, row.phyKey), s, row)];
      if row.node in g.nodes then Ok(PhyGroups(txs, keys, g.nodes, g.nodeOrder))
      else Ok(PhyGroups(txs, keys, g.nodes[row.node := FreshNode(row.deviceType)], g.nodeOrder + [row.node]))
  }

  /** The row loop from state g over the remaining rows; the first row with
      an unknown trace source is fatal. */
  function GroupFrom(g: PhyGroups, rows: seq<PhyRow>): Result<PhyGroups, GroupError>
    decreases |rows|
  {
    if |rows| == 0 then Ok(g)
    else
      match AddRow(g, rows[0])
      case Err(e) => Err(e)
      case Ok(g') => GroupFrom(g', rows[1..])
  }

  function GroupRows(rows: seq<PhyRow>): Result<PhyGroups, GroupError>
  {
    GroupFrom(NoGroups, rows)
  }

  /** The first pass as the script runs it. */
  method GroupPhyTrace(rows: seq<PhyRow>) returns (r: Result<PhyGroups, GroupError>)
    ensures r == GroupRows(rows)
  {
    var txs: map<string, PhyTx> := map[];
    var keys: seq<string> := [];
    var nodes: map<NodeId, PhyNode> := map[];
    var nodeOrder: seq<NodeId> := [];
    var i := 0;
    while i < |rows|
      invariant 0 <= i <= |rows|
      invariant GroupFrom(PhyGroups(txs, keys, nodes, nodeOrder), rows[i..]) == GroupRows(rows)
    {
      var row := rows[i];
      if row.source.Unknown? {
        return Err(UnknownTraceSource(row.source.name));
      }
      ghost var before := PhyGroups(txs, keys, nodes, nodeOrder);
      if row.node !in nodes {
        nodes := nodes[row.node := FreshNode(row.deviceType)];
        nodeOrder := nodeOrder + [row.node];
      }
      var tx := EmptyTx;
      if row.phyKey in txs {
        tx := txs[row.phyKey];
      } else {
        keys := keys + [row.phyKey];
      }
      txs := txs[row.phyKey := Record(tx, row.source.source, row)];
      assert PhyGroups(txs, keys, nodes, nodeOrder) == AddRow(before, row).value;
      assert rows[i..][1..] == rows[i + 1..];
      i := i + 1;
    }
    r := Ok(PhyGroups(txs, keys, nodes, nodeOrder));
  }

  // ---------------------------------------------------------------------
  // What the first pass builds

  /** PhyTxBeginMisc and PhyRxDropMisc run parallel to the PhyTxBegin and
      PhyRxDrop lists, and nothing is delivered yet. */
  predicate TxShaped(tx: PhyTx)
  {
    && |tx.txBeginMisc| == |tx.txBegin|
    && (forall i :: 0 <= i < |tx.txBegin| ==> tx.txBeginMisc[i].node == tx.txBegin[i])
    && |tx.rxDropMisc| == |tx.rxDrop|
    && (forall i :: 0 <= i < |tx.rxDrop| ==> tx.rxDropMisc[i].node == tx.rxDrop[i])
  }

  /** Every node a record mentions has an entry in the node dictionary. */
  predicate Registered(tx: PhyTx, ids: set<NodeId>)
  {
    forall s: PhySource, n :: n in Column(tx, s) ==> n in ids
  }

  /** The shape the first pass guarantees: the orders list each key once
      and exactly the keys present, every record is shaped and registered,
      every node entry is fresh. */
  ghost predicate Shaped(g: PhyGroups)
  {
    && Distinct(g.keys)
    && (forall k :: k in g.txs <==> k in g.keys)
    && Distinct(g.nodeOrder)
    && (forall n :: n in g.nodes <==> n in g.nodeOrder)
    && (forall k :: k in g.txs ==> TxShaped(g.txs[k]) && !g.txs[k].delivered && Registered(g.txs[k], g.nodes.Keys))
    && (forall n :: n in g.nodes ==> g.nodes[n] == FreshNode(g.nodes[n].deviceType))
  }

  lemma RecordKeepsShape(tx: PhyTx, s: PhySource, row: PhyRow)
    requires TxShaped(tx)
    ensures TxShaped(Record(tx, s, row))
  {
    RecordEffect(tx, s, row);
  }

  lemma RecordKeepsRegistered(tx: PhyTx, s: PhySource, row: PhyRow, ids: set<NodeId>)
    requires Registered(tx, ids) && row.node in ids
    ensures Registered(Record(tx, s, row), ids)
  {
    var r := Record(tx, s, row);
    RecordEffect(tx, s, row);
    forall o: PhySource, n | n in Column(r, o)
      ensures n in ids
    {
      if o == s {
        assert n in Column(tx, s) || n == row.node;
      } else {
        assert Column(r, o) == Column(tx, o);
      }
    }
  }

  lemma RegisteredGrows(tx: PhyTx, ids: set<NodeId>, more: set<NodeId>)
    requires Registered(tx, ids) && ids <= more
    ensures Registered(tx, more)
  {
  }

  lemma AddRowKeepsShape(g: PhyGroups, row: PhyRow)
    requires Shaped(g) && AddRow(g, row).Ok?
    ensures Shaped(AddRow(g, row).value)
  {
    var g' := AddRow(g, row).value;
    var s := row.source.source;
    var k0 := row.phyKey;
    var old0 := TxOf(g, k0);
    assert TxShaped(old0) && !old0.delivered && Registered(old0, g.nodes.Keys);
    RegisteredGrows(old0, g.nodes.Keys, g'.nodes.Keys);
    RecordKeepsShape(old0, s, row);
    RecordKeepsRegistered(old0, s, row, g'.nodes.Keys);
    forall k | k in g'.txs
      ensures TxShaped(g'.txs[k]) && !g'.txs[k].delivered && Registered(g'.txs[k], g'.nodes.Keys)
    {
      if k != k0 {
        RegisteredGrows(g.txs[k], g.nodes.Keys, g'.nodes.Keys);
      }
    }
    assert Distinct(g'.keys);
    assert Distinct(g'.nodeOrder);
  }

  lemma {:induction false} GroupFromKeepsShape(g: PhyGroups, rows: seq<PhyRow>)
    requires Shaped(g) && GroupFrom(g, rows).Ok?
    ensures Shaped(GroupFrom(g, rows).value)
    decreases |rows|
  {
    if |rows| > 0 {
      AddRowKeepsShape(g, rows[0]);
      GroupFromKeepsShape(AddRow(g, rows[0]).value, rows[1..]);
    }
  }

  /** The first pass yields a shaped grouping. */
  lemma GroupRowsShaped(rows: seq<PhyRow>)
    requires GroupRows(rows).Ok?
    ensures Shaped(GroupRows(rows).value)
  {
    GroupFromKeepsShape(NoGroups, rows);
  }

  /** The first pass fails exactly when some row names an unknown trace
      source, and then it reports the first such row. */
  lemma {:induction false} GroupFromFailsOnUnknownSource(g: PhyGroups, rows: seq<PhyRow>)
    ensures GroupFrom(g, rows).Ok? <==> forall i :: 0 <= i < |rows| ==> rows[i].source.Known?
    ensures GroupFrom(g, rows).Err? ==>
              exists i :: (0 <= i < |rows| && rows[i].source.Unknown?
                           && (forall j :: 0 <= j < i ==> rows[j].source.Known?)
                           && GroupFrom(g, rows).error == UnknownTraceSource(rows[i].source.name))
    decreases |rows|
  {
    if |rows| > 0 && AddRow(g, rows[0]).Ok? {
      var rest := rows[1..];
      GroupFromFailsOnUnknownSource(AddRow(g, rows[0]).value, rest);
      assert forall i :: 1 <= i < |rows| ==> rows[i] == rest[i - 1];
      if GroupFrom(g, rows).Err? {
        var i :| 0 <= i < |rest| && rest[i].source.Unknown?
                 && (forall j :: 0 <= j < i ==> rest[j].source.Known?)
                 && GroupFrom(g, rows).error == UnknownTraceSource(rest[i].source.name);
        assert rows[i + 1] == rest[i];
      }
    }
  }

  /** The nodes of the rows that carry key k and source s, in row order. */
  function Selected(rows: seq<PhyRow>, k: string, s: PhySource): seq<NodeId>
  {
    if |rows| == 0 then []
    else (if rows[0].phyKey == k && rows[0].source == Known(s) then [rows[0].node] else [])
         + Selected(rows[1..], k, s)
  }

  lemma AddRowColumn(g: PhyGroups, row: PhyRow, k: string, s: PhySource)
    requires AddRow(g, row).Ok?
    ensures Column(TxOf(AddRow(g, row).value, k), s) == Column(TxOf(g, k), s) + Selected([row], k, s)
    ensures k in AddRow(g, row).value.txs <==> k in g.txs || row.phyKey == k
  {
    var g' := AddRow(g, row).value;
    var sel := if row.phyKey == k && row.source == Known(s) then [row.node] else [];
    assert Selected([row], k, s) == sel by {
      assert [row][1..] == [];
    }
    assert g'.txs == g.txs[row.phyKey := Record(TxOf(g, row.phyKey), row.source.source, row)];
    if row.phyKey == k {
      RecordEffect(TxOf(g, k), row.source.source, row);
    } else {
      assert TxOf(g', k) == TxOf(g, k);
    }
  }

  /** Every list of the final record of key k holds, after what it held
      before, exactly the nodes of the rows of that key and source, in row
      order. */
  lemma {:induction false} GroupFromColumns(g: PhyGroups, rows: seq<PhyRow>, k: string, s: PhySource)
    requires GroupFrom(g, rows).Ok?
    ensures Column(TxOf(GroupFrom(g, rows).value, k), s) == Column(TxOf(g, k), s) + Selected(rows, k, s)
    decreases |rows|
  {
    if |rows| > 0 {
      var g' := AddRow(g, rows[0]).value;
      AddRowColumn(g, rows[0], k, s);
      GroupFromColumns(g', rows[1..], k, s);
      SelectedSplit(rows, k, s);
    }
  }

  lemma SelectedSplit(rows: seq<PhyRow>, k: string, s: PhySource)
    requires |rows| > 0
    ensures Selected(rows, k, s) == Selected([rows[0]], k, s) + Selected(rows[1..], k, s)
  {
    assert [rows[0]][1..] == [];
  }

  /** A key has a record exactly when it had one before or some row carries
      it. */
  lemma {:induction false} GroupFromKeys(g: PhyGroups, rows: seq<PhyRow>, k: string)
    requires GroupFrom(g, rows).Ok?
    ensures k in GroupFrom(g, rows).value.txs <==> k in g.txs || exists i :: 0 <= i < |rows| && rows[i].phyKey == k
    decreases |rows|
  {
    if |rows| > 0 {
      var g' := AddRow(g, rows[0]).value;
      AddRowColumn(g, rows[0], k, TxBegin);
      GroupFromKeys(g', rows[1..], k);
      if k in GroupFrom(g, rows).value.txs && k !in g.txs && rows[0].phyKey != k {
        var i :| 0 <= i < |rows[1..]| && rows[1..][i].phyKey == k;
        assert rows[i + 1].phyKey == k;
      }
      if k !in g.txs && (exists i :: 0 <= i < |rows| && rows[i].phyKey == k) && rows[0].phyKey != k {
        var i :| 0 <= i < |rows| && rows[i].phyKey == k;
        assert rows[1..][i - 1].phyKey == k;
      }
    }
  }

  /** The device type of the first row that mentions node n, if any. */
  function FirstDeviceType(rows: seq<PhyRow>, n: NodeId): Option<int>
  {
    if |rows| == 0 then None
    else if rows[0].node == n then Some(rows[0].deviceType)
    else FirstDeviceType(rows[1..], n)
  }

  /** A node entry is created once, at the node's first row, with that row's
      device type and zero counters, and no later row changes it. */
  lemma {:induction false} GroupFromNodes(g: PhyGroups, rows: seq<PhyRow>, n: NodeId)
    requires GroupFrom(g, rows).Ok?
    ensures n in GroupFrom(g, rows).value.nodes <==> n in g.nodes || FirstDeviceType(rows, n).Some?
    ensures n in g.nodes ==> GroupFrom(g, rows).value.nodes[n] == g.nodes[n]
    ensures n !in g.nodes && FirstDeviceType(rows, n).Some? ==>
              GroupFrom(g, rows).value.nodes[n] == FreshNode(FirstDeviceType(rows, n).value)
    decreases |rows|
  {
    if |rows| > 0 {
      GroupFromNodes(AddRow(g, rows[0]).value, rows[1..], n);
    }
  }
}
