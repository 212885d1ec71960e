/** `parse-packet-trace.py`, the earlier PHY parser: the same two passes,
    but a PhyTxBegin row stores its (node, channel, data rate) tuple and a
    PhyRxDrop row its (node, reason) tuple directly in the PhyTxBegin and
    PhyRxDrop lists, there are no Misc lists, and a receiver counts as
    delivering without the PhyRxDrop check. The lemmas here show that this
    parser computes the projection of what the strict model computes with the
    drop check switched off. */
module PhyLax {
  import opened Common
  import opened PhyGrouping
  import opened PhyJudge
  import opened PhyClassify

  /** A transmission record in the lax layout. */
  datatype LaxTx = LaxTx(
    txBegin: seq<TxBeginAux>, rxBegin: seq<NodeId>, txEnd: seq<NodeId>,
    rxEnd: seq<NodeId>, rxDrop: seq<RxDropAux>, txDrop: seq<NodeId>, delivered: bool)

  const LaxEmptyTx := LaxTx([], [], [], [], [], [], false)

  /** The record after one row: PhyTxBegin and PhyRxDrop rows store their
      tuple, every other source its bare node id. */
  function LaxRecord(tx: LaxTx, s: PhySource, row: PhyRow): LaxTx
  {
    match s
    case TxBegin => tx.(txBegin := tx.txBegin + [TxBeginAuxOf(row)])
    case RxBegin => tx.(rxBegin := tx.rxBegin + [row.node])
    case TxEnd => tx.(txEnd := tx.txEnd + [row.node])
    case RxEnd => tx.(rxEnd := tx.rxEnd + [row.node])
    case RxDrop => tx.(rxDrop := tx.rxDrop + [RxDropAuxOf(row)])
    case TxDrop => tx.(txDrop := tx.txDrop + [row.node])
  }

  datatype LaxGroups = LaxGroups(txs: map<string, LaxTx>, keys: seq<string>, nodes: map<NodeId, PhyNode>, nodeOrder: seq<NodeId>)

  function LaxTxOf(g: LaxGroups, k: string): LaxTx
  {
    if k in g.txs then g.txs[k] else LaxEmptyTx
  }

  /** One iteration of the lax row loop. */
  function LaxAddRow(g: LaxGroups, row: PhyRow): (r: Result<LaxGroups, GroupError>)
    ensures r.Err? <==> row.source.Unknown?
  {
    match row.source
    case Unknown(name) => Err(UnknownTraceSource(name))
    case Known(s) =>
      var keys := if row.phyKey in g.txs then g.keys else g.keys + [row.phyKey];
      var txs := g.txs[row.phyKey := LaxRecord(LaxTxOf(g, row.phyKey), s, row)];
      if row.node in g.nodes then Ok(LaxGroups(txs, keys, g.nodes, g.nodeOrder))
      else Ok(LaxGroups(txs, keys, g.nodes[row.node := FreshNode(row.deviceType)], g.nodeOrder + [row.node]))
  }

  function LaxGroupFrom(g: LaxGroups, rows: seq<PhyRow>): Result<LaxGroups, GroupError>
    decreases |rows|
  {
    if |rows| == 0 then Ok(g)
    else
      match LaxAddRow(g, rows[0])
      case Err(e) => Err(e)
      case Ok(g') => LaxGroupFrom(g', rows[1..])
  }

  function LaxGroupRows(rows: seq<PhyRow>): Result<LaxGroups, GroupError>
  {
    LaxGroupFrom(LaxGroups(map[], [], map[], []), rows)
  }

  /** The lax first pass as the script runs it. */
  method LaxGroupTrace(rows: seq<PhyRow>) returns (r: Result<LaxGroups, GroupError>)
    ensures r == LaxGroupRows(rows)
  {
    var txs: map<string, LaxTx> := map[];
    var keys: seq<string> := [];
    var nodes: map<NodeId, PhyNode> := map[];
    var nodeOrder: seq<NodeId> := [];
    var i := 0;
    while i < |rows|
      invariant 0 <= i <= |rows|
      invariant LaxGroupFrom(LaxGroups(txs, keys, nodes, nodeOrder), rows[i..]) == LaxGroupRows(rows)
    {
      var row := rows[i];
      if row.source.Unknown? {
        return Err(UnknownTraceSource(row.source.name));
      }
      ghost var before := LaxGroups(txs, keys, nodes, nodeOrder);
      if row.node !in nodes {
        nodes := nodes[row.node := FreshNode(row.deviceType)];
        nodeOrder := nodeOrder + [row.node];
      }
      var tx := LaxEmptyTx;
      if row.phyKey in txs {
        tx := txs[row.phyKey];
      } else {
        keys := keys + [row.phyKey];
      }
      txs := txs[row.phyKey := LaxRecord(tx, row.source.source, row)];
      assert LaxGroups(txs, keys, nodes, nodeOrder) == LaxAddRow(before, row).value;
      assert rows[i..][1..] == rows[i + 1..];
      i := i + 1;
    }
    r := Ok(LaxGroups(txs, keys, nodes, nodeOrder));
  }

  // ---------------------------------------------------------------------
  // The strict layout projected onto the lax one

  /** A strict record in the lax layout: the Misc tuples take the place of
      the PhyTxBegin and PhyRxDrop node lists. */
  function Project(tx: PhyTx): LaxTx
  {
    LaxTx(tx.txBeginMisc, tx.rxBegin, tx.txEnd, tx.rxEnd, tx.rxDropMisc, tx.txDrop, tx.delivered)
  }

  function ProjectTxs(txs: map<string, PhyTx>): (r: map<string, LaxTx>)
    ensures r.Keys == txs.Keys
    ensures forall k :: k in txs ==> r[k] == Project(txs[k])
  {
    map k | k in txs :: Project(txs[k])
  }

  function ProjectGroups(g: PhyGroups): LaxGroups
  {
    LaxGroups(ProjectTxs(g.txs), g.keys, g.nodes, g.nodeOrder)
  }

  function ProjectGrouping(r: Result<PhyGroups, GroupError>): Result<LaxGroups, GroupError>
  {
    match r
    case Ok(g) => Ok(ProjectGroups(g))
    case Err(e) => Err(e)
  }

  lemma ProjectRecord(tx: PhyTx, s: PhySource, row: PhyRow)
    ensures Project(Record(tx, s, row)) == LaxRecord(Project(tx), s, row)
  {
  }

  lemma LaxAddRowIsProjection(g: PhyGroups, row: PhyRow)
    ensures LaxAddRow(ProjectGroups(g), row) == ProjectGrouping(AddRow(g, row))
  {
    if row.source.Known? {
      var k := row.phyKey;
      assert LaxTxOf(ProjectGroups(g), k) == Project(TxOf(g, k));
      ProjectRecord(TxOf(g, k), row.source.source, row);
      var g' := AddRow(g, row).value;
      assert ProjectTxs(g'.txs) == ProjectTxs(g.txs)[k := LaxRecord(Project(TxOf(g, k)), row.source.source, row)];
    }
  }

  lemma {:induction false} LaxGroupFromIsProjection(g: PhyGroups, rows: seq<PhyRow>)
    ensures LaxGroupFrom(ProjectGroups(g), rows) == ProjectGrouping(GroupFrom(g, rows))
    decreases |rows|
  {
    if |rows| > 0 {
      LaxAddRowIsProjection(g, rows[0]);
      if AddRow(g, rows[0]).Ok? {
        LaxGroupFromIsProjection(AddRow(g, rows[0]).value, rows[1..]);
      }
    }
  }

  /** The lax first pass builds exactly the strict grouping, read in the lax
      layout, and fails on the same rows. */
  lemma LaxGroupingIsProjection(rows: seq<PhyRow>)
    ensures LaxGroupRows(rows) == ProjectGrouping(GroupRows(rows))
  {
    assert ProjectGroups(NoGroups) == LaxGroups(map[], [], map[], []);
    LaxGroupFromIsProjection(NoGroups, rows);
  }

  // ---------------------------------------------------------------------
  // The lax judgement

  predicate LaxAccepts(tx: LaxTx, types: DeviceTypes, expected: int, rx: NodeId)
  {
    rx in types && types[rx] == expected && rx in tx.rxEnd
  }

  predicate LaxDeliveredBy(tx: LaxTx, types: DeviceTypes, expected: int)
  {
    exists i :: 0 <= i < |tx.rxBegin| && LaxAccepts(tx, types, expected, tx.rxBegin[i])
  }

  /** The lax scan over PhyRxBegin, stopping at the first receiver of the
      expected type that reached PhyRxEnd. */
  method LaxScanReceivers(tx: LaxTx, types: DeviceTypes, expected: int) returns (delivered: bool)
    ensures delivered <==> LaxDeliveredBy(tx, types, expected)
  {
    delivered := false;
    var i := 0;
    while i < |tx.rxBegin|
      invariant 0 <= i <= |tx.rxBegin|
      invariant forall j :: 0 <= j < i ==> !LaxAccepts(tx, types, expected, tx.rxBegin[j])
    {
      var rx := tx.rxBegin[i];
      if rx in types && types[rx] == expected && rx in tx.rxEnd {
        delivered := true;
        return;
      }
      i := i + 1;
    }
  }

  /** The node the single PhyTxBegin tuple names is registered. */
  predicate SenderRegistered(tx: LaxTx, ids: set<NodeId>)
  {
    |tx.txBegin| == 1 ==> tx.txBegin[0].node in ids
  }

  function JudgeLax(tx: LaxTx, types: DeviceTypes): (v: Verdict)
    requires SenderRegistered(tx, types.Keys)
    ensures !v.MalformedSender? ==> v.sender in types
  {
    if |tx.txBegin| != 1 then MalformedSender
    else
      var sender := tx.txBegin[0].node;
      if tx.txEnd == [sender] then
        var expected := ExpectedReceiverType(types[sender]);
        var delivered := LaxDeliveredBy(tx, types, expected);
        Completed(sender, delivered,
                  if delivered then [] else DropReasons(tx.rxDrop, types, expected),
                  tx.txBegin[0].dataRate)
      else if sender in tx.txDrop then Aborted(sender)
      else Truncated(sender)
  }

  /** The lax judgement unfolded: as the strict one, with the sender and
      the data rate read from the single PhyTxBegin tuple and the drop
      reasons from the PhyRxDrop tuples. */
  lemma JudgeLaxSpec(tx: LaxTx, types: DeviceTypes)
    requires SenderRegistered(tx, types.Keys)
    ensures var v := JudgeLax(tx, types);
            && (v.MalformedSender? <==> |tx.txBegin| != 1)
            && (!v.MalformedSender? ==> v.sender == tx.txBegin[0].node)
            && (v.Completed? <==> |tx.txBegin| == 1 && tx.txEnd == [tx.txBegin[0].node])
            && (v.Aborted? <==> |tx.txBegin| == 1 && tx.txEnd != [tx.txBegin[0].node] && tx.txBegin[0].node in tx.txDrop)
            && (v.Completed? ==> v.dataRate == tx.txBegin[0].dataRate)
            && (v.Completed? ==> (v.delivered <==> LaxDeliveredBy(tx, types, ExpectedReceiverType(types[v.sender]))))
            && (v.Completed? && v.delivered ==> v.drops == [])
            && (v.Completed? && !v.delivered ==> v.drops == DropReasons(tx.rxDrop, types, ExpectedReceiverType(types[v.sender])))
  {
  }

  lemma ProjectKeepsSender(tx: PhyTx, ids: set<NodeId>)
    requires TxShaped(tx) && Registered(tx, ids)
    ensures SenderRegistered(Project(tx), ids)
  {
    if |tx.txBegin| == 1 {
      assert tx.txBegin[0] in Column(tx, TxBegin);
    }
  }

  /** On the lax layout, the lax judgement is the strict judgement with the
      drop check switched off. */
  lemma JudgeLaxIsJudge(tx: PhyTx, types: DeviceTypes)
    requires TxShaped(tx) && Registered(tx, types.Keys)
    ensures SenderRegistered(Project(tx), types.Keys)
    ensures JudgeLax(Project(tx), types) == Judge(tx, types, false)
  {
    ProjectKeepsSender(tx, types.Keys);
    var p := Project(tx);
    forall expected: int
      ensures LaxDeliveredBy(p, types, expected) == DeliveredBy(tx, types, expected, false)
    {
      if DeliveredBy(tx, types, expected, false) {
        var i :| 0 <= i < |tx.rxBegin| && Accepts(tx, types, expected, false, tx.rxBegin[i]);
        assert LaxAccepts(p, types, expected, p.rxBegin[i]);
      }
    }
  }

  // ---------------------------------------------------------------------
  // The lax classification pass

  datatype LaxState = LaxState(txs: map<string, LaxTx>, keys: seq<string>, tally: Tally)

  function LaxUpdatedTxs(txs: map<string, LaxTx>, key: string, v: Verdict): map<string, LaxTx>
    requires key in txs
  {
    if v.Truncated? then txs - {key}
    else if v.Completed? && v.delivered then txs[key := txs[key].(delivered := true)]
    else txs
  }

  ghost predicate LaxReady(st: LaxState, pending: seq<string>)
  {
    && Distinct(pending)
    && forall k :: k in pending ==> k in st.txs && SenderRegistered(st.txs[k], st.tally.nodes.Keys)
  }

  function LaxStep(st: LaxState, key: string): (r: Result<LaxState, PhyError>)
    requires key in st.txs && SenderRegistered(st.txs[key], st.tally.nodes.Keys)
    ensures r.Ok? ==> r.value.tally.nodes.Keys == st.tally.nodes.Keys
    ensures r.Ok? ==> forall k :: k != key ==> (k in r.value.txs <==> k in st.txs) && (k in st.txs ==> r.value.txs[k] == st.txs[k])
  {
    var v := JudgeLax(st.txs[key], TypesOf(st.tally.nodes));
    if v.Aborted? then Err(AbortedTransmission(key))
    else Ok(LaxState(LaxUpdatedTxs(st.txs, key, v), UpdatedKeys(st.keys, key, v), Counted(st.tally, v)))
  }

  lemma LaxStepKeepsReady(st: LaxState, pending: seq<string>)
    requires LaxReady(st, pending) && |pending| > 0 && LaxStep(st, pending[0]).Ok?
    ensures LaxReady(LaxStep(st, pending[0]).value, pending[1..])
  {
    var st' := LaxStep(st, pending[0]).value;
    forall k | k in pending[1..]
      ensures k in st'.txs && SenderRegistered(st'.txs[k], st'.tally.nodes.Keys)
    {
      assert k != pending[0];
    }
  }

  function LaxClassifyFrom(st: LaxState, pending: seq<string>): Result<LaxState, PhyError>
    requires LaxReady(st, pending)
    decreases |pending|
  {
    if |pending| == 0 then Ok(st)
    else
      match LaxStep(st, pending[0])
      case Err(e) => Err(e)
      case Ok(st') =>
        LaxStepKeepsReady(st, pending);
        LaxClassifyFrom(st', pending[1..])
  }

  /** The transmissions are listed once each in the key order and carry a
      registered sender. */
  ghost predicate LaxShaped(g: LaxGroups)
  {
    && Distinct(g.keys)
    && (forall k :: k in g.keys ==> k in g.txs && SenderRegistered(g.txs[k], g.nodes.Keys))
  }

  function LaxStartState(g: LaxGroups): LaxState
  {
    LaxState(g.txs, g.keys, StartTally(g.nodes))
  }

  function LaxClassify(g: LaxGroups): Result<LaxState, PhyError>
    requires LaxShaped(g)
  {
    assert LaxReady(LaxStartState(g), g.keys);
    LaxClassifyFrom(LaxStartState(g), g.keys)
  }

  /** The body of the lax classification loop for one key, as the script
      runs it. */
  method LaxClassifyOne(st: LaxState, key: string) returns (r: Result<LaxState, PhyError>)
    requires key in st.txs && SenderRegistered(st.txs[key], st.tally.nodes.Keys)
    ensures r == LaxStep(st, key)
  {
    var tx := st.txs[key];
    if |tx.txBegin| != 1 {
      return Ok(st);
    }
    var sender := tx.txBegin[0].node;
    ghost var v := JudgeLax(tx, TypesOf(st.tally.nodes));
    JudgeLaxSpec(tx, TypesOf(st.tally.nodes));
    var nodes := st.tally.nodes;
    nodes := nodes[sender := nodes[sender].(sent := nodes[sender].sent + 1)];
    if |tx.txEnd| == 1 && tx.txEnd[0] == sender {
      assert tx.txEnd == [sender];
      var types := TypesOf(nodes);
      assert types == TypesOf(st.tally.nodes);
      var expected := ExpectedReceiverType(nodes[sender].deviceType);
      var delivered := LaxScanReceivers(tx, types, expected);
      ghost var n := st.tally.nodes[sender];
      if delivered {
        nodes := nodes[sender := nodes[sender].(delivered := nodes[sender].delivered + 1)];
        assert nodes == st.tally.nodes[sender := n.(sent := n.sent + 1, delivered := n.delivered + 1)];
        r := Ok(LaxState(st.txs[key := tx.(delivered := true)], st.keys,
                         st.tally.(nodes := nodes, nDelivered := st.tally.nDelivered + 1)));
      } else {
        nodes := nodes[sender := nodes[sender].(notDelivered := nodes[sender].notDelivered + 1)];
        var reasons := TallyDrops(tx.rxDrop, types, expected);
        var own, sim, drByReason := RecordDrops(nodes[sender].dropRxReasons, st.tally.simDropReasons,
                                                st.tally.drByReason, reasons, tx.txBegin[0].dataRate);
        nodes := nodes[sender := nodes[sender].(dropRxReasons := own)];
        assert nodes == st.tally.nodes[sender := n.(sent := n.sent + 1, notDelivered := n.notDelivered + 1, dropRxReasons := n.dropRxReasons + v.drops)];
        r := Ok(LaxState(st.txs, st.keys, Tally(nodes, st.tally.nDelivered, st.tally.nUndelivered + 1, sim, drByReason)));
      }
      assert v.Completed? && v.delivered == delivered;
      assert r == Ok(LaxState(LaxUpdatedTxs(st.txs, key, v), UpdatedKeys(st.keys, key, v), Counted(st.tally, v)));
    } else if sender in tx.txDrop {
      r := Err(AbortedTransmission(key));
    } else {
      r := Ok(LaxState(st.txs - {key}, Without(st.keys, key), st.tally.(nodes := nodes)));
    }
  }

  /** The lax classification pass as the script runs it. */
  method LaxClassifyTransmissions(g: LaxGroups) returns (r: Result<LaxState, PhyError>)
    requires LaxShaped(g)
    ensures r == LaxClassify(g)
  {
    var pending := g.keys;
    var st := LaxStartState(g);
    var i := 0;
    while i < |pending|
      invariant 0 <= i <= |pending|
      invariant LaxReady(st, pending[i..])
      invariant LaxClassifyFrom(st, pending[i..]) == LaxClassify(g)
    {
      var stepped := LaxClassifyOne(st, pending[i]);
      if stepped.Err? {
        return Err(stepped.error);
      }
      LaxStepKeepsReady(st, pending[i..]);
      assert pending[i..][1..] == pending[i + 1..];
      st := stepped.value;
      i := i + 1;
    }
    r := Ok(st);
  }

  // ---------------------------------------------------------------------
  // The lax pass is the strict pass without the drop check

  function ProjectState(st: PhyState): LaxState
  {
    LaxState(ProjectTxs(st.txs), st.keys, st.tally)
  }

  function ProjectOutcome(r: Result<PhyState, PhyError>): Result<LaxState, PhyError>
  {
    match r
    case Ok(st) => Ok(ProjectState(st))
    case Err(e) => Err(e)
  }

  lemma ReadyProjects(st: PhyState, pending: seq<string>)
    requires Ready(st, pending)
    ensures LaxReady(ProjectState(st), pending)
  {
    forall k | k in pending
      ensures SenderRegistered(ProjectState(st).txs[k], st.tally.nodes.Keys)
    {
      ProjectKeepsSender(st.txs[k], st.tally.nodes.Keys);
    }
  }

  lemma LaxStepIsProjection(st: PhyState, key: string)
    requires key in st.txs && TxShaped(st.txs[key]) && Registered(st.txs[key], st.tally.nodes.Keys)
    ensures SenderRegistered(ProjectState(st).txs[key], st.tally.nodes.Keys)
    ensures LaxStep(ProjectState(st), key) == ProjectOutcome(Step(false, st, key))
  {
    var types := TypesOf(st.tally.nodes);
    JudgeLaxIsJudge(st.txs[key], types);
    var v := Judge(st.txs[key], types, false);
    if !v.Aborted? {
      var p := ProjectState(st);
      assert LaxUpdatedTxs(p.txs, key, v) == ProjectTxs(UpdatedTxs(st.txs, key, v));
    }
  }

  lemma {:induction false} LaxClassifyFromIsProjection(st: PhyState, pending: seq<string>)
    requires Ready(st, pending)
    ensures LaxReady(ProjectState(st), pending)
    ensures LaxClassifyFrom(ProjectState(st), pending) == ProjectOutcome(ClassifyFrom(false, st, pending))
    decreases |pending|
  {
    ReadyProjects(st, pending);
    if |pending| > 0 {
      LaxStepIsProjection(st, pending[0]);
      if Step(false, st, pending[0]).Ok? {
        StepKeepsReady(false, st, pending);
        LaxClassifyFromIsProjection(Step(false, st, pending[0]).value, pending[1..]);
      }
    }
  }

  /** The lax classification of the lax grouping is the strict
      classification, with the drop check off, of the strict grouping, read
      in the lax layout: the same counters, the same drop tallies, the same
      transmissions kept, the same failures. */
  lemma LaxClassifyIsProjection(g: PhyGroups)
    requires Shaped(g)
    ensures LaxShaped(ProjectGroups(g))
    ensures LaxClassify(ProjectGroups(g)) == ProjectOutcome(Classify(false, g))
  {
    ShapedIsReady(g);
    LaxClassifyFromIsProjection(StartState(g), g.keys);
    assert LaxStartState(ProjectGroups(g)) == ProjectState(StartState(g));
  }
}
