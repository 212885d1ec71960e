/** Second pass of the PHY parsers: visit every transmission key in
    first-seen order, judge the transmission, and fold the verdict into the
    per-node counters, the global counters and the drop-reason tallies; a
    delivered transmission gets its Delivered flag, a truncated one is
    removed, an aborted one is fatal. */
module PhyClassify {
  import opened Common
  import opened PhyGrouping
  import opened PhyJudge

  /** `sim_drop_reasons_datarateindex.get(reason, [])`. */
  function RatesOf(m: map<int, seq<int>>, reason: int): seq<int>
  {
    if reason in m then m[reason] else []
  }

  /** The data rate appended to the list of each reason in turn. */
  function AddRates(m: map<int, seq<int>>, reasons: seq<int>, dataRate: int): map<int, seq<int>>
  {
    if |reasons| == 0 then m
    else
      var m' := AddRates(m, reasons[..|reasons| - 1], dataRate);
      var last := reasons[|reasons| - 1];
      m'[last := RatesOf(m', last) + [dataRate]]
  }

  /** The counters of the classification pass: the node dictionary, the
      delivered and undelivered totals, `sim_drop_reasons` and
      `sim_drop_reasons_datarateindex`. */
  datatype Tally = Tally(
    nodes: map<NodeId, PhyNode>, nDelivered: nat, nUndelivered: nat,
    simDropReasons: seq<int>, drByReason: map<int, seq<int>>)

  function StartTally(nodes: map<NodeId, PhyNode>): Tally
  {
    Tally(nodes, 0, 0, [], map[])
  }

  /** A verdict folded into the counters. A transmission with a valid sender
      always counts as sent; a completed one as delivered or not delivered,
      the latter with its drop reasons. */
  function Counted(t: Tally, v: Verdict): (r: Tally)
    requires !v.Aborted? && (!v.MalformedSender? ==> v.sender in t.nodes)
    ensures r.nodes.Keys == t.nodes.Keys
  {
    match v
    case MalformedSender => t
    case Truncated(s) => t.(nodes := t.nodes[s := t.nodes[s].(sent := t.nodes[s].sent + 1)])
    case Completed(s, delivered, drops, dataRate) =>
      var n := t.nodes[s];
      if delivered then
        t.(nodes := t.nodes[s := n.(sent := n.sent + 1, delivered := n.delivered + 1)], nDelivered := t.nDelivered + 1)
      else
        Tally(t.nodes[s := n.(sent := n.sent + 1, notDelivered := n.notDelivered + 1, dropRxReasons := n.dropRxReasons + drops)],
              t.nDelivered, t.nUndelivered + 1, t.simDropReasons + drops, AddRates(t.drByReason, drops, dataRate))
  }

  /** Counting never changes a device type. */
  lemma CountedKeepsTypes(t: Tally, v: Verdict)
    requires !v.Aborted? && (!v.MalformedSender? ==> v.sender in t.nodes)
    ensures TypesOf(Counted(t, v).nodes) == TypesOf(t.nodes)
  {
  }

  /** The transmission dictionary with its insertion order, and the
      counters. */
  datatype PhyState = PhyState(txs: map<string, PhyTx>, keys: seq<string>, tally: Tally)

  datatype PhyError = AbortedTransmission(key: string)

  function UpdatedTxs(txs: map<string, PhyTx>, key: string, v: Verdict): map<string, PhyTx>
    requires key in txs
  {
    if v.Truncated? then txs - {key}
    else if v.Completed? && v.delivered then txs[key := txs[key].(delivered := true)]
    else txs
  }

  function UpdatedKeys(keys: seq<string>, key: string, v: Verdict): seq<string>
  {
    if v.Truncated? then Without(keys, key) else keys
  }

  /** The transmissions still to visit are distinct, present, shaped and
      registered. */
  ghost predicate Ready(st: PhyState, pending: seq<string>)
  {
    && Distinct(pending)
    && forall k :: k in pending ==> k in st.txs && TxShaped(st.txs[k]) && Registered(st.txs[k], st.tally.nodes.Keys)
  }

  /** One iteration of the classification loop. */
  function Step(strict: bool, st: PhyState, key: string): (r: Result<PhyState, PhyError>)
    requires key in st.txs && TxShaped(st.txs[key]) && Registered(st.txs[key], st.tally.nodes.Keys)
    ensures r.Ok? ==> r.value.tally.nodes.Keys == st.tally.nodes.Keys
    ensures r.Ok? ==> forall k :: k != key ==> (k in r.value.txs <==> k in st.txs) && (k in st.txs ==> r.value.txs[k] == st.txs[k])
  {
    var v := Judge(st.txs[key], TypesOf(st.tally.nodes), strict);
    if v.Aborted? then Err(AbortedTransmission(key))
    else Ok(PhyState(UpdatedTxs(st.txs, key, v), UpdatedKeys(st.keys, key, v), Counted(st.tally, v)))
  }

  /** A step is fatal exactly when the sender aborted its own transmission;
      a transmission without exactly one PhyTxBegin entry changes nothing,
      and one that is neither completed nor aborted is removed, costing only
      its sender's Sent counter. */
  lemma StepSpec(strict: bool, st: PhyState, key: string)
    requires key in st.txs && TxShaped(st.txs[key]) && Registered(st.txs[key], st.tally.nodes.Keys)
    ensures var tx := st.txs[key];
            var r := Step(strict, st, key);
            && (r.Err? <==> |tx.txBegin| == 1 && tx.txEnd != [tx.txBegin[0]] && tx.txBegin[0] in tx.txDrop)
            && (r.Err? ==> r.error == AbortedTransmission(key))
            && (|tx.txBegin| != 1 ==> r == Ok(st))
            && (|tx.txBegin| == 1 && tx.txEnd != [tx.txBegin[0]] && tx.txBegin[0] !in tx.txDrop ==>
                  var s := tx.txBegin[0];
                  r == Ok(PhyState(st.txs - {key}, Without(st.keys, key),
                                   st.tally.(nodes := st.tally.nodes[s := st.tally.nodes[s].(sent := st.tally.nodes[s].sent + 1)]))))
  {
    JudgeSpec(st.txs[key], TypesOf(st.tally.nodes), strict);
  }

  lemma StepKeepsReady(strict: bool, st: PhyState, pending: seq<string>)
    requires Ready(st, pending) && |pending| > 0 && Step(strict, st, pending[0]).Ok?
    ensures Ready(Step(strict, st, pending[0]).value, pending[1..])
  {
    var st' := Step(strict, st, pending[0]).value;
    forall k | k in pending[1..]
      ensures k in st'.txs && TxShaped(st'.txs[k]) && Registered(st'.txs[k], st'.tally.nodes.Keys)
    {
      assert k != pending[0];
    }
  }

  /** The classification loop over the remaining keys. */
  function ClassifyFrom(strict: bool, st: PhyState, pending: seq<string>): Result<PhyState, PhyError>
    requires Ready(st, pending)
    decreases |pending|
  {
    if |pending| == 0 then Ok(st)
    else
      match Step(strict, st, pending[0])
      case Err(e) => Err(e)
      case Ok(st') =>
        StepKeepsReady(strict, st, pending);
        ClassifyFrom(strict, st', pending[1..])
  }

  function StartState(g: PhyGroups): PhyState
  {
    PhyState(g.txs, g.keys, StartTally(g.nodes))
  }

  lemma ShapedIsReady(g: PhyGroups)
    requires Shaped(g)
    ensures Ready(StartState(g), g.keys)
  {
  }

  /** The pass over a grouping, visiting `list(phy_transmissions.keys())`. */
  function Classify(strict: bool, g: PhyGroups): Result<PhyState, PhyError>
    requires Shaped(g)
  {
    ShapedIsReady(g);
    ClassifyFrom(strict, StartState(g), g.keys)
  }

  /** The loop that records the drop reasons of a not-delivered
      transmission: each reason goes to the sender's DropRxReason list, to
      `sim_drop_reasons`, and its data rate to the reason's list. */
  method RecordDrops(own: seq<int>, sim: seq<int>, drByReason: map<int, seq<int>>, reasons: seq<int>, dataRate: int)
    returns (own': seq<int>, sim': seq<int>, drByReason': map<int, seq<int>>)
    ensures own' == own + reasons && sim' == sim + reasons
    ensures drByReason' == AddRates(drByReason, reasons, dataRate)
  {
    own', sim', drByReason' := own, sim, drByReason;
    var j := 0;
    while j < |reasons|
      invariant 0 <= j <= |reasons|
      invariant own' == own + reasons[..j] && sim' == sim + reasons[..j]
      invariant drByReason' == AddRates(drByReason, reasons[..j], dataRate)
    {
      var reason := reasons[j];
      assert reasons[..j + 1][..j] == reasons[..j];
      own' := own' + [reason];
      sim' := sim' + [reason];
      drByReason' := drByReason'[reason := RatesOf(drByReason', reason) + [dataRate]];
      assert reasons[..j + 1] == reasons[..j] + [reason];
      j := j + 1;
    }
    assert reasons[..j] == reasons;
  }

  /** The body of the classification loop for one key, as the script runs
      it: count the sender, check completion, scan for a receiver, then
      either mark the delivery, record the drops, abort, or remove the key. */
  method ClassifyOne(strict: bool, st: PhyState, key: string) returns (r: Result<PhyState, PhyError>)
    requires key in st.txs && TxShaped(st.txs[key]) && Registered(st.txs[key], st.tally.nodes.Keys)
    ensures r == Step(strict, st, key)
  {
    var tx := st.txs[key];
    if |tx.txBegin| != 1 {
      return Ok(st);
    }
    var sender := tx.txBegin[0];
    assert sender in Column(tx, TxBegin);
    ghost var v := Judge(tx, TypesOf(st.tally.nodes), strict);
    JudgeSpec(tx, TypesOf(st.tally.nodes), strict);
    var nodes := st.tally.nodes;
    nodes := nodes[sender := nodes[sender].(sent := nodes[sender].sent + 1)];
    if |tx.txEnd| == 1 && tx.txEnd[0] == sender {
      assert tx.txEnd == [sender];
      var types := TypesOf(nodes);
      assert types == TypesOf(st.tally.nodes);
      var expected := ExpectedReceiverType(nodes[sender].deviceType);
      var delivered, _ := ScanReceivers(tx, types, expected, strict);
      ghost var n := st.tally.nodes[sender];
      if delivered {
        nodes := nodes[sender := nodes[sender].(delivered := nodes[sender].delivered + 1)];
        assert nodes == st.tally.nodes[sender := n.(sent := n.sent + 1, delivered := n.delivered + 1)];
        r := Ok(PhyState(st.txs[key := tx.(delivered := true)], st.keys,
                         st.tally.(nodes := nodes, nDelivered := st.tally.nDelivered + 1)));
      } else {
        nodes := nodes[sender := nodes[sender].(notDelivered := nodes[sender].notDelivered + 1)];
        var reasons := TallyDrops(tx.rxDropMisc, types, expected);
        var own, sim, drByReason := RecordDrops(nodes[sender].dropRxReasons, st.tally.simDropReasons,
                                                st.tally.drByReason, reasons, tx.txBeginMisc[0].dataRate);
        nodes := nodes[sender := nodes[sender].(dropRxReasons := own)];
        assert nodes == st.tally.nodes[sender := n.(sent := n.sent + 1, notDelivered := n.notDelivered + 1, dropRxReasons := n.dropRxReasons + v.drops)];
        r := Ok(PhyState(st.txs, st.keys, Tally(nodes, st.tally.nDelivered, st.tally.nUndelivered + 1, sim, drByReason)));
      }
      assert v.Completed? && v.delivered == delivered;
      assert r == Ok(PhyState(UpdatedTxs(st.txs, key, v), UpdatedKeys(st.keys, key, v), Counted(st.tally, v)));
    } else if sender in tx.txDrop {
      r := Err(AbortedTransmission(key));
    } else {
      r := Ok(PhyState(st.txs - {key}, Without(st.keys, key), st.tally.(nodes := nodes)));
    }
  }

  /** The classification pass as the script runs it. */
  method ClassifyPhyTransmissions(strict: bool, g: PhyGroups) returns (r: Result<PhyState, PhyError>)
    requires Shaped(g)
    ensures r == Classify(strict, g)
  {
    ShapedIsReady(g);
    var pending := g.keys;
    var st := StartState(g);
    var i := 0;
    while i < |pending|
      invariant 0 <= i <= |pending|
      invariant Ready(st, pending[i..])
      invariant ClassifyFrom(strict, st, pending[i..]) == Classify(strict, g)
    {
      var stepped := ClassifyOne(strict, st, pending[i]);
      if stepped.Err? {
        return Err(stepped.error);
      }
      StepKeepsReady(strict, st, pending[i..]);
      assert pending[i..][1..] == pending[i + 1..];
      st := stepped.value;
      i := i + 1;
    }
    r := Ok(st);
  }
}
