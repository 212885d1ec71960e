/** What the classification pass computes, stated against the list of
    verdicts of the transmissions in first-seen order: since every node's
    device type is fixed by the first pass and every key is visited once,
    each transmission is judged exactly as it was grouped. */
module PhyProperties {
  import opened Common
  import opened PhyGrouping
  import opened PhyJudge
  import opened PhyClassify

  ghost predicate AllReady(txs: map<string, PhyTx>, types: DeviceTypes, keys: seq<string>)
  {
    forall k :: k in keys ==> k in txs && TxShaped(txs[k]) && Registered(txs[k], types.Keys)
  }

  /** The verdict of every key, in order. */
  function VerdictsOf(strict: bool, txs: map<string, PhyTx>, types: DeviceTypes, keys: seq<string>): (vs: seq<Verdict>)
    requires AllReady(txs, types, keys)
    ensures |vs| == |keys|
  {
    if |keys| == 0 then []
    else [Judge(txs[keys[0]], types, strict)] + VerdictsOf(strict, txs, types, keys[1..])
  }

  function Verdicts(strict: bool, g: PhyGroups): seq<Verdict>
    requires Shaped(g)
  {
    VerdictsOf(strict, g.txs, TypesOf(g.nodes), g.keys)
  }

  /** No verdict is fatal and every sender has a node entry. */
  predicate Countable(t: Tally, vs: seq<Verdict>)
  {
    forall i :: 0 <= i < |vs| ==> !vs[i].Aborted? && (!vs[i].MalformedSender? ==> vs[i].sender in t.nodes)
  }

  /** The counters after folding the verdicts in order. */
  function CountedAll(t: Tally, vs: seq<Verdict>): (r: Tally)
    requires Countable(t, vs)
    ensures r.nodes.Keys == t.nodes.Keys
    decreases |vs|
  {
    if |vs| == 0 then t
    else
      var t' := Counted(t, vs[0]);
      assert Countable(t', vs[1..]) by {
        assert forall i :: 1 <= i < |vs| ==> vs[1..][i - 1] == vs[i];
      }
      CountedAll(t', vs[1..])
  }

  lemma VerdictsOfUnfold(strict: bool, txs: map<string, PhyTx>, types: DeviceTypes, keys: seq<string>)
    requires AllReady(txs, types, keys) && |keys| > 0
    ensures AllReady(txs, types, keys[1..])
    ensures VerdictsOf(strict, txs, types, keys) == [Judge(txs[keys[0]], types, strict)] + VerdictsOf(strict, txs, types, keys[1..])
  {
  }

  /** The verdict of the i-th key. */
  lemma {:induction false} VerdictAt(strict: bool, txs: map<string, PhyTx>, types: DeviceTypes, keys: seq<string>, i: nat)
    requires AllReady(txs, types, keys) && i < |keys|
    ensures VerdictsOf(strict, txs, types, keys)[i] == Judge(txs[keys[i]], types, strict)
  {
    VerdictsOfUnfold(strict, txs, types, keys);
    if i > 0 {
      VerdictAt(strict, txs, types, keys[1..], i - 1);
    }
  }

  predicate NoneAborted(vs: seq<Verdict>)
  {
    forall i :: 0 <= i < |vs| ==> !vs[i].Aborted?
  }

  lemma ClassifyFromUnfold(strict: bool, st: PhyState, pending: seq<string>)
    requires Ready(st, pending) && |pending| > 0
    ensures Step(strict, st, pending[0]).Err? ==> ClassifyFrom(strict, st, pending) == Err(Step(strict, st, pending[0]).error)
    ensures Step(strict, st, pending[0]).Ok? ==>
              Ready(Step(strict, st, pending[0]).value, pending[1..])
              && ClassifyFrom(strict, st, pending) == ClassifyFrom(strict, Step(strict, st, pending[0]).value, pending[1..])
  {
    if Step(strict, st, pending[0]).Ok? {
      StepKeepsReady(strict, st, pending);
    }
  }

  lemma CountedAllUnfold(t: Tally, vs: seq<Verdict>)
    requires Countable(t, vs) && |vs| > 0
    ensures Countable(Counted(t, vs[0]), vs[1..])
    ensures CountedAll(t, vs) == CountedAll(Counted(t, vs[0]), vs[1..])
  {
    assert forall i :: 1 <= i < |vs| ==> vs[1..][i - 1] == vs[i];
  }

  lemma CountableCons(t: Tally, v: Verdict, vs: seq<Verdict>)
    requires !v.Aborted? && (!v.MalformedSender? ==> v.sender in t.nodes)
    requires Countable(Counted(t, v), vs)
    ensures Countable(t, [v] + vs)
    ensures CountedAll(t, [v] + vs) == CountedAll(Counted(t, v), vs)
  {
    var ws := [v] + vs;
    assert ws[1..] == vs;
    assert forall i :: 1 <= i < |ws| ==> ws[i] == vs[i - 1];
  }

  lemma NoneAbortedCons(v: Verdict, vs: seq<Verdict>)
    ensures NoneAborted([v] + vs) <==> !v.Aborted? && NoneAborted(vs)
  {
    var ws := [v] + vs;
    assert ws[0] == v;
    assert forall i :: 0 <= i < |vs| ==> vs[i] == ws[i + 1];
    if !v.Aborted? && NoneAborted(vs) {
      forall i | 0 <= i < |ws|
        ensures !ws[i].Aborted?
      {
        if i > 0 {
          assert ws[i] == vs[i - 1];
        }
      }
    }
  }

  /** The classification pass succeeds exactly when no transmission is
      aborted by its sender, and its counters are those of the verdicts
      folded in key order. */
  lemma {:induction false} ClassifyFromByVerdicts(strict: bool, st: PhyState, pending: seq<string>,
                                                   txs0: map<string, PhyTx>, types0: DeviceTypes)
    requires Ready(st, pending)
    requires forall k :: k in pending ==> k in txs0 && txs0[k] == st.txs[k]
    requires TypesOf(st.tally.nodes) == types0
    ensures AllReady(txs0, types0, pending)
    ensures ClassifyFrom(strict, st, pending).Ok? <==> NoneAborted(VerdictsOf(strict, txs0, types0, pending))
    ensures ClassifyFrom(strict, st, pending).Ok? ==>
              Countable(st.tally, VerdictsOf(strict, txs0, types0, pending))
              && ClassifyFrom(strict, st, pending).value.tally == CountedAll(st.tally, VerdictsOf(strict, txs0, types0, pending))
    decreases |pending|
  {
    if |pending| > 0 {
      var key := pending[0];
      var rest := pending[1..];
      var v := Judge(st.txs[key], types0, strict);
      VerdictsOfUnfold(strict, txs0, types0, pending);
      ClassifyFromUnfold(strict, st, pending);
      NoneAbortedCons(v, VerdictsOf(strict, txs0, types0, rest));
      if !v.Aborted? {
        var st' := Step(strict, st, key).value;
        assert st'.tally == Counted(st.tally, v);
        CountedKeepsTypes(st.tally, v);
        assert forall k :: k in rest ==> k != key by {
          assert forall i :: 1 <= i < |pending| ==> pending[i] != pending[0];
        }
        ClassifyFromByVerdicts(strict, st', rest, txs0, types0);
        if ClassifyFrom(strict, st', rest).Ok? {
          CountableCons(st.tally, v, VerdictsOf(strict, txs0, types0, rest));
        }
      }
    }
  }

  // ---------------------------------------------------------------------
  // Counting the verdicts

  /** The four ways a verdict touches a node's counters. */
  datatype Effect = CountsSent | CountsDelivered | CountsNotDelivered | CountsTruncated

  predicate Has(v: Verdict, n: NodeId, e: Effect)
  {
    && !v.MalformedSender? && !v.Aborted? && v.sender == n
    && match e
       case CountsSent => true
       case CountsDelivered => v.Completed? && v.delivered
       case CountsNotDelivered => v.Completed? && !v.delivered
       case CountsTruncated => v.Truncated?
  }

  /** Number of verdicts with effect e on node n. */
  function Number(vs: seq<Verdict>, n: NodeId, e: Effect): (r: nat)
    ensures r <= |vs|
  {
    if |vs| == 0 then 0 else (if Has(vs[0], n, e) then 1 else 0) + Number(vs[1..], n, e)
  }

  /** Number of completed verdicts with the given delivery outcome. */
  function NumberCompleted(vs: seq<Verdict>, delivered: bool): (r: nat)
    ensures r <= |vs|
  {
    if |vs| == 0 then 0
    else (if vs[0].Completed? && vs[0].delivered == delivered then 1 else 0) + NumberCompleted(vs[1..], delivered)
  }

  /** The drop reasons of the not-delivered verdicts of sender n, in order. */
  function DropsOf(vs: seq<Verdict>, n: NodeId): seq<int>
  {
    if |vs| == 0 then []
    else (if Has(vs[0], n, CountsNotDelivered) then vs[0].drops else []) + DropsOf(vs[1..], n)
  }

  /** The drop reasons of all not-delivered verdicts, in order. */
  function AllDrops(vs: seq<Verdict>): seq<int>
  {
    if |vs| == 0 then []
    else (if vs[0].Completed? && !vs[0].delivered then vs[0].drops else []) + AllDrops(vs[1..])
  }

  /** Every counted transmission with a valid sender is sent exactly once,
      and is then delivered, not delivered or truncated. */
  lemma {:induction false} SentSplits(vs: seq<Verdict>, n: NodeId)
    requires forall i :: 0 <= i < |vs| ==> !vs[i].Aborted?
    ensures Number(vs, n, CountsSent)
            == Number(vs, n, CountsDelivered) + Number(vs, n, CountsNotDelivered) + Number(vs, n, CountsTruncated)
  {
    if |vs| > 0 {
      SentSplits(vs[1..], n);
    }
  }

  /** One verdict's effect on one node's counters. */
  lemma CountedNode(t: Tally, v: Verdict, n: NodeId)
    requires !v.Aborted? && (!v.MalformedSender? ==> v.sender in t.nodes) && n in t.nodes
    ensures Counted(t, v).nodes[n].deviceType == t.nodes[n].deviceType
    ensures Counted(t, v).nodes[n].sent == t.nodes[n].sent + (if Has(v, n, CountsSent) then 1 else 0)
    ensures Counted(t, v).nodes[n].delivered == t.nodes[n].delivered + (if Has(v, n, CountsDelivered) then 1 else 0)
    ensures Counted(t, v).nodes[n].notDelivered == t.nodes[n].notDelivered + (if Has(v, n, CountsNotDelivered) then 1 else 0)
    ensures Counted(t, v).nodes[n].dropRxReasons == t.nodes[n].dropRxReasons + (if Has(v, n, CountsNotDelivered) then v.drops else [])
  {
    if v.MalformedSender? || v.sender != n {
      assert Counted(t, v).nodes[n] == t.nodes[n];
    }
  }

  /** A node's counters grow by the number of verdicts of each kind it
      sent, its drop-reason list by their drops in order, and its device
      type never changes. */
  lemma {:induction false} CountedAllNode(t: Tally, vs: seq<Verdict>, n: NodeId)
    requires Countable(t, vs) && n in t.nodes
    ensures CountedAll(t, vs).nodes[n].deviceType == t.nodes[n].deviceType
    ensures CountedAll(t, vs).nodes[n].sent == t.nodes[n].sent + Number(vs, n, CountsSent)
    ensures CountedAll(t, vs).nodes[n].delivered == t.nodes[n].delivered + Number(vs, n, CountsDelivered)
    ensures CountedAll(t, vs).nodes[n].notDelivered == t.nodes[n].notDelivered + Number(vs, n, CountsNotDelivered)
    ensures CountedAll(t, vs).nodes[n].dropRxReasons == t.nodes[n].dropRxReasons + DropsOf(vs, n)
    decreases |vs|
  {
    if |vs| > 0 {
      var t' := Counted(t, vs[0]);
      CountedNode(t, vs[0], n);
      CountedAllNode(t', vs[1..], n);
      assert CountedAll(t, vs) == CountedAll(t', vs[1..]);
    }
  }

  /** The global counters count the completed verdicts, and
      `sim_drop_reasons` is the concatenation of their drops. */
  lemma {:induction false} CountedAllTotals(t: Tally, vs: seq<Verdict>)
    requires Countable(t, vs)
    ensures CountedAll(t, vs).nDelivered == t.nDelivered + NumberCompleted(vs, true)
    ensures CountedAll(t, vs).nUndelivered == t.nUndelivered + NumberCompleted(vs, false)
    ensures CountedAll(t, vs).simDropReasons == t.simDropReasons + AllDrops(vs)
    decreases |vs|
  {
    if |vs| > 0 {
      CountedAllTotals(Counted(t, vs[0]), vs[1..]);
    }
  }

  /** Each reason occurs in `sim_drop_reasons` as many times as its
      data-rate list is long. */
  ghost predicate DropTallyAgrees(t: Tally)
  {
    forall r :: Count(t.simDropReasons, r) == |RatesOf(t.drByReason, r)|
  }

  lemma {:induction false} AddRatesLength(m: map<int, seq<int>>, reasons: seq<int>, dataRate: int, r: int)
    ensures |RatesOf(AddRates(m, reasons, dataRate), r)| == |RatesOf(m, r)| + Count(reasons, r)
  {
    if |reasons| > 0 {
      AddRatesLength(m, reasons[..|reasons| - 1], dataRate, r);
    }
  }

  lemma CountedKeepsDropTally(t: Tally, v: Verdict)
    requires !v.Aborted? && (!v.MalformedSender? ==> v.sender in t.nodes)
    requires DropTallyAgrees(t)
    ensures DropTallyAgrees(Counted(t, v))
  {
    if v.Completed? && !v.delivered {
      forall r
        ensures Count(Counted(t, v).simDropReasons, r) == |RatesOf(Counted(t, v).drByReason, r)|
      {
        CountAppend(t.simDropReasons, v.drops, r);
        AddRatesLength(t.drByReason, v.drops, v.dataRate, r);
      }
    }
  }

  lemma {:induction false} CountedAllKeepsDropTally(t: Tally, vs: seq<Verdict>)
    requires Countable(t, vs) && DropTallyAgrees(t)
    ensures DropTallyAgrees(CountedAll(t, vs))
    decreases |vs|
  {
    if |vs| > 0 {
      CountedKeepsDropTally(t, vs[0]);
      CountedAllKeepsDropTally(Counted(t, vs[0]), vs[1..]);
    }
  }

  // ---------------------------------------------------------------------
  // The pass over a whole grouping

  lemma ClassifyByVerdicts(strict: bool, g: PhyGroups)
    requires Shaped(g)
    ensures Classify(strict, g).Ok? <==> NoneAborted(Verdicts(strict, g))
    ensures Classify(strict, g).Ok? ==>
              Countable(StartTally(g.nodes), Verdicts(strict, g))
              && Classify(strict, g).value.tally == CountedAll(StartTally(g.nodes), Verdicts(strict, g))
  {
    ShapedIsReady(g);
    ClassifyFromByVerdicts(strict, StartState(g), g.keys, g.txs, TypesOf(g.nodes));
  }

  /** The counters the pass leaves: every node's Sent is its Delivered plus
      NotDelivered plus the transmissions of it that were removed as
      truncated; the global counters count the completed transmissions;
      `sim_drop_reasons` agrees with the data-rate tally reason by reason. */
  lemma PhyCountersConserved(strict: bool, g: PhyGroups, n: NodeId)
    requires Shaped(g) && Classify(strict, g).Ok? && n in g.nodes
    ensures var t := Classify(strict, g).value.tally;
            && n in t.nodes
            && t.nodes[n].deviceType == g.nodes[n].deviceType
            && t.nodes[n].sent == t.nodes[n].delivered + t.nodes[n].notDelivered + Number(Verdicts(strict, g), n, CountsTruncated)
            && t.nodes[n].delivered == Number(Verdicts(strict, g), n, CountsDelivered)
            && t.nodes[n].dropRxReasons == DropsOf(Verdicts(strict, g), n)
            && t.nDelivered == NumberCompleted(Verdicts(strict, g), true)
            && t.nUndelivered == NumberCompleted(Verdicts(strict, g), false)
            && t.simDropReasons == AllDrops(Verdicts(strict, g))
            && DropTallyAgrees(t)
  {
    var vs := Verdicts(strict, g);
    ClassifyByVerdicts(strict, g);
    var t0 := StartTally(g.nodes);
    assert g.nodes[n] == FreshNode(g.nodes[n].deviceType);
    CountedAllNode(t0, vs, n);
    SentSplits(vs, n);
    CountedAllTotals(t0, vs);
    CountedAllKeepsDropTally(t0, vs);
  }

  // ---------------------------------------------------------------------
  // What happens to the transmission records

  function Fate(tx: PhyTx, v: Verdict): PhyTx
  {
    if v.Completed? && v.delivered then tx.(delivered := true) else tx
  }

  /** A visited key is removed exactly when it is truncated, and otherwise
      keeps its record, with the Delivered flag set when it was delivered;
      keys not visited are untouched. */
  lemma {:induction false} ClassifyFromRecords(strict: bool, st: PhyState, pending: seq<string>, types0: DeviceTypes, k: string)
    requires Ready(st, pending)
    requires TypesOf(st.tally.nodes) == types0
    requires ClassifyFrom(strict, st, pending).Ok?
    ensures k !in pending ==> (k in ClassifyFrom(strict, st, pending).value.txs <==> k in st.txs)
    ensures k !in pending && k in st.txs ==> ClassifyFrom(strict, st, pending).value.txs[k] == st.txs[k]
    ensures k in pending ==>
              var v := Judge(st.txs[k], types0, strict);
              && (k in ClassifyFrom(strict, st, pending).value.txs <==> !v.Truncated?)
              && (k in ClassifyFrom(strict, st, pending).value.txs ==> ClassifyFrom(strict, st, pending).value.txs[k] == Fate(st.txs[k], v))
    decreases |pending|
  {
    if |pending| > 0 {
      var key := pending[0];
      var rest := pending[1..];
      ClassifyFromUnfold(strict, st, pending);
      var st' := Step(strict, st, key).value;
      var v := Judge(st.txs[key], types0, strict);
      assert st'.tally == Counted(st.tally, v);
      CountedKeepsTypes(st.tally, v);
      assert key !in rest by {
        assert forall i :: 1 <= i < |pending| ==> pending[i] != pending[0];
      }
      assert k != key && k in pending ==> k in rest;
      ClassifyFromRecords(strict, st', rest, types0, k);
    }
  }

  /** After the pass over a grouping, a transmission is still present
      exactly when it was not truncated, and its Delivered flag holds
      exactly when it was completed and delivered. */
  lemma PhyRecordsAfterPass(strict: bool, g: PhyGroups, i: nat)
    requires Shaped(g) && Classify(strict, g).Ok? && i < |g.keys|
    ensures var k := g.keys[i];
            var v := Verdicts(strict, g)[i];
            && (k in Classify(strict, g).value.txs <==> !v.Truncated?)
            && (k in Classify(strict, g).value.txs ==>
                  Classify(strict, g).value.txs[k].delivered == (v.Completed? && v.delivered))
  {
    ShapedIsReady(g);
    ClassifyFromRecords(strict, StartState(g), g.keys, TypesOf(g.nodes), g.keys[i]);
    VerdictAt(strict, g.txs, TypesOf(g.nodes), g.keys, i);
  }
}
