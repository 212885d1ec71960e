/** The decision procedure applied to one reconstructed PHY transmission:
    sender validation, the completion check, the receiver search and the
    drop-reason tally. `strict` selects the acceptance rule of
    `parse_phytx_trace.py` (a receiver must also be absent from PhyRxDrop);
    without it the rule is that of `parse-packet-trace.py`. */
module PhyJudge {
  import opened Common
  import opened PhyGrouping

  /** Device type of every registered node (0 gateway, 1 end device). */
  type DeviceTypes = map<NodeId, int>

  /** Device type of every registered node; MacClassify.MacTypesOf mirrors
      it over the MAC node record. */
  function TypesOf(nodes: map<NodeId, PhyNode>): (types: DeviceTypes)
    ensures types.Keys == nodes.Keys
    ensures forall n :: n in nodes ==> types[n] == nodes[n].deviceType
  {
    map n | n in nodes :: nodes[n].deviceType
  }

  /** A gateway's transmission is meant for an end device; anything else is
      meant for a gateway. */
  function ExpectedReceiverType(senderType: int): (t: int)
    ensures t == 1 <==> senderType == 0
    ensures t == 0 || t == 1
  {
    if senderType == 0 then 1 else 0
  }

  /** PhyRxBegin entry rx ends the receiver scan with a delivery: it has the
      expected type, it reached PhyRxEnd, and (strict rule only) it did not
      drop the frame afterwards. `rx in types` always holds for a registered
      transmission; it stands where the script's lookup would raise. */
  predicate Accepts(tx: PhyTx, types: DeviceTypes, expected: int, strict: bool, rx: NodeId)
  {
    rx in types && types[rx] == expected && rx in tx.rxEnd && (!strict || rx !in tx.rxDrop)
  }

  predicate DeliveredBy(tx: PhyTx, types: DeviceTypes, expected: int, strict: bool)
  {
    exists i :: 0 <= i < |tx.rxBegin| && Accepts(tx, types, expected, strict, tx.rxBegin[i])
  }

  /** The scan over PhyRxBegin, stopping at the first accepted receiver. */
  method ScanReceivers(tx: PhyTx, types: DeviceTypes, expected: int, strict: bool) returns (delivered: bool, at: nat)
    ensures delivered <==> DeliveredBy(tx, types, expected, strict)
    ensures delivered ==> at < |tx.rxBegin| && Accepts(tx, types, expected, strict, tx.rxBegin[at])
                          && forall j :: 0 <= j < at ==> !Accepts(tx, types, expected, strict, tx.rxBegin[j])
  {
    delivered, at := false, 0;
    var i := 0;
    while i < |tx.rxBegin|
      invariant 0 <= i <= |tx.rxBegin|
      invariant forall j :: 0 <= j < i ==> !Accepts(tx, types, expected, strict, tx.rxBegin[j])
    {
      var rx := tx.rxBegin[i];
      if rx in types && types[rx] == expected && rx in tx.rxEnd && (!strict || rx !in tx.rxDrop) {
        delivered, at := true, i;
        return;
      }
      i := i + 1;
    }
  }

  /** The reasons of the PhyRxDropMisc entries whose node has the expected
      type, in list order. */
  function DropReasons(drops: seq<RxDropAux>, types: DeviceTypes, expected: int): (r: seq<int>)
    ensures |r| <= |drops|
  {
    if |drops| == 0 then []
    else (if drops[0].node in types && types[drops[0].node] == expected then [drops[0].reason] else [])
         + DropReasons(drops[1..], types, expected)
  }

  /** A reason is tallied for every drop entry of an expected-type node, and
      for no other entry. */
  lemma {:induction false} DropReasonsFromExpectedNodes(drops: seq<RxDropAux>, types: DeviceTypes, expected: int, r: int)
    ensures r in DropReasons(drops, types, expected) <==>
              exists i :: 0 <= i < |drops| && drops[i].reason == r && drops[i].node in types && types[drops[i].node] == expected
  {
    if |drops| > 0 {
      DropReasonsFromExpectedNodes(drops[1..], types, expected, r);
      if r in DropReasons(drops[1..], types, expected) {
        var i :| 0 <= i < |drops[1..]| && drops[1..][i].reason == r && drops[1..][i].node in types && types[drops[1..][i].node] == expected;
        assert drops[i + 1] == drops[1..][i];
      }
      if exists i :: 0 <= i < |drops| && drops[i].reason == r && drops[i].node in types && types[drops[i].node] == expected {
        var i :| 0 <= i < |drops| && drops[i].reason == r && drops[i].node in types && types[drops[i].node] == expected;
        if i > 0 {
          assert drops[1..][i - 1] == drops[i];
        }
      }
    }
  }

  /** The loop over PhyRxDropMisc that collects the drop reasons. */
  method TallyDrops(drops: seq<RxDropAux>, types: DeviceTypes, expected: int) returns (reasons: seq<int>)
    ensures reasons == DropReasons(drops, types, expected)
  {
    reasons := [];
    var i := 0;
    while i < |drops|
      invariant 0 <= i <= |drops|
      invariant reasons + DropReasons(drops[i..], types, expected) == DropReasons(drops, types, expected)
    {
      var d := drops[i];
      assert drops[i..][1..] == drops[i + 1..];
      if d.node in types && types[d.node] == expected {
        reasons := reasons + [d.reason];
      }
      i := i + 1;
    }
    assert drops[i..] == [];
  }

  /** What the classification loop decides for one transmission. */
  datatype Verdict =
    | MalformedSender                    // PhyTxBegin does not hold exactly one entry: skipped
    | Truncated(sender: NodeId)          // sender neither ended nor dropped the transmission: removed
    | Aborted(sender: NodeId)            // sender dropped its own transmission: fatal
    | Completed(sender: NodeId, delivered: bool, drops: seq<int>, dataRate: int)

  function Judge(tx: PhyTx, types: DeviceTypes, strict: bool): (v: Verdict)
    requires TxShaped(tx) && Registered(tx, types.Keys)
    ensures !v.MalformedSender? ==> v.sender in types
  {
    if |tx.txBegin| != 1 then MalformedSender
    else
      var sender := tx.txBegin[0];
      assert sender in Column(tx, TxBegin);
      if tx.txEnd == [sender] then
        var expected := ExpectedReceiverType(types[sender]);
        var delivered := DeliveredBy(tx, types, expected, strict);
        Completed(sender, delivered,
                  if delivered then [] else DropReasons(tx.rxDropMisc, types, expected),
                  tx.txBeginMisc[0].dataRate)
      else if sender in tx.txDrop then Aborted(sender)
      else Truncated(sender)
  }

  /** The judgement of a transmission: a PhyTxBegin list of any length but
      one is skipped; otherwise its one entry is the sender; the
      transmission is completed exactly when PhyTxEnd is `[sender]`, and then
      delivered exactly when some PhyRxBegin entry is accepted, with no drop
      reasons if delivered and the reasons of the expected-type dropping
      nodes otherwise, at the data rate of the PhyTxBeginMisc entry; if not
      completed it is aborted exactly when the sender is in PhyTxDrop. */
  lemma JudgeSpec(tx: PhyTx, types: DeviceTypes, strict: bool)
    requires TxShaped(tx) && Registered(tx, types.Keys)
    ensures var v := Judge(tx, types, strict);
            && (v.MalformedSender? <==> |tx.txBegin| != 1)
            && (!v.MalformedSender? ==> v.sender == tx.txBegin[0])
            && (v.Completed? <==> |tx.txBegin| == 1 && tx.txEnd == [tx.txBegin[0]])
            && (v.Aborted? <==> |tx.txBegin| == 1 && tx.txEnd != [tx.txBegin[0]] && tx.txBegin[0] in tx.txDrop)
            && (v.Completed? ==> v.dataRate == tx.txBeginMisc[0].dataRate)
            && (v.Completed? ==> (v.delivered <==> DeliveredBy(tx, types, ExpectedReceiverType(types[v.sender]), strict)))
            && (v.Completed? && v.delivered ==> v.drops == [])
            && (v.Completed? && !v.delivered ==> v.drops == DropReasons(tx.rxDropMisc, types, ExpectedReceiverType(types[v.sender])))
  {
  }

  /** The strict rule only ever rejects receivers the lax rule accepts. */
  lemma StrictDeliveryIsLaxDelivery(tx: PhyTx, types: DeviceTypes, expected: int)
    requires DeliveredBy(tx, types, expected, true)
    ensures DeliveredBy(tx, types, expected, false)
  {
    var i :| 0 <= i < |tx.rxBegin| && Accepts(tx, types, expected, true, tx.rxBegin[i]);
    assert Accepts(tx, types, expected, false, tx.rxBegin[i]);
  }

  /** The two rules disagree exactly when every lax-accepted receiver also
      appears in PhyRxDrop, and at least one lax-accepted receiver exists. */
  lemma DeliveryRulesDifferOnlyByDropCheck(tx: PhyTx, types: DeviceTypes, expected: int)
    ensures DeliveredBy(tx, types, expected, false) && !DeliveredBy(tx, types, expected, true) <==>
              (exists i :: 0 <= i < |tx.rxBegin| && Accepts(tx, types, expected, false, tx.rxBegin[i]))
              && (forall i :: 0 <= i < |tx.rxBegin| && Accepts(tx, types, expected, false, tx.rxBegin[i]) ==> tx.rxBegin[i] in tx.rxDrop)
  {
    if !DeliveredBy(tx, types, expected, true) {
      forall i | 0 <= i < |tx.rxBegin| && Accepts(tx, types, expected, false, tx.rxBegin[i])
        ensures tx.rxBegin[i] in tx.rxDrop
      {
        assert !Accepts(tx, types, expected, true, tx.rxBegin[i]);
      }
    }
  }

  /** With the drop check disabled, a completed transmission's judgement is
      a delivery whenever the strict judgement is, and the two differ only on
      transmissions where an accepted receiver also dropped the frame. */
  lemma StrictAndLaxJudgements(tx: PhyTx, types: DeviceTypes)
    requires TxShaped(tx) && Registered(tx, types.Keys)
    ensures Judge(tx, types, true).Completed? <==> Judge(tx, types, false).Completed?
    ensures Judge(tx, types, true).Completed? && Judge(tx, types, true).delivered ==> Judge(tx, types, false).delivered
    ensures Judge(tx, types, true) != Judge(tx, types, false) ==>
              Judge(tx, types, true).Completed? && !Judge(tx, types, true).delivered && Judge(tx, types, false).delivered
              && exists i :: 0 <= i < |tx.rxBegin| && tx.rxBegin[i] in tx.rxEnd && tx.rxBegin[i] in tx.rxDrop
  {
    var s := Judge(tx, types, true);
    var l := Judge(tx, types, false);
    JudgeSpec(tx, types, true);
    JudgeSpec(tx, types, false);
    if s.Completed? {
      var expected := ExpectedReceiverType(types[s.sender]);
      if s.delivered {
        StrictDeliveryIsLaxDelivery(tx, types, expected);
      }
      if s != l {
        assert !s.delivered && l.delivered;
        DeliveryRulesDifferOnlyByDropCheck(tx, types, expected);
        var i :| 0 <= i < |tx.rxBegin| && Accepts(tx, types, expected, false, tx.rxBegin[i]);
        assert tx.rxBegin[i] in tx.rxDrop;
      }
    }
  }
}
