/** Second pass and summary of `parse_nsdsmsgs_trace.py`: every
    reconstructed downstream message is checked against the script's
    sanity asserts and counted (transmissions per receive window, the
    remaining transmissions of acknowledged messages, totals), and the
    summary reports the counters. */
module NsTally {
  import opened Common
  import opened NsGrouping

  /** The counters of the second pass. */
  datatype NsTally = NsTally(rw1: nat, rw2: nat, ackdTxRemaining: seq<int>,
                             nrTx: nat, nrUnique: nat, nrAckd: nat, nrDrop: nat)

  /** The counters before the first message: five histogram buckets. */
  const NsStart := NsTally(0, 0, Zeros(5), 0, 0, 0, 0)

  datatype NsError =
    | NoTransmission(key: string)     // a message without DSMsgTx tuple fails the assert
    | ZeroLastTimestamp(key: string)  // the skipped-message fraction divides by last_timestamp == 0.0
    | BadReceiveWindow(key: string)   // a DSMsgTx tuple whose receive window is neither 1 nor 2
    | AckCount(key: string)           // more than one DSMsgAckd tuple fails the assert
    | TxRemainingIndex(key: string)   // the acknowledged remaining transmissions index past the histogram
    | DropCount(key: string)          // more than one DSMsgDrop tuple fails the assert

  /** A tuple counted in one of the two receive windows. */
  predicate GoodWindow(e: NsEntry)
  {
    e.window == Some(1) || e.window == Some(2)
  }

  /** The number of tuples sent in receive window w. */
  function WindowCount(tx: seq<NsEntry>, w: int): (r: nat)
    ensures r <= |tx|
  {
    if |tx| == 0 then 0 else (if tx[0].window == Some(w) then 1 else 0) + WindowCount(tx[1..], w)
  }

  /** The receive-window loop from counters (rw1, rw2); None when a tuple is
      in neither window, as the `assert False` branch. */
  function WindowsFrom(rw1: nat, rw2: nat, tx: seq<NsEntry>): Option<(nat, nat)>
    decreases |tx|
  {
    if |tx| == 0 then Some((rw1, rw2))
    else if tx[0].window == Some(1) then WindowsFrom(rw1 + 1, rw2, tx[1..])
    else if tx[0].window == Some(2) then WindowsFrom(rw1, rw2 + 1, tx[1..])
    else None
  }

  /** The receive-window loop succeeds exactly when every tuple is in
      window 1 or 2, and then adds the number of tuples of each window. */
  lemma {:induction false} WindowsFromSpec(rw1: nat, rw2: nat, tx: seq<NsEntry>)
    ensures WindowsFrom(rw1, rw2, tx).Some? <==> forall i :: 0 <= i < |tx| ==> GoodWindow(tx[i])
    ensures WindowsFrom(rw1, rw2, tx).Some? ==>
              WindowsFrom(rw1, rw2, tx).value == (rw1 + WindowCount(tx, 1), rw2 + WindowCount(tx, 2))
    ensures WindowsFrom(rw1, rw2, tx).Some? ==> WindowCount(tx, 1) + WindowCount(tx, 2) == |tx|
    decreases |tx|
  {
    if |tx| > 0 {
      var rest := tx[1..];
      assert forall i :: 1 <= i < |tx| ==> tx[i] == rest[i - 1];
      if tx[0].window == Some(1) {
        WindowsFromSpec(rw1 + 1, rw2, rest);
      } else if tx[0].window == Some(2) {
        WindowsFromSpec(rw1, rw2 + 1, rest);
      } else {
        assert !GoodWindow(tx[0]);
      }
    }
  }

  /** A message the script counts rather than skips: it was acknowledged
      or dropped. */
  predicate Reported(m: NsMessage)
  {
    |m.ackd| > 0 || |m.drop| > 0
  }

  /** One iteration of the message loop. A message must have been sent; one
      neither acknowledged nor dropped is skipped after the fraction
      against `last_timestamp`; the others have their receive windows
      counted, at most one acknowledgement, whose remaining transmissions
      pick a histogram bucket (Python indexing), and at most one drop. */
  function NsStep(t: NsTally, key: string, m: NsMessage, last: real): Result<NsTally, NsError>
  {
    if |m.tx| == 0 then Err(NoTransmission(key))
    else if !Reported(m) then
      if last == 0.0 then Err(ZeroLastTimestamp(key)) else Ok(t)
    else
      match WindowsFrom(t.rw1, t.rw2, m.tx)
      case None => Err(BadReceiveWindow(key))
      case Some(rw) =>
        if |m.ackd| > 1 then Err(AckCount(key))
        else
          var hist := if |m.ackd| == 0 then Some(t.ackdTxRemaining)
                      else Bump(t.ackdTxRemaining, m.ackd[0].txRemaining);
          if hist.None? then Err(TxRemainingIndex(key))
          else if |m.drop| > 1 then Err(DropCount(key))
          else Ok(NsTally(rw.0, rw.1, hist.value, t.nrTx + |m.tx|, t.nrUnique + 1,
                          t.nrAckd + |m.ackd|, t.nrDrop + |m.drop|))
  }

  /** What the script accepts of a message, with a five-bucket histogram. */
  predicate NsAccepted(m: NsMessage, last: real)
  {
    && |m.tx| > 0
    && (!Reported(m) ==> last != 0.0)
    && (Reported(m) ==>
          && (forall i :: 0 <= i < |m.tx| ==> GoodWindow(m.tx[i]))
          && |m.ackd| <= 1 && |m.drop| <= 1
          && (|m.ackd| == 1 ==> -5 <= m.ackd[0].txRemaining < 5))
  }

  /** One message step fails exactly when the message breaks one of the
      script's checks. */
  lemma NsStepOk(t: NsTally, key: string, m: NsMessage, last: real)
    requires |t.ackdTxRemaining| == 5
    ensures NsStep(t, key, m, last).Ok? <==> NsAccepted(m, last)
  {
    WindowsFromSpec(t.rw1, t.rw2, m.tx);
  }

  /** A sent message that was neither acknowledged nor dropped leaves the
      counters alone. */
  lemma NsStepSkips(t: NsTally, key: string, m: NsMessage, last: real)
    requires |m.tx| > 0 && !Reported(m) && last != 0.0
    ensures NsStep(t, key, m, last) == Ok(t)
  {
  }

  /** An accepted reported message adds its transmissions per receive
      window, its tuples to the totals, one unique message, and one to the
      bucket of its acknowledged remaining transmissions. */
  lemma NsStepCounts(t: NsTally, key: string, m: NsMessage, last: real)
    requires |t.ackdTxRemaining| == 5 && Reported(m) && NsAccepted(m, last)
    ensures NsStep(t, key, m, last).Ok?
    ensures var u := NsStep(t, key, m, last).value;
            && u.rw1 == t.rw1 + WindowCount(m.tx, 1) && u.rw2 == t.rw2 + WindowCount(m.tx, 2)
            && u.nrTx == t.nrTx + |m.tx| && u.nrUnique == t.nrUnique + 1
            && u.nrAckd == t.nrAckd + |m.ackd| && u.nrDrop == t.nrDrop + |m.drop|
            && u.ackdTxRemaining == (if |m.ackd| == 0 then t.ackdTxRemaining
                                     else Bump(t.ackdTxRemaining, m.ackd[0].txRemaining).value)
  {
    WindowsFromSpec(t.rw1, t.rw2, m.tx);
  }

  /** The keys of the dictionary, each with its message. */
  ghost predicate Listed(messages: map<string, NsMessage>, keys: seq<string>)
  {
    forall i :: 0 <= i < |keys| ==> keys[i] in messages
  }

  /** The message loop over the remaining keys, in dictionary order. */
  function NsClassifyFrom(messages: map<string, NsMessage>, last: real, t: NsTally, keys: seq<string>): Result<NsTally, NsError>
    requires Listed(messages, keys)
    decreases |keys|
  {
    if |keys| == 0 then Ok(t)
    else
      var t' :- NsStep(t, keys[0], messages[keys[0]], last);
      NsClassifyFrom(messages, last, t', keys[1..])
  }

  function NsClassifyAll(g: NsGroups): Result<NsTally, NsError>
    requires NsShaped(g)
  {
    NsClassifyFrom(g.messages, g.lastTimestamp, NsStart, g.keys)
  }

  // ---------------------------------------------------------------------
  // What the second pass promises

  /** The relations between the counters that every step keeps: the two
      receive windows split all transmissions, the histogram counts every
      acknowledgement, and each unique message was sent at least once and
      was acknowledged or dropped, once at most each. */
  ghost predicate NsConsistent(t: NsTally)
  {
    && |t.ackdTxRemaining| == 5
    && Sum(t.ackdTxRemaining) == t.nrAckd
    && t.rw1 + t.rw2 == t.nrTx
    && t.nrAckd <= t.nrUnique && t.nrDrop <= t.nrUnique
    && t.nrUnique <= t.nrAckd + t.nrDrop
    && t.nrUnique <= t.nrTx
  }

  lemma NsStepKeepsConsistent(t: NsTally, key: string, m: NsMessage, last: real)
    requires NsConsistent(t) && NsStep(t, key, m, last).Ok?
    ensures NsConsistent(NsStep(t, key, m, last).value)
  {
    NsStepOk(t, key, m, last);
    if Reported(m) {
      NsStepCounts(t, key, m, last);
      WindowsFromSpec(t.rw1, t.rw2, m.tx);
    }
  }

  lemma {:induction false} NsClassifyFromConsistent(messages: map<string, NsMessage>, last: real, t: NsTally, keys: seq<string>)
    requires Listed(messages, keys) && NsConsistent(t)
    requires NsClassifyFrom(messages, last, t, keys).Ok?
    ensures NsConsistent(NsClassifyFrom(messages, last, t, keys).value)
    decreases |keys|
  {
    if |keys| > 0 {
      NsStepKeepsConsistent(t, keys[0], messages[keys[0]], last);
      NsClassifyFromConsistent(messages, last, NsStep(t, keys[0], messages[keys[0]], last).value, keys[1..]);
    }
  }

  lemma StartConsistent()
    ensures NsConsistent(NsStart)
  {
    SumZeros(5);
  }

  /** The counters after the whole second pass are consistent. */
  lemma NsPassConsistent(g: NsGroups)
    requires NsShaped(g) && NsClassifyAll(g).Ok?
    ensures NsConsistent(NsClassifyAll(g).value)
  {
    StartFromConsistent(g.messages, g.lastTimestamp, g.keys);
  }

  lemma StartFromConsistent(messages: map<string, NsMessage>, last: real, keys: seq<string>)
    requires Listed(messages, keys) && NsClassifyFrom(messages, last, NsStart, keys).Ok?
    ensures NsConsistent(NsClassifyFrom(messages, last, NsStart, keys).value)
  {
    StartConsistent();
    NsClassifyFromConsistent(messages, last, NsStart, keys);
  }

  /** The message loop succeeds exactly when the script accepts every
      message of the dictionary. */
  lemma {:induction false} NsClassifyFromOk(messages: map<string, NsMessage>, last: real, t: NsTally, keys: seq<string>)
    requires Listed(messages, keys) && |t.ackdTxRemaining| == 5
    ensures NsClassifyFrom(messages, last, t, keys).Ok? <==>
              forall i :: 0 <= i < |keys| ==> NsAccepted(messages[keys[i]], last)
    decreases |keys|
  {
    if |keys| > 0 {
      var m := messages[keys[0]];
      NsStepOk(t, keys[0], m, last);
      if NsStep(t, keys[0], m, last).Ok? {
        var rest := keys[1..];
        assert forall i :: 1 <= i < |keys| ==> keys[i] == rest[i - 1];
        var u := NsStep(t, keys[0], m, last).value;
        assert |u.ackdTxRemaining| == 5 by {
          if Reported(m) { NsStepCounts(t, keys[0], m, last); }
        }
        NsClassifyFromOk(messages, last, u, rest);
      }
    }
  }

  /** The number of reported messages among the keys. */
  function ReportedCount(messages: map<string, NsMessage>, keys: seq<string>): nat
    requires Listed(messages, keys)
    decreases |keys|
  {
    if |keys| == 0 then 0
    else (if Reported(messages[keys[0]]) then 1 else 0) + ReportedCount(messages, keys[1..])
  }

  /** The number of tuples from source s of the reported messages among the
      keys. */
  function ReportedTuples(messages: map<string, NsMessage>, keys: seq<string>, s: NsSource): nat
    requires Listed(messages, keys)
    decreases |keys|
  {
    if |keys| == 0 then 0
    else (if Reported(messages[keys[0]]) then |NsColumn(messages[keys[0]], s)| else 0)
         + ReportedTuples(messages, keys[1..], s)
  }

  /** The totals of a successful pass: the unique messages are the reported
      ones, and the total, acknowledged and dropped counts are the tuples
      of the reported messages only; skipped messages count nowhere. */
  lemma {:induction false} NsClassifyFromTotals(messages: map<string, NsMessage>, last: real, t: NsTally, keys: seq<string>)
    requires Listed(messages, keys) && |t.ackdTxRemaining| == 5
    requires NsClassifyFrom(messages, last, t, keys).Ok?
    ensures var u := NsClassifyFrom(messages, last, t, keys).value;
            && u.nrUnique == t.nrUnique + ReportedCount(messages, keys)
            && u.nrTx == t.nrTx + ReportedTuples(messages, keys, MsgTx)
            && u.nrAckd == t.nrAckd + ReportedTuples(messages, keys, MsgAckd)
            && u.nrDrop == t.nrDrop + ReportedTuples(messages, keys, MsgDrop)
    decreases |keys|
  {
    if |keys| > 0 {
      var m := messages[keys[0]];
      NsStepOk(t, keys[0], m, last);
      var u := NsStep(t, keys[0], m, last).value;
      if Reported(m) {
        NsStepCounts(t, keys[0], m, last);
      }
      NsClassifyFromTotals(messages, last, u, keys[1..]);
    }
  }

  // ---------------------------------------------------------------------
  // The pass as the script runs it

  /** One iteration of the message loop, with the receive-window loop. */
  method NsClassifyOne(t: NsTally, key: string, m: NsMessage, last: real) returns (r: Result<NsTally, NsError>)
    ensures r == NsStep(t, key, m, last)
  {
    if |m.tx| == 0 {
      return Err(NoTransmission(key));
    }
    if |m.ackd| == 0 && |m.drop| == 0 {
      if last == 0.0 {
        return Err(ZeroLastTimestamp(key));
      }
      return Ok(t);
    }
    var rw1, rw2 := t.rw1, t.rw2;
    var i := 0;
    while i < |m.tx|
      invariant 0 <= i <= |m.tx|
      invariant WindowsFrom(rw1, rw2, m.tx[i..]) == WindowsFrom(t.rw1, t.rw2, m.tx)
    {
      assert m.tx[i..][1..] == m.tx[i + 1..];
      var w := m.tx[i].window;
      if w == Some(1) {
        rw1 := rw1 + 1;
      } else if w == Some(2) {
        rw2 := rw2 + 1;
      } else {
        return Err(BadReceiveWindow(key));
      }
      i := i + 1;
    }
    var hist := t.ackdTxRemaining;
    if |m.ackd| > 0 {
      if |m.ackd| != 1 {
        return Err(AckCount(key));
      }
      var j := m.ackd[0].txRemaining;
      if j < -|hist| || j >= |hist| {
        return Err(TxRemainingIndex(key));
      }
      var b := if j < 0 then j + |hist| else j;
      hist := hist[b := hist[b] + 1];
    }
    if |m.drop| > 1 {
      return Err(DropCount(key));
    }
    r := Ok(NsTally(rw1, rw2, hist, t.nrTx + |m.tx|, t.nrUnique + 1, t.nrAckd + |m.ackd|, t.nrDrop + |m.drop|));
  }

  /** The message loop as the script runs it, in dictionary order. */
  method NsClassifyMessages(g: NsGroups) returns (r: Result<NsTally, NsError>)
    requires NsShaped(g)
    ensures r == NsClassifyAll(g)
  {
    var t := NsStart;
    var i := 0;
    while i < |g.keys|
      invariant 0 <= i <= |g.keys|
      invariant NsClassifyFrom(g.messages, g.lastTimestamp, t, g.keys[i..]) == NsClassifyAll(g)
    {
      assert g.keys[i..][1..] == g.keys[i + 1..];
      var k := g.keys[i];
      var step := NsClassifyOne(t, k, g.messages[k], g.lastTimestamp);
      if step.Err? {
        return Err(step.error);
      }
      t := step.value;
      i := i + 1;
    }
    r := Ok(t);
  }

  // ---------------------------------------------------------------------
  // The summary

  /** What the summary prints, apart from the float ratios: total and
      unique sent messages, the sends per receive window, acknowledged and
      dropped messages, and the remaining-transmissions histogram. */
  datatype NsSummary = NsSummary(nrTx: nat, nrUnique: nat, rw1: nat, rw2: nat,
                                 nrAckd: nat, nrDrop: nat, ackdTxRemaining: seq<int>)

  datatype NsReportError =
    | NoUniqueMessages   // the PDR and per-unique averages divide by zero unique messages
    | NoAckdMessages     // the per-acknowledgement average divides by zero acknowledged messages

  /** The summary of the counters; its ratios divide by the unique count,
      then by the acknowledged count. */
  function NsReportOf(t: NsTally): (r: Result<NsSummary, NsReportError>)
    ensures r.Err? <==> t.nrUnique == 0 || t.nrAckd == 0
    ensures r.Err? ==> r.error == (if t.nrUnique == 0 then NoUniqueMessages else NoAckdMessages)
    ensures r.Ok? ==> r.value.nrTx == t.nrTx && r.value.nrUnique == t.nrUnique && r.value.rw1 == t.rw1
                      && r.value.rw2 == t.rw2 && r.value.nrAckd == t.nrAckd && r.value.nrDrop == t.nrDrop
                      && r.value.ackdTxRemaining == t.ackdTxRemaining
  {
    if t.nrUnique == 0 then Err(NoUniqueMessages)
    else if t.nrAckd == 0 then Err(NoAckdMessages)
    else Ok(NsSummary(t.nrTx, t.nrUnique, t.rw1, t.rw2, t.nrAckd, t.nrDrop, t.ackdTxRemaining))
  }

  datatype NsRunError =
    | NsGroupingFailed(groupCause: NsGroupError)
    | NsClassificationFailed(classifyCause: NsError)
    | NsReportFailed(reportCause: NsReportError)

  /** One trace file through the script: first pass, second pass, summary. */
  function RunNs(rows: seq<NsRow>): Result<NsSummary, NsRunError>
  {
    match NsGroupRows(rows)
    case Err(e) => Err(NsGroupingFailed(e))
    case Ok(g) =>
      NsGroupRowsShaped(rows);
      match NsClassifyAll(g)
      case Err(e) => Err(NsClassificationFailed(e))
      case Ok(t) =>
        match NsReportOf(t)
        case Err(e) => Err(NsReportFailed(e))
        case Ok(s) => Ok(s)
  }

  /** A printed summary has sane figures: both ratios of the PDR line lie
      between 0 and 1, every unique message was sent at least once, the
      receive windows split all sends and the histogram counts every
      acknowledgement. */
  lemma NsRunSummary(rows: seq<NsRow>)
    requires RunNs(rows).Ok?
    ensures var s := RunNs(rows).value;
            && 0 < s.nrAckd <= s.nrUnique && s.nrDrop <= s.nrUnique
            && s.nrUnique <= s.nrTx && s.rw1 + s.rw2 == s.nrTx
            && s.nrUnique <= s.nrAckd + s.nrDrop
            && |s.ackdTxRemaining| == 5 && Sum(s.ackdTxRemaining) == s.nrAckd
  {
    NsGroupRowsShaped(rows);
    var g := NsGroupRows(rows).value;
    NsPassConsistent(g);
    assert RunNs(rows) == Ok(NsReportOf(NsClassifyAll(g).value).value);
  }

  /** One trace file as the script processes it. */
  method RunNsParser(rows: seq<NsRow>) returns (r: Result<NsSummary, NsRunError>)
    ensures r == RunNs(rows)
  {
    var grouped := GroupNsTrace(rows);
    if grouped.Err? {
      return Err(NsGroupingFailed(grouped.error));
    }
    NsGroupRowsShaped(rows);
    var tally := NsClassifyMessages(grouped.value);
    if tally.Err? {
      return Err(NsClassificationFailed(tally.error));
    }
    var report := NsReportOf(tally.value);
    if report.Err? {
      return Err(NsReportFailed(report.error));
    }
    r := Ok(report.value);
  }
}
