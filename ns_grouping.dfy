/** First pass of `parse_nsdsmsgs_trace.py`: drop the rows with an empty
    payload (acknowledgements, which must be unconfirmed data down
    messages), and fold the others into one record per downstream message,
    keyed by the message's hex dump, holding one list of
    (timestamp, node, remaining transmissions) tuples per trace source; the
    tuples of DSMsgTx rows also carry the receive window. */
module NsGrouping {
  import opened Common

  /** The three trace sources whose rows have a list. */
  datatype NsSource = MsgTx | MsgAckd | MsgDrop

  function NsSourceName(s: NsSource): string
  {
    match s
    case MsgTx => "DSMsgTx"
    case MsgAckd => "DSMsgAckd"
    case MsgDrop => "DSMsgDrop"
  }

  /** The trace source column of a row; any other name raises KeyError when
      the row is appended. */
  datatype NsSourceField = NsListed(source: NsSource) | NsUnlisted(name: string)

  function NsSourceNamed(name: string): (r: NsSourceField)
    ensures r.NsListed? ==> NsSourceName(r.source) == name
    ensures r.NsUnlisted? <==> forall s: NsSource :: NsSourceName(s) != name
    ensures r.NsUnlisted? ==> r.name == name
  {
    if name == "DSMsgTx" then NsListed(MsgTx)
    else if name == "DSMsgAckd" then NsListed(MsgAckd)
    else if name == "DSMsgDrop" then NsListed(MsgDrop)
    else NsUnlisted(name)
  }

  /** The message type of unconfirmed data down. */
  const UnconfirmedDataDown := 3

  /** One row of the trace, already split into fields: timestamp (column
      0), trace source (1), node id (2), message type (3), remaining
      transmissions (4), packet hex (5), payload length (6) and receive
      window (7), which only DSMsgTx rows fill. */
  datatype NsRow = NsRow(timestamp: real, source: NsSourceField, node: NodeId, msgType: int,
                         txRemaining: int, packetKey: string, length: int, window: int)

  /** A tuple of a message list: `(timestamp, node, tx_remaining)`, with
      the receive window appended for DSMsgTx rows. */
  datatype NsEntry = NsEntry(timestamp: real, node: NodeId, txRemaining: int, window: Option<int>)

  /** A reconstructed downstream message. */
  datatype NsMessage = NsMessage(tx: seq<NsEntry>, ackd: seq<NsEntry>, drop: seq<NsEntry>)

  const NoEntries := NsMessage([], [], [])

  function NsColumn(m: NsMessage, s: NsSource): seq<NsEntry>
  {
    match s
    case MsgTx => m.tx
    case MsgAckd => m.ackd
    case MsgDrop => m.drop
  }

  /** The tuple a row appends. */
  function EntryOf(row: NsRow): NsEntry
  {
    NsEntry(row.timestamp, row.node, row.txRemaining,
            if row.source == NsListed(MsgTx) then Some(row.window) else None)
  }

  function NsRecord(m: NsMessage, row: NsRow): (r: NsMessage)
    requires row.source.NsListed?
    ensures forall s: NsSource :: NsColumn(r, s) == NsColumn(m, s) + (if row.source == NsListed(s) then [EntryOf(row)] else [])
  {
    match row.source.source
    case MsgTx => m.(tx := m.tx + [EntryOf(row)])
    case MsgAckd => m.(ackd := m.ackd + [EntryOf(row)])
    case MsgDrop => m.(drop := m.drop + [EntryOf(row)])
  }

  /** The dictionary the first pass fills, its insertion order, and
      `last_timestamp`. */
  datatype NsGroups = NsGroups(messages: map<string, NsMessage>, keys: seq<string>, lastTimestamp: real)

  const NoNsGroups := NsGroups(map[], [], -1.0)

  datatype NsGroupError =
    | AckNotUnconfirmed(msgType: int)   // an empty payload whose message type is not 3 fails the assert
    | UnknownNsSource(name: string)     // a source with no list raises KeyError

  /** One iteration of the row loop. An empty payload is skipped after
      checking its type; otherwise a new key gets three empty lists and sets
      `last_timestamp`, then the row's tuple goes to its source's list. */
  function NsAddRow(g: NsGroups, row: NsRow): (r: Result<NsGroups, NsGroupError>)
    ensures row.length == 0 ==> (r.Ok? <==> row.msgType == UnconfirmedDataDown) && (r.Ok? ==> r.value == g)
    ensures row.length != 0 ==> (r.Err? <==> row.source.NsUnlisted?)
  {
    if row.length == 0 then
      if row.msgType == UnconfirmedDataDown then Ok(g) else Err(AckNotUnconfirmed(row.msgType))
    else if row.source.NsUnlisted? then Err(UnknownNsSource(row.source.name))
    else
      var k := row.packetKey;
      var isNew := k !in g.messages;
      var m := if isNew then NoEntries else g.messages[k];
      Ok(NsGroups(g.messages[k := NsRecord(m, row)],
                  if isNew then g.keys + [k] else g.keys,
                  if isNew then row.timestamp else g.lastTimestamp))
  }

  function NsGroupFrom(g: NsGroups, rows: seq<NsRow>): Result<NsGroups, NsGroupError>
    decreases |rows|
  {
    if |rows| == 0 then Ok(g)
    else
      match NsAddRow(g, rows[0])
      case Err(e) => Err(e)
      case Ok(g') => NsGroupFrom(g', rows[1..])
  }

  function NsGroupRows(rows: seq<NsRow>): Result<NsGroups, NsGroupError>
  {
    NsGroupFrom(NoNsGroups, rows)
  }

  /** The first pass as the script runs it. */
  method GroupNsTrace(rows: seq<NsRow>) returns (r: Result<NsGroups, NsGroupError>)
    ensures r == NsGroupRows(rows)
  {
    var messages: map<string, NsMessage> := map[];
    var keys: seq<string> := [];
    var lastTimestamp: real := -1.0;
    var i := 0;
    while i < |rows|
      invariant 0 <= i <= |rows|
      invariant NsGroupFrom(NsGroups(messages, keys, lastTimestamp), rows[i..]) == NsGroupRows(rows)
    {
      var row := rows[i];
      ghost var before := NsGroups(messages, keys, lastTimestamp);
      assert rows[i..][1..] == rows[i + 1..];
      if row.length == 0 {
        if row.msgType != UnconfirmedDataDown {
          return Err(AckNotUnconfirmed(row.msgType));
        }
      } else {
        var k := row.packetKey;
        if k !in messages {
          messages := messages[k := NoEntries];
          keys := keys + [k];
          lastTimestamp := row.timestamp;
        }
        var m := messages[k];
        match row.source
        case NsUnlisted(name) =>
          return Err(UnknownNsSource(name));
        case NsListed(s) =>
          var e := EntryOf(row);
          if s == MsgTx {
            m := m.(tx := m.tx + [e]);
          } else if s == MsgAckd {
            m := m.(ackd := m.ackd + [e]);
          } else {
            m := m.(drop := m.drop + [e]);
          }
          messages := messages[k := m];
        assert NsGroups(messages, keys, lastTimestamp) == NsAddRow(before, row).value;
      }
      i := i + 1;
    }
    r := Ok(NsGroups(messages, keys, lastTimestamp));
  }

  // ---------------------------------------------------------------------
  // What the first pass builds

  /** The invariant of the row loop: the order lists each key once and
      exactly the keys present. */
  ghost predicate NsShaped(g: NsGroups)
  {
    Distinct(g.keys) && forall k :: k in g.messages <==> k in g.keys
  }

  lemma NsAddRowKeepsShape(g: NsGroups, row: NsRow)
    requires NsShaped(g) && NsAddRow(g, row).Ok?
    ensures NsShaped(NsAddRow(g, row).value)
  {
  }

  lemma {:induction false} NsGroupFromKeepsShape(g: NsGroups, rows: seq<NsRow>)
    requires NsShaped(g) && NsGroupFrom(g, rows).Ok?
    ensures NsShaped(NsGroupFrom(g, rows).value)
    decreases |rows|
  {
    if |rows| > 0 {
      NsAddRowKeepsShape(g, rows[0]);
      NsGroupFromKeepsShape(NsAddRow(g, rows[0]).value, rows[1..]);
    }
  }

  lemma NsGroupRowsShaped(rows: seq<NsRow>)
    requires NsGroupRows(rows).Ok?
    ensures NsShaped(NsGroupRows(rows).value)
  {
    NsGroupFromKeepsShape(NoNsGroups, rows);
  }

  /** The first pass fails exactly when an empty payload has a message type
      other than 3, or a non-empty one names a source with no list. */
  lemma {:induction false} NsGroupFromFails(g: NsGroups, rows: seq<NsRow>)
    ensures NsGroupFrom(g, rows).Ok? <==>
              forall i :: 0 <= i < |rows| ==>
                (if rows[i].length == 0 then rows[i].msgType == UnconfirmedDataDown else rows[i].source.NsListed?)
    decreases |rows|
  {
    if |rows| > 0 && NsAddRow(g, rows[0]).Ok? {
      var rest := rows[1..];
      NsGroupFromFails(NsAddRow(g, rows[0]).value, rest);
      assert forall i :: 1 <= i < |rows| ==> rows[i] == rest[i - 1];
    }
  }

  /** The tuples of the non-empty rows that carry key k and list source s,
      in row order. */
  function NsSelected(rows: seq<NsRow>, k: string, s: NsSource): seq<NsEntry>
  {
    if |rows| == 0 then []
    else (if rows[0].length != 0 && rows[0].packetKey == k && rows[0].source == NsListed(s) then [EntryOf(rows[0])] else [])
         + NsSelected(rows[1..], k, s)
  }

  /** The list of source s that key k has so far; none for a key not seen
      yet. */
  function NsColumnOf(g: NsGroups, k: string, s: NsSource): seq<NsEntry>
  {
    if k in g.messages then NsColumn(g.messages[k], s) else []
  }

  lemma NsAddRowColumn(g: NsGroups, row: NsRow, k: string, s: NsSource)
    requires NsAddRow(g, row).Ok?
    ensures NsColumnOf(NsAddRow(g, row).value, k, s) == NsColumnOf(g, k, s) + NsSelected([row], k, s)
  {
    assert [row][1..] == [];
    if row.length != 0 && row.packetKey == k {
      var m := if k in g.messages then g.messages[k] else NoEntries;
      assert NsAddRow(g, row).value.messages[k] == NsRecord(m, row);
    }
  }

  lemma NsSelectedSplit(rows: seq<NsRow>, k: string, s: NsSource)
    requires |rows| > 0
    ensures NsSelected(rows, k, s) == NsSelected([rows[0]], k, s) + NsSelected(rows[1..], k, s)
  {
    assert [rows[0]][1..] == [];
  }

  /** Every list of key k's final record holds, after what it held before,
      exactly the tuples of the non-empty rows of that key and source, in
      row order; empty payloads never reach a list. */
  lemma {:induction false} NsGroupFromColumns(g: NsGroups, rows: seq<NsRow>, k: string, s: NsSource)
    requires NsGroupFrom(g, rows).Ok?
    ensures NsColumnOf(NsGroupFrom(g, rows).value, k, s) == NsColumnOf(g, k, s) + NsSelected(rows, k, s)
    decreases |rows|
  {
    if |rows| > 0 {
      NsAddRowColumn(g, rows[0], k, s);
      NsGroupFromColumns(NsAddRow(g, rows[0]).value, rows[1..], k, s);
      NsSelectedSplit(rows, k, s);
    }
  }

  /** `last_timestamp` as a reference scan: the timestamp of the last
      non-empty row whose key was not seen before it. */
  function LastNewKeyStamp(seen: set<string>, rows: seq<NsRow>, last: real): real
    decreases |rows|
  {
    if |rows| == 0 then last
    else if rows[0].length != 0 && rows[0].packetKey !in seen then
      LastNewKeyStamp(seen + {rows[0].packetKey}, rows[1..], rows[0].timestamp)
    else LastNewKeyStamp(seen, rows[1..], last)
  }

  /** The keys of the non-empty rows. */
  function KeysOf(rows: seq<NsRow>): set<string>
  {
    if |rows| == 0 then {}
    else (if rows[0].length != 0 then {rows[0].packetKey} else {}) + KeysOf(rows[1..])
  }

  /** The first pass ends with a record for exactly the keys seen before and
      those of the non-empty rows. */
  lemma {:induction false} NsGroupFromKeys(g: NsGroups, rows: seq<NsRow>)
    requires NsGroupFrom(g, rows).Ok?
    ensures NsGroupFrom(g, rows).value.messages.Keys == g.messages.Keys + KeysOf(rows)
    decreases |rows|
  {
    if |rows| > 0 {
      NsGroupFromKeys(NsAddRow(g, rows[0]).value, rows[1..]);
    }
  }

  /** The first pass ends with `last_timestamp` set by the last row that
      introduced a key. */
  lemma {:induction false} NsGroupFromLastTimestamp(g: NsGroups, rows: seq<NsRow>)
    requires NsGroupFrom(g, rows).Ok?
    ensures NsGroupFrom(g, rows).value.lastTimestamp == LastNewKeyStamp(g.messages.Keys, rows, g.lastTimestamp)
    decreases |rows|
  {
    if |rows| > 0 {
      var g' := NsAddRow(g, rows[0]).value;
      NsGroupFromLastTimestamp(g', rows[1..]);
      if rows[0].length != 0 {
        assert g'.messages.Keys == g.messages.Keys + {rows[0].packetKey};
        assert rows[0].packetKey !in g.messages.Keys ==> g'.lastTimestamp == rows[0].timestamp;
        if rows[0].packetKey in g.messages.Keys {
          assert g'.messages.Keys == g.messages.Keys;
        }
      }
    }
  }
}
