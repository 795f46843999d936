/**
 soroban.go and transactions.go: the contract-event rows of a ledger, extracted from parsed
 transactions or from raw transaction views, and the transaction numbering they share.
 */
module ContractEvents {
  import opened Wrappers
  import Text
  import Calls

  const UINT32: int := 0x1_0000_0000

  function WrapInt32(n: int): int {
    (n + 0x8000_0000) % UINT32 - 0x8000_0000
  }

  /** toid.New(ledger, tx, op).ToInt64(), laid out as SEP-0035 says: 32, 20 and 12 bits. */
  function ToId(ledger: int, tx: int, op: int): int {
    ledger * 0x1_0000_0000 + tx * 0x1000 + op
  }

  /** Within the field widths the id determines its parts. */
  lemma ToIdInjective(l: int, t: int, o: int, l': int, t': int, o': int)
    requires 0 <= t < 0x10_0000 && 0 <= t' < 0x10_0000 && 0 <= o < 0x1000 && 0 <= o' < 0x1000
    requires ToId(l, t, o) == ToId(l', t', o')
    ensures l == l' && t == t' && o == o'
  {
    assert (l - l') * 0x1_0000_0000 == (t' - t) * 0x1000 + (o' - o);
    assert l == l';
  }

  /** A contract event; `payload` stands for its topics and data. */
  datatype ContractEvent = ContractEvent(kind: string, contractId: Option<string>, payload: int)

  datatype DiagnosticEvent = DiagnosticEvent(event: ContractEvent, inSuccessfulCall: bool)

  datatype TransactionEvent = TransactionEvent(event: ContractEvent, stage: int)

  datatype TxEvents = TxEvents(
    diagnostic: seq<DiagnosticEvent>,
    operations: seq<seq<ContractEvent>>,
    transaction: seq<TransactionEvent>)

  /** `events` is what GetTransactionEvents answers. */
  datatype Transaction = Transaction(hash: string, successful: bool, events: Result<TxEvents, string>)

  datatype Input = Input(sequence: int, ledgerRange: int, eraID: Option<string>)

  datatype Stream = DiagnosticStream | OperationStream | TransactionStream

  /** A row, without its CreatedAt stamp and ledger close time. */
  datatype EventRow = EventRow(
    eventId: string,
    event: ContractEvent,
    ledgerSequence: int,
    transactionHash: string,
    eventType: string,
    inSuccessfulCall: bool,
    successful: bool,
    operationIndex: int,
    stream: Stream,
    eventIndex: int,
    transactionId: int,
    ledgerRange: int,
    eraID: Option<string>)

  // What the rows should be: the transaction's events in order, numbered by position.

  datatype Item = Item(stream: Stream, opIndex: int, event: ContractEvent, inSuccessfulCall: bool)

  function DiagnosticItem(e: DiagnosticEvent): Item {
    Item(DiagnosticStream, 0, e.event, e.inSuccessfulCall)
  }

  function TransactionItem(e: TransactionEvent): Item {
    Item(TransactionStream, 0, e.event, true)
  }

  function OperationItem(op: int, e: ContractEvent): Item {
    Item(OperationStream, op % UINT32, e, false)
  }

  function DiagnosticItems(events: seq<DiagnosticEvent>): seq<Item> {
    seq(|events|, i requires 0 <= i < |events| => DiagnosticItem(events[i]))
  }

  function TransactionItems(events: seq<TransactionEvent>): seq<Item> {
    seq(|events|, i requires 0 <= i < |events| => TransactionItem(events[i]))
  }

  function GroupItems(op: int, events: seq<ContractEvent>): seq<Item> {
    seq(|events|, i requires 0 <= i < |events| => OperationItem(op, events[i]))
  }

  function OperationItems(groups: seq<seq<ContractEvent>>): seq<Item> {
    if groups == [] then [] else
      OperationItems(groups[..|groups| - 1]) + GroupItems(|groups| - 1, groups[|groups| - 1])
  }

  function Items(e: TxEvents): seq<Item> {
    DiagnosticItems(e.diagnostic) + OperationItems(e.operations) + TransactionItems(e.transaction)
  }

  function EventId(hash: string, index: int): string {
    hash + ":" + Text.Decimal(index)
  }

  /** The id of the transaction at position `i` of the ledger, counted from one. */
  function TransactionId(input: Input, i: int): int {
    ToId(WrapInt32(input.sequence), WrapInt32(i + 1), 0)
  }

  /** A transaction as its rows see it: its ledger, its position, hash and success. */
  datatype Parent = Parent(input: Input, position: int, hash: string, successful: bool)

  /** The row of the item at position `j` of a transaction. */
  function RowAt(p: Parent, item: Item, j: int): EventRow {
    EventRow(EventId(p.hash, j % UINT32), item.event, p.input.sequence, p.hash,
             if item.stream.DiagnosticStream? then "diagnostic" else item.event.kind,
             item.inSuccessfulCall, p.successful, item.opIndex, item.stream, j % UINT32,
             TransactionId(p.input, p.position), p.input.ledgerRange, p.input.eraID)
  }

  function RowsAt(p: Parent, items: seq<Item>): seq<EventRow> {
    seq(|items|, j requires 0 <= j < |items| => RowAt(p, items[j], j))
  }

  function TxItems(tx: Transaction): seq<Item> {
    if tx.events.Ok? then Items(tx.events.value) else []
  }

  function TxRows(input: Input, i: int, tx: Transaction): seq<EventRow> {
    RowsAt(Parent(input, i, tx.hash, tx.successful), TxItems(tx))
  }

  function LedgerRows(input: Input, txs: seq<Transaction>): seq<EventRow> {
    if txs == [] then [] else
      LedgerRows(input, txs[..|txs| - 1]) + TxRows(input, |txs| - 1, txs[|txs| - 1])
  }

  // The extractors.

  /** extractContractEvent, with the fields its callers set afterwards. */
  function ExtractContractEvent(p: Parent, event: ContractEvent, opIndex: int, eventIndex: int,
                                stream: Stream, inSuccessfulCall: bool, txId: int): EventRow
  {
    EventRow(EventId(p.hash, eventIndex), event, p.input.sequence, p.hash, event.kind, inSuccessfulCall, p.successful,
             opIndex, stream, eventIndex, txId, p.input.ledgerRange, p.input.eraID)
  }

  /** extractDiagnosticEvent. */
  function ExtractDiagnosticEvent(p: Parent, e: DiagnosticEvent, eventIndex: int, txId: int): EventRow {
    ExtractContractEvent(p, e.event, 0, eventIndex, DiagnosticStream, e.inSuccessfulCall, txId)
    .(eventType := "diagnostic")
  }

  lemma RowsAppend(p: Parent, items: seq<Item>, item: Item)
    ensures RowsAt(p, items + [item]) == RowsAt(p, items) + [RowAt(p, item, |items| % UINT32)]
    ensures |items + [item]| % UINT32 == (|items| % UINT32 + 1) % UINT32
  {
    hide RowAt;
    RowAtWraps(p, item, |items|);
  }

  lemma RowAtWraps(p: Parent, item: Item, j: nat)
    ensures RowAt(p, item, j % UINT32) == RowAt(p, item, j) && (j + 1) % UINT32 == (j % UINT32 + 1) % UINT32
  {
    hide EventId, TransactionId;
  }

  /** The rows so far and the counter all three streams share; `items` says which events they are. */
  class Sink {
    const parent: Parent
    const txId: int
    var rows: seq<EventRow>
    var eventIndex: int
    ghost var items: seq<Item>

    ghost predicate Valid()
      reads this
    {
      && txId == TransactionId(parent.input, parent.position)
      && rows == RowsAt(parent, items)
      && eventIndex == |items| % UINT32
    }

    constructor (parent: Parent, txId: int)
      requires txId == TransactionId(parent.input, parent.position)
      ensures Valid() && items == [] && this.parent == parent
    {
      this.parent, this.txId := parent, txId;
      rows, eventIndex, items := [], 0, [];
    }

    method Append(row: EventRow, ghost item: Item)
      requires Valid() && row == RowAt(parent, item, eventIndex)
      modifies this
      ensures Valid() && items == old(items) + [item]
    {
      RowsAppend(parent, items, item);
      rows := rows + [row];
      eventIndex := (eventIndex + 1) % UINT32;
      items := items + [item];
    }

    method AppendDiagnostic(e: DiagnosticEvent)
      requires Valid()
      modifies this
      ensures Valid() && items == old(items) + [DiagnosticItem(e)]
    {
      Append(ExtractDiagnosticEvent(parent, e, eventIndex, txId), DiagnosticItem(e));
    }

    method AppendOperation(op: nat, e: ContractEvent)
      requires Valid()
      modifies this
      ensures Valid() && items == old(items) + [OperationItem(op, e)]
    {
      Append(ExtractContractEvent(parent, e, op % UINT32, eventIndex, OperationStream, false, txId), OperationItem(op, e));
    }

    method AppendTransaction(e: TransactionEvent)
      requires Valid()
      modifies this
      ensures Valid() && items == old(items) + [TransactionItem(e)]
    {
      Append(ExtractContractEvent(parent, e.event, 0, eventIndex, TransactionStream, true, txId), TransactionItem(e));
    }
  }

  lemma OperationItemsSnoc(groups: seq<seq<ContractEvent>>, group: seq<ContractEvent>)
    ensures OperationItems(groups + [group]) == OperationItems(groups) + GroupItems(|groups|, group)
  {
    assert (groups + [group])[..|groups|] == groups;
  }

  /** The operation-events loop of one transaction. */
  method ExtractOperations(groups: seq<seq<ContractEvent>>, sink: Sink)
    requires sink.Valid()
    modifies sink
    ensures sink.Valid() && sink.items == old(sink.items) + OperationItems(groups)
  {
    hide RowAt, RowsAt;
    for opIdx := 0 to |groups|
      invariant sink.Valid() && sink.items == old(sink.items) + OperationItems(groups[..opIdx])
    {
      var opEvents := groups[opIdx];
      ghost var start := sink.items;
      for k := 0 to |opEvents|
        invariant sink.Valid() && sink.items == start + GroupItems(opIdx, opEvents[..k])
      {
        sink.AppendOperation(opIdx, opEvents[k]);
      }
      OperationItemsSnoc(groups[..opIdx], opEvents);
      assert opEvents[..|opEvents|] == opEvents;
      assert groups[..opIdx + 1] == groups[..opIdx] + [opEvents];
    }
    assert groups[..|groups|] == groups;
  }

  /** The body of ExtractContractEvents' loop for one transaction. */
  method ExtractTransaction(input: Input, i: nat, tx: Transaction, txId: int) returns (rows: seq<EventRow>)
    requires txId == TransactionId(input, i)
    ensures rows == TxRows(input, i, tx)
  {
    hide RowAt;
    if tx.events.Err? {
      return [];
    }
    var txEvents := tx.events.value;
    var sink := new Sink(Parent(input, i, tx.hash, tx.successful), txId);
    for k := 0 to |txEvents.diagnostic|
      invariant sink.Valid() && sink.items == DiagnosticItems(txEvents.diagnostic[..k])
    {
      sink.AppendDiagnostic(txEvents.diagnostic[k]);
    }
    ExtractOperations(txEvents.operations, sink);
    ghost var perOperation := sink.items;
    for k := 0 to |txEvents.transaction|
      invariant sink.Valid() && sink.items == perOperation + TransactionItems(txEvents.transaction[..k])
    {
      sink.AppendTransaction(txEvents.transaction[k]);
    }
    assert txEvents.diagnostic[..|txEvents.diagnostic|] == txEvents.diagnostic;
    assert txEvents.transaction[..|txEvents.transaction|] == txEvents.transaction;
    rows := sink.rows;
  }

  lemma LedgerRowsSnoc(input: Input, txs: seq<Transaction>, tx: Transaction)
    ensures LedgerRows(input, txs + [tx]) == LedgerRows(input, txs) + TxRows(input, |txs|, tx)
  {
    assert (txs + [tx])[..|txs|] == txs;
  }

  /** An int32 counter that wraps at each step is the wrapped count. */
  lemma WrapNext(n: int)
    ensures WrapInt32(1) == 1 && WrapInt32(WrapInt32(n) + 1) == WrapInt32(n + 1)
  {
  }

  lemma NoLedgerRows(input: Input)
    ensures LedgerRows(input, []) == []
  {
  }

  /** ExtractContractEvents; a failed transaction reader gives no rows and no error. */
  method ExtractContractEvents(input: Input, txs: Result<seq<Transaction>, string>) returns (events: seq<EventRow>)
    ensures txs.Err? ==> events == []
    ensures txs.Ok? ==> events == LedgerRows(input, txs.value)
  {
    hide LedgerRows, TxRows, WrapInt32, ToId;
    events := [];
    if txs.Err? {
      return;
    }
    NoLedgerRows(input);
    WrapNext(0);
    assert txs.value[..0] == [];
    var txIndex := 1;
    for i := 0 to |txs.value|
      invariant txIndex == WrapInt32(i + 1) && events == LedgerRows(input, txs.value[..i])
    {
      var txId := ToId(WrapInt32(input.sequence), txIndex, 0);
      WrapNext(i + 1);
      txIndex := WrapInt32(txIndex + 1);
      var rows := ExtractTransaction(input, i, txs.value[i], txId);
      LedgerRowsSnoc(input, txs.value[..i], txs.value[i]);
      assert txs.value[..i + 1] == txs.value[..i] + [txs.value[i]];
      events := events + rows;
    }
    assert txs.value[..|txs.value|] == txs.value;
  }

  /** The TransactionID column of ExtractTransactions. */
  method TransactionIds(input: Input, txs: seq<Transaction>) returns (ids: seq<int>)
    ensures |ids| == |txs| && forall i | 0 <= i < |ids| :: ids[i] == TransactionId(input, i)
  {
    ids := [];
    var txIndex := 1;
    for i := 0 to |txs|
      invariant txIndex == WrapInt32(i + 1) && |ids| == i
      invariant forall k | 0 <= k < i :: ids[k] == TransactionId(input, k)
    {
      ids := ids + [ToId(WrapInt32(input.sequence), txIndex, 0)];
      txIndex := WrapInt32(txIndex + 1);
    }
  }

  // The view path: raw events, decoded one at a time.

  type Bytes = seq<int>

  /** MarshalBinary and UnmarshalBinary of the three event types. */
  datatype Codec = Codec(
    encodeDiagnostic: DiagnosticEvent -> Bytes,
    decodeDiagnostic: Bytes -> Result<DiagnosticEvent, string>,
    encodeContract: ContractEvent -> Bytes,
    decodeContract: Bytes -> Result<ContractEvent, string>,
    encodeTransaction: TransactionEvent -> Bytes,
    decodeTransaction: Bytes -> Result<TransactionEvent, string>)
  {
    ghost predicate RoundTrips() {
      && (forall e :: decodeDiagnostic(encodeDiagnostic(e)) == Ok(e))
      && (forall e :: decodeContract(encodeContract(e)) == Ok(e))
      && (forall e :: decodeTransaction(encodeTransaction(e)) == Ok(e))
    }
  }

  datatype TransactionView = TransactionView(
    hash: string,
    successful: bool,
    diagnostic: seq<Bytes>,
    contract: seq<seq<Bytes>>,
    transaction: seq<Bytes>)

  function MapSeq<A, B>(f: A -> B, s: seq<A>): seq<B> {
    seq(|s|, i requires 0 <= i < |s| => f(s[i]))
  }

  /** The view of a transaction whose events were read without error. */
  function ViewOf(codec: Codec, tx: Transaction): TransactionView
    requires tx.events.Ok?
  {
    var e := tx.events.value;
    TransactionView(tx.hash, tx.successful,
                    MapSeq(codec.encodeDiagnostic, e.diagnostic),
                    MapSeq(group => MapSeq(codec.encodeContract, group), e.operations),
                    MapSeq(codec.encodeTransaction, e.transaction))
  }

  /** `e` is what a view's raw events decode to. */
  ghost predicate DecodesTo(codec: Codec, v: TransactionView, e: TxEvents) {
    && |e.diagnostic| == |v.diagnostic| && |e.operations| == |v.contract| && |e.transaction| == |v.transaction|
    && (forall k | 0 <= k < |v.diagnostic| :: codec.decodeDiagnostic(v.diagnostic[k]) == Ok(e.diagnostic[k]))
    && (forall o | 0 <= o < |v.contract| :: GroupDecodesTo(codec, v.contract[o], e.operations[o]))
    && (forall k | 0 <= k < |v.transaction| :: codec.decodeTransaction(v.transaction[k]) == Ok(e.transaction[k]))
  }

  ghost predicate GroupDecodesTo(codec: Codec, raw: seq<Bytes>, events: seq<ContractEvent>) {
    |events| == |raw| && forall k | 0 <= k < |raw| :: codec.decodeContract(raw[k]) == Ok(events[k])
  }

  /** Some raw event of the view does not decode. */
  ghost predicate Undecodable(codec: Codec, v: TransactionView) {
    || (exists k | 0 <= k < |v.diagnostic| :: codec.decodeDiagnostic(v.diagnostic[k]).Err?)
    || (exists o | 0 <= o < |v.contract| :: UndecodableGroup(codec, v.contract[o]))
    || (exists k | 0 <= k < |v.transaction| :: codec.decodeTransaction(v.transaction[k]).Err?)
  }

  ghost predicate UndecodableGroup(codec: Codec, raw: seq<Bytes>) {
    exists k | 0 <= k < |raw| :: codec.decodeContract(raw[k]).Err?
  }

  /** A view read as the transaction it stands for. */
  ghost predicate Reads(codec: Codec, v: TransactionView, tx: Transaction) {
    tx.hash == v.hash && tx.successful == v.successful && tx.events.Ok? && DecodesTo(codec, v, tx.events.value)
  }

  lemma NoOperationItems()
    ensures OperationItems([]) == []
  {
  }

  /** The inner loop: one operation's events. */
  method ExtractViewGroup(codec: Codec, raw: seq<Bytes>, o: nat, sink: Sink) returns (ok: bool, ghost group: seq<ContractEvent>)
    requires sink.Valid()
    modifies sink
    ensures ok <==> !UndecodableGroup(codec, raw)
    ensures ok ==> GroupDecodesTo(codec, raw, group) && sink.Valid() && sink.items == old(sink.items) + GroupItems(o, group)
  {
    hide RowAt, RowsAt, ToId;
    group := [];
    for k := 0 to |raw|
      invariant |group| == k && forall m | 0 <= m < k :: codec.decodeContract(raw[m]) == Ok(group[m])
      invariant sink.Valid() && sink.items == old(sink.items) + GroupItems(o, group)
    {
      var decoded := codec.decodeContract(raw[k]);
      if decoded.Err? {
        return false, group;
      }
      sink.AppendOperation(o, decoded.value);
      group := group + [decoded.value];
    }
    ok := true;
  }

  /** The operation-events loop of one transaction view. */
  method ExtractViewOperations(codec: Codec, raw: seq<seq<Bytes>>, sink: Sink)
    returns (ok: bool, ghost operations: seq<seq<ContractEvent>>)
    requires sink.Valid()
    modifies sink
    ensures ok <==> forall o | 0 <= o < |raw| :: !UndecodableGroup(codec, raw[o])
    ensures ok ==> |operations| == |raw| && forall o | 0 <= o < |raw| :: GroupDecodesTo(codec, raw[o], operations[o])
    ensures ok ==> sink.Valid() && sink.items == old(sink.items) + OperationItems(operations)
  {
    hide RowAt, RowsAt, ToId, OperationItems, GroupItems, GroupDecodesTo, UndecodableGroup;
    operations := [];
    NoOperationItems();
    for o := 0 to |raw|
      invariant |operations| == o
      invariant forall m | 0 <= m < o :: GroupDecodesTo(codec, raw[m], operations[m]) && !UndecodableGroup(codec, raw[m])
      invariant sink.Valid() && sink.items == old(sink.items) + OperationItems(operations)
    {
      ghost var group;
      ok, group := ExtractViewGroup(codec, raw[o], o, sink);
      if !ok {
        return false, operations;
      }
      OperationItemsSnoc(operations, group);
      operations := operations + [group];
    }
    ok := true;
  }

  /** The diagnostic-events loop of one transaction view. */
  method ExtractViewDiagnostics(codec: Codec, raw: seq<Bytes>, sink: Sink)
    returns (ok: bool, ghost diagnostic: seq<DiagnosticEvent>)
    requires sink.Valid()
    modifies sink
    ensures ok <==> forall k | 0 <= k < |raw| :: codec.decodeDiagnostic(raw[k]).Ok?
    ensures ok ==> |diagnostic| == |raw| && forall k | 0 <= k < |raw| :: codec.decodeDiagnostic(raw[k]) == Ok(diagnostic[k])
    ensures ok ==> sink.Valid() && sink.items == old(sink.items) + DiagnosticItems(diagnostic)
  {
    hide RowAt, RowsAt;
    diagnostic := [];
    for k := 0 to |raw|
      invariant |diagnostic| == k && forall m | 0 <= m < k :: codec.decodeDiagnostic(raw[m]) == Ok(diagnostic[m])
      invariant sink.Valid() && sink.items == old(sink.items) + DiagnosticItems(diagnostic)
    {
      var decoded := codec.decodeDiagnostic(raw[k]);
      if decoded.Err? {
        return false, diagnostic;
      }
      sink.AppendDiagnostic(decoded.value);
      assert DiagnosticItems(diagnostic + [decoded.value]) == DiagnosticItems(diagnostic) + [DiagnosticItem(decoded.value)];
      diagnostic := diagnostic + [decoded.value];
    }
    ok := true;
  }

  /** The transaction-events loop of one transaction view. */
  method ExtractViewTransactionEvents(codec: Codec, raw: seq<Bytes>, sink: Sink)
    returns (ok: bool, ghost events: seq<TransactionEvent>)
    requires sink.Valid()
    modifies sink
    ensures ok <==> forall k | 0 <= k < |raw| :: codec.decodeTransaction(raw[k]).Ok?
    ensures ok ==> |events| == |raw| && forall k | 0 <= k < |raw| :: codec.decodeTransaction(raw[k]) == Ok(events[k])
    ensures ok ==> sink.Valid() && sink.items == old(sink.items) + TransactionItems(events)
  {
    hide RowAt, RowsAt;
    events := [];
    for k := 0 to |raw|
      invariant |events| == k && forall m | 0 <= m < k :: codec.decodeTransaction(raw[m]) == Ok(events[m])
      invariant sink.Valid() && sink.items == old(sink.items) + TransactionItems(events)
    {
      var decoded := codec.decodeTransaction(raw[k]);
      if decoded.Err? {
        return false, events;
      }
      sink.AppendTransaction(decoded.value);
      assert TransactionItems(events + [decoded.value]) == TransactionItems(events) + [TransactionItem(decoded.value)];
      events := events + [decoded.value];
    }
    ok := true;
  }

  /** Converting the index before adding one, or after, wraps alike. */
  lemma ViewTransactionId(input: Input, i: nat)
    ensures ToId(WrapInt32(input.sequence), WrapInt32(WrapInt32(i) + 1), 0) == TransactionId(input, i)
  {
  }

  /** The body of extractContractEventsFromViews' loop for one transaction. */
  method ExtractView(codec: Codec, input: Input, i: nat, v: TransactionView)
    returns (r: Result<seq<EventRow>, string>, ghost tx: Transaction)
    ensures r.Err? <==> Undecodable(codec, v)
    ensures r.Ok? ==> Reads(codec, v, tx) && r.value == TxRows(input, i, tx)
  {
    hide RowAt, RowsAt, ToId, WrapInt32, TransactionId, UndecodableGroup, GroupDecodesTo;
    hide DiagnosticItems, OperationItems, TransactionItems;
    ViewTransactionId(input, i);
    tx := Transaction(v.hash, v.successful, Err(""));
    var txId := ToId(WrapInt32(input.sequence), WrapInt32(WrapInt32(i) + 1), 0);
    var sink := new Sink(Parent(input, i, v.hash, v.successful), txId);
    var ok, diagnostic := ExtractViewDiagnostics(codec, v.diagnostic, sink);
    if !ok {
      return Err("diagnostic event"), tx;
    }
    ghost var operations, transaction;
    ok, operations := ExtractViewOperations(codec, v.contract, sink);
    if !ok {
      return Err("operation event"), tx;
    }
    ok, transaction := ExtractViewTransactionEvents(codec, v.transaction, sink);
    if !ok {
      return Err("transaction event"), tx;
    }
    tx := Transaction(v.hash, v.successful, Ok(TxEvents(diagnostic, operations, transaction)));
    assert sink.items == TxItems(tx);
    return Ok(sink.rows), tx;
  }

  /** extractContractEventsFromViews: the first raw event that does not decode fails the whole ledger. */
  method ExtractContractEventsFromViews(codec: Codec, input: Input, views: seq<TransactionView>)
    returns (r: Result<seq<EventRow>, string>, ghost txs: seq<Transaction>)
    ensures r.Err? <==> exists v | v in views :: Undecodable(codec, v)
    ensures r.Ok? ==> |txs| == |views| && (forall i | 0 <= i < |txs| :: Reads(codec, views[i], txs[i]))
    ensures r.Ok? ==> r.value == LedgerRows(input, txs)
  {
    hide Undecodable, TxRows;
    txs := [];
    var events: seq<EventRow> := [];
    for i := 0 to |views|
      invariant |txs| == i && forall k | 0 <= k < i :: Reads(codec, views[k], txs[k]) && !Undecodable(codec, views[k])
      invariant events == LedgerRows(input, txs)
    {
      var rows, tx := ExtractView(codec, input, i, views[i]);
      if rows.Err? {
        assert views[i] in views;
        return Err(rows.error), txs;
      }
      LedgerRowsSnoc(input, txs, tx);
      txs := txs + [tx];
      events := events + rows.value;
    }
    return Ok(events), txs;
  }

  // Properties.

  /** A view reads as exactly the transaction it was made from. */
  lemma ViewReadsBack(codec: Codec, tx: Transaction, back: Transaction)
    requires codec.RoundTrips() && tx.events.Ok? && Reads(codec, ViewOf(codec, tx), back)
    ensures back == tx
  {
    var v, e, f := ViewOf(codec, tx), tx.events.value, back.events.value;
    assert f.diagnostic == e.diagnostic by {
      forall k | 0 <= k < |e.diagnostic| ensures f.diagnostic[k] == e.diagnostic[k] {
        assert codec.decodeDiagnostic(v.diagnostic[k]) == Ok(f.diagnostic[k]);
      }
    }
    assert f.operations == e.operations by {
      forall o | 0 <= o < |e.operations| ensures f.operations[o] == e.operations[o] {
        assert GroupDecodesTo(codec, v.contract[o], f.operations[o]);
        forall k | 0 <= k < |e.operations[o]| ensures f.operations[o][k] == e.operations[o][k] {
          assert codec.decodeContract(v.contract[o][k]) == Ok(f.operations[o][k]);
        }
      }
    }
    assert f.transaction == e.transaction by {
      forall k | 0 <= k < |e.transaction| ensures f.transaction[k] == e.transaction[k] {
        assert codec.decodeTransaction(v.transaction[k]) == Ok(f.transaction[k]);
      }
    }
  }

  lemma ViewIsDecodable(codec: Codec, tx: Transaction)
    requires codec.RoundTrips() && tx.events.Ok?
    ensures !Undecodable(codec, ViewOf(codec, tx))
  {
    var v := ViewOf(codec, tx);
    forall o | 0 <= o < |v.contract| ensures !UndecodableGroup(codec, v.contract[o]) {
      assert v.contract[o] == MapSeq(codec.encodeContract, tx.events.value.operations[o]);
    }
  }

  /**
   Given the codec round trip and no read errors, the view path succeeds, and whatever transactions
   it reads the views as, its rows are the parsed path's rows in the same order.
   */
  lemma ViewRefinesParsed(codec: Codec, input: Input, txs: seq<Transaction>, views: seq<TransactionView>, read: seq<Transaction>)
    requires codec.RoundTrips() && |views| == |txs|
    requires forall i | 0 <= i < |txs| :: txs[i].events.Ok? && views[i] == ViewOf(codec, txs[i])
    requires |read| == |views| && forall i | 0 <= i < |views| :: Reads(codec, views[i], read[i])
    ensures forall v | v in views :: !Undecodable(codec, v)
    ensures LedgerRows(input, read) == LedgerRows(input, txs)
  {
    forall i | 0 <= i < |txs| ensures !Undecodable(codec, views[i]) && read[i] == txs[i] {
      ViewIsDecodable(codec, txs[i]);
      ViewReadsBack(codec, txs[i], read[i]);
    }
    assert read == txs;
  }

  /** Across the three streams of one transaction the event indices count 0, 1, ... (mod 2^32). */
  lemma IndicesCount(input: Input, i: int, tx: Transaction)
    ensures |TxRows(input, i, tx)| == |TxItems(tx)|
    ensures forall j | 0 <= j < |TxRows(input, i, tx)| :: TxRows(input, i, tx)[j].eventIndex == j % UINT32
    ensures |TxItems(tx)| <= UINT32 ==> forall j | 0 <= j < |TxItems(tx)| :: TxRows(input, i, tx)[j].eventIndex == j
  {
  }

  lemma RowParent(input: Input, i: int, tx: Transaction, row: EventRow)
    requires row in TxRows(input, i, tx)
    ensures row.transactionHash == tx.hash && row.transactionId == TransactionId(input, i)
  {
    hide TransactionId;
  }

  /** Every row carries its own transaction's id, whichever earlier transactions were skipped on error. */
  lemma {:induction false} RowsCarryTheirTransaction(input: Input, txs: seq<Transaction>, row: EventRow)
    requires row in LedgerRows(input, txs)
    ensures exists i :: 0 <= i < |txs| && row in TxRows(input, i, txs[i]) &&
                        row.transactionHash == txs[i].hash && row.transactionId == TransactionId(input, i)
  {
    hide TxRows, TransactionId;
    var front, n := txs[..|txs| - 1], |txs| - 1;
    if row in TxRows(input, n, txs[n]) {
      RowParent(input, n, txs[n], row);
    } else {
      RowsCarryTheirTransaction(input, front, row);
      var i :| 0 <= i < |front| && row in TxRows(input, i, front[i]) &&
               row.transactionHash == front[i].hash && row.transactionId == TransactionId(input, i);
      assert front[i] == txs[i];
    }
  }

  predicate DistinctIds(rows: seq<EventRow>) {
    forall a, b | 0 <= a < b < |rows| :: rows[a].eventId != rows[b].eventId
  }

  predicate DistinctHashes(txs: seq<Transaction>) {
    && (forall i | 0 <= i < |txs| :: ':' !in txs[i].hash)
    && forall i, j | 0 <= i < j < |txs| :: txs[i].hash != txs[j].hash
  }

  lemma EventIdInjective(h: string, a: int, k: string, b: int)
    requires ':' !in h && ':' !in k && EventId(h, a) == EventId(k, b)
    ensures h == k && a == b
  {
    Calls.SplitAtFirst(h, k, Text.Decimal(a), Text.Decimal(b), ':');
    Text.DecimalInjective(a, b);
  }

  /** Within one transaction the ids are distinct exactly when its events number at most 2^32. */
  lemma TxIdsDistinct(input: Input, i: int, tx: Transaction)
    requires ':' !in tx.hash
    ensures DistinctIds(TxRows(input, i, tx)) <==> |TxItems(tx)| <= UINT32
  {
    hide Text.Decimal;
    var rows := TxRows(input, i, tx);
    if |rows| > UINT32 {
      assert rows[0].eventId == rows[UINT32].eventId;
    } else {
      forall a, b | 0 <= a < b < |rows| ensures rows[a].eventId != rows[b].eventId {
        if rows[a].eventId == rows[b].eventId {
          EventIdInjective(tx.hash, a, tx.hash, b);
        }
      }
    }
  }

  /** Over a ledger with distinct hex hashes, event ids are distinct exactly when no transaction has over 2^32 events. */
  lemma {:induction false} LedgerIdsDistinct(input: Input, txs: seq<Transaction>)
    requires DistinctHashes(txs)
    ensures DistinctIds(LedgerRows(input, txs)) <==> forall tx | tx in txs :: |TxItems(tx)| <= UINT32
  {
    if txs != [] {
      var front, n := txs[..|txs| - 1], |txs| - 1;
      var tx := txs[n];
      var before, last := LedgerRows(input, front), TxRows(input, n, tx);
      LedgerIdsDistinct(input, front);
      TxIdsDistinct(input, n, tx);
      CrossIdsDistinct(input, txs);
      DistinctConcat(before, last);
      assert txs == front + [tx];
    }
  }

  lemma DistinctConcat(a: seq<EventRow>, b: seq<EventRow>)
    requires forall x, y | x in a && y in b :: x.eventId != y.eventId
    ensures DistinctIds(a + b) <==> DistinctIds(a) && DistinctIds(b)
  {
    var s := a + b;
    assert DistinctIds(s) ==> DistinctIds(a) by {
      if DistinctIds(s) {
        assert forall i | 0 <= i < |a| :: a[i] == s[i];
      }
    }
    assert DistinctIds(s) ==> DistinctIds(b) by {
      if DistinctIds(s) {
        assert forall i | 0 <= i < |b| :: b[i] == s[|a| + i];
      }
    }
  }

  lemma RowIds(input: Input, i: int, tx: Transaction, row: EventRow)
    requires row in TxRows(input, i, tx)
    ensures row.eventId == EventId(tx.hash, row.eventIndex)
  {
  }

  lemma CrossIdsDistinct(input: Input, txs: seq<Transaction>)
    requires DistinctHashes(txs) && txs != []
    ensures forall x, y | x in LedgerRows(input, txs[..|txs| - 1]) && y in TxRows(input, |txs| - 1, txs[|txs| - 1]) ::
              x.eventId != y.eventId
  {
    var front, n := txs[..|txs| - 1], |txs| - 1;
    hide TxRows, LedgerRows, EventId;
    forall x, y | x in LedgerRows(input, front) && y in TxRows(input, n, txs[n]) ensures x.eventId != y.eventId {
      RowsCarryTheirTransaction(input, front, x);
      var i :| 0 <= i < |front| && x in TxRows(input, i, front[i]) && x.transactionHash == front[i].hash;
      assert front[i] == txs[i];
      RowIds(input, i, txs[i], x);
      RowIds(input, n, txs[n], y);
      if x.eventId == y.eventId {
        EventIdInjective(txs[i].hash, x.eventIndex, txs[n].hash, y.eventIndex);
      }
    }
  }

  // What the rows and ids spell out.

  /** The SEP-0035 layout: 32 bits of ledger, 20 of transaction, counted from one, 12 of operation, here 0. */
  ghost predicate InLayout(id: int, sequence: int, position: int) {
    && id / 0x1_0000_0000 == sequence
    && (id / 0x1000) % 0x10_0000 == position + 1
    && id % 0x1000 == 0
  }

  lemma ToIdLayout(l: int, t: int)
    requires 0 <= t < 0x10_0000
    ensures ToId(l, t, 0) / 0x1_0000_0000 == l
    ensures (ToId(l, t, 0) / 0x1000) % 0x10_0000 == t
    ensures ToId(l, t, 0) % 0x1000 == 0
  {
    assert ToId(l, t, 0) == (l * 0x10_0000 + t) * 0x1000;
    assert ToId(l, t, 0) / 0x1000 == l * 0x10_0000 + t;
  }

  /** The id of the transaction at a position of a ledger; its neighbour's is 4096 more. */
  lemma TransactionIdLayout(input: Input, i: int)
    requires 0 <= input.sequence < 0x8000_0000 && 0 <= i < 0xF_FFFF
    ensures InLayout(TransactionId(input, i), input.sequence, i)
    ensures TransactionId(input, i + 1) == TransactionId(input, i) + 4096
  {
    assert WrapInt32(input.sequence) == input.sequence && WrapInt32(i + 1) == i + 1 && WrapInt32(i + 2) == i + 2;
    hide WrapInt32;
    ToIdLayout(input.sequence, i + 1);
  }

  /** So every row, of either path, carries in that layout the position of the transaction whose hash it carries. */
  lemma RowsInLayout(input: Input, txs: seq<Transaction>, row: EventRow)
    requires row in LedgerRows(input, txs)
    requires 0 <= input.sequence < 0x8000_0000 && |txs| < 0x10_0000
    ensures exists i :: 0 <= i < |txs| && row.transactionHash == txs[i].hash && InLayout(row.transactionId, input.sequence, i)
  {
    hide LedgerRows, TxRows, TransactionId, InLayout;
    RowsCarryTheirTransaction(input, txs, row);
    var i :| 0 <= i < |txs| && row in TxRows(input, i, txs[i]) &&
             row.transactionHash == txs[i].hash && row.transactionId == TransactionId(input, i);
    TransactionIdLayout(input, i);
  }

  /** The events of the first `n` groups. */
  ghost function Offset(groups: seq<seq<ContractEvent>>, n: nat): nat
    requires n <= |groups|
  {
    if n == 0 then 0 else Offset(groups, n - 1) + |groups[n - 1]|
  }

  lemma {:induction false} OffsetOfPrefix(groups: seq<seq<ContractEvent>>, m: nat, n: nat)
    requires n <= m <= |groups|
    ensures Offset(groups[..m], n) == Offset(groups, n) <= Offset(groups, m)
  {
    if n > 0 {
      OffsetOfPrefix(groups, m, n - 1);
    }
    if n < m {
      OffsetOfPrefix(groups, m - 1, n);
    }
  }

  lemma {:induction false} OperationItemsAt(groups: seq<seq<ContractEvent>>, o: nat, k: nat)
    requires o < |groups| && k < |groups[o]|
    ensures |OperationItems(groups)| == Offset(groups, |groups|)
    ensures Offset(groups, o) + k < Offset(groups, |groups|)
    ensures OperationItems(groups)[Offset(groups, o) + k] == OperationItem(o, groups[o][k])
    decreases |groups|
  {
    var n := |groups| - 1;
    OperationItemsLength(groups);
    OffsetOfPrefix(groups, n, if o < n then o else n);
    if o < n {
      OperationItemsLength(groups[..n]);
      OffsetOfPrefix(groups, n, o);
      OffsetOfPrefix(groups, n, n);
      OperationItemsAt(groups[..n], o, k);
    } else {
      OperationItemsLength(groups[..n]);
      OffsetOfPrefix(groups, n, n);
    }
  }

  lemma {:induction false} OperationItemsLength(groups: seq<seq<ContractEvent>>)
    ensures |OperationItems(groups)| == Offset(groups, |groups|)
    decreases |groups|
  {
    if groups != [] {
      var n := |groups| - 1;
      OperationItemsLength(groups[..n]);
      OffsetOfPrefix(groups, n, n);
    }
  }

  /** A row's own columns. */
  ghost predicate States(row: EventRow, event: ContractEvent, eventType: string, inSuccessfulCall: bool, op: int, stream: Stream) {
    row.event == event && row.eventType == eventType && row.inSuccessfulCall == inSuccessfulCall &&
    row.operationIndex == op && row.stream == stream
  }

  /** The columns a row has from its ledger and transaction, and an id made of hash and index. */
  ghost predicate StatesParent(row: EventRow, input: Input, tx: Transaction) {
    && row.ledgerSequence == input.sequence && row.ledgerRange == input.ledgerRange && row.eraID == input.eraID
    && row.transactionHash == tx.hash && row.successful == tx.successful
    && exists n :: row.eventId == tx.hash + ":" + n && Text.ReadDecimal(n) == row.eventIndex
  }

  lemma RowStatesParent(input: Input, i: int, tx: Transaction, j: nat)
    requires j < |TxItems(tx)|
    ensures StatesParent(TxRows(input, i, tx)[j], input, tx)
  {
    hide Text.Decimal, Text.ReadDecimal, TxItems;
    Text.DecimalReads(j % UINT32);
    assert TxRows(input, i, tx)[j].eventId == tx.hash + ":" + Text.Decimal(j % UINT32);
  }

  lemma RowStatesItem(input: Input, i: int, tx: Transaction, j: nat, item: Item)
    requires j < |TxItems(tx)| && TxItems(tx)[j] == item
    ensures j < |TxRows(input, i, tx)| &&
            States(TxRows(input, i, tx)[j], item.event,
                   if item.stream.DiagnosticStream? then "diagnostic" else item.event.kind,
                   item.inSuccessfulCall, item.opIndex, item.stream)
  {
    hide TxItems, EventId, TransactionId;
  }

  lemma DiagnosticRowStated(input: Input, i: int, tx: Transaction, k: nat)
    requires tx.events.Ok? && k < |tx.events.value.diagnostic|
    ensures var e := tx.events.value.diagnostic[k];
            k < |TxRows(input, i, tx)| &&
            States(TxRows(input, i, tx)[k], e.event, "diagnostic", e.inSuccessfulCall, 0, DiagnosticStream)
  {
    hide OperationItems, TxRows, States;
    assert TxItems(tx)[k] == DiagnosticItem(tx.events.value.diagnostic[k]);
    RowStatesItem(input, i, tx, k, DiagnosticItem(tx.events.value.diagnostic[k]));
  }

  lemma OperationRowStated(input: Input, i: int, tx: Transaction, o: nat, k: nat)
    requires tx.events.Ok? && o < |tx.events.value.operations| && k < |tx.events.value.operations[o]|
    ensures OperationRow(input, i, tx, o, k)
  {
    hide OperationItems, Offset, TxRows, States;
    var e := tx.events.value;
    OperationItemsAt(e.operations, o, k);
    var at, item := |e.diagnostic| + Offset(e.operations, o) + k, OperationItem(o, e.operations[o][k]);
    assert TxItems(tx)[at] == item;
    RowStatesItem(input, i, tx, at, item);
  }

  ghost predicate OperationRow(input: Input, i: int, tx: Transaction, o: nat, k: nat)
    requires tx.events.Ok? && o < |tx.events.value.operations| && k < |tx.events.value.operations[o]|
  {
    var rows, e := TxRows(input, i, tx), tx.events.value;
    var at := |e.diagnostic| + Offset(e.operations, o) + k;
    at < |rows| && States(rows[at], e.operations[o][k], e.operations[o][k].kind, false, o % 0x1_0000_0000, OperationStream)
  }

  lemma TransactionRowStated(input: Input, i: int, tx: Transaction, k: nat)
    requires tx.events.Ok? && k < |tx.events.value.transaction|
    ensures var e := tx.events.value;
            var at := |e.diagnostic| + Offset(e.operations, |e.operations|) + k;
            at < |TxRows(input, i, tx)| &&
            States(TxRows(input, i, tx)[at], e.transaction[k].event, e.transaction[k].event.kind, true, 0, TransactionStream)
  {
    hide OperationItems, Offset, TxRows, States;
    var e := tx.events.value;
    OperationItemsLength(e.operations);
    var at, item := |e.diagnostic| + Offset(e.operations, |e.operations|) + k, TransactionItem(e.transaction[k]);
    assert TxItems(tx)[at] == item;
    RowStatesItem(input, i, tx, at, item);
  }

  /**
   A transaction's rows, in order: its diagnostic events, its operations' events group by group, its
   own events; each row stating its event.
   */
  lemma RowsStateTheirEvents(input: Input, i: int, tx: Transaction)
    requires tx.events.Ok?
    ensures var rows, e := TxRows(input, i, tx), tx.events.value;
            var first := |e.diagnostic| + Offset(e.operations, |e.operations|);
            && |rows| == first + |e.transaction|
            && (forall k | 0 <= k < |e.diagnostic| ::
                  States(rows[k], e.diagnostic[k].event, "diagnostic", e.diagnostic[k].inSuccessfulCall, 0, DiagnosticStream))
            && (forall o: nat, k: nat | o < |e.operations| && k < |e.operations[o]| :: OperationRow(input, i, tx, o, k))
            && (forall k | 0 <= k < |e.transaction| ::
                  States(rows[first + k], e.transaction[k].event, e.transaction[k].event.kind, true, 0, TransactionStream))
            && forall j | 0 <= j < |rows| :: StatesParent(rows[j], input, tx)
  {
    hide States, StatesParent, OperationRow, OperationItems, Offset, TxRows, RowAt;
    var rows, e := TxRows(input, i, tx), tx.events.value;
    var first := |e.diagnostic| + Offset(e.operations, |e.operations|);
    OperationItemsLength(e.operations);
    RowCount(input, i, tx);
    forall k | 0 <= k < |e.diagnostic|
      ensures States(rows[k], e.diagnostic[k].event, "diagnostic", e.diagnostic[k].inSuccessfulCall, 0, DiagnosticStream)
    {
      DiagnosticRowStated(input, i, tx, k);
    }
    forall o: nat, k: nat | o < |e.operations| && k < |e.operations[o]| ensures OperationRow(input, i, tx, o, k) {
      OperationRowStated(input, i, tx, o, k);
    }
    forall k | 0 <= k < |e.transaction|
      ensures States(rows[first + k], e.transaction[k].event, e.transaction[k].event.kind, true, 0, TransactionStream)
    {
      TransactionRowStated(input, i, tx, k);
    }
    forall j | 0 <= j < |rows| ensures StatesParent(rows[j], input, tx) {
      RowStatesParent(input, i, tx, j);
    }
  }

  lemma RowCount(input: Input, i: int, tx: Transaction)
    ensures |TxRows(input, i, tx)| == |TxItems(tx)|
  {
  }
}
