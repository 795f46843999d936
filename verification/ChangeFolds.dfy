/**
 accounts.go: three tables folded from one stream of entry changes through last-write-wins maps,
 then emitted in key order.
 */
module ChangeFolds {
  import opened Wrappers
  import Ordering
  import FnName
  import Calls

  datatype Signer = Signer(key: string, weight: int)

  /** An AccountEntry, the fields the three tables read. */
  datatype AccountEntry = AccountEntry(
    id: string,
    balance: int,
    seqNum: int,
    numSubentries: int,
    liabilities: Option<(int, int)>,
    signers: seq<Signer>,
    sponsorIDs: seq<Option<string>>)

  datatype EntryData = Account(entry: AccountEntry) | OtherData

  datatype LedgerEntry = LedgerEntry(data: EntryData, lastModified: int)

  /** `ofAccount`: the change's type is LedgerEntryTypeAccount. */
  datatype Change = Change(ofAccount: bool, pre: Option<LedgerEntry>, post: Option<LedgerEntry>)

  datatype AccountRow = AccountRow(accountId: string, balance: int, sequenceNumber: int, numSubentries: int, signers: seq<Signer>)

  datatype NativeBalanceRow = NativeBalanceRow(
    accountId: string,
    balance: int,
    buyingLiabilities: int,
    sellingLiabilities: int,
    numSubentries: int,
    sequenceNumber: Option<int>,
    lastModifiedLedger: int)

  /** A ledger entry known to hold an account. */
  predicate IsAccount(e: Option<LedgerEntry>) {
    e.Some? && e.value.data.Account?
  }

  function AccountRowOf(e: AccountEntry): AccountRow {
    AccountRow(e.id, e.balance, e.seqNum, e.numSubentries, e.signers)
  }

  function NativeBalanceRowOf(e: AccountEntry, lastModified: int): NativeBalanceRow {
    NativeBalanceRow(e.id, e.balance,
                     if e.liabilities.Some? then e.liabilities.value.0 else 0,
                     if e.liabilities.Some? then e.liabilities.value.1 else 0,
                     e.numSubentries, if e.seqNum > 0 then Some(e.seqNum) else None, lastModified)
  }

  /** The entry ExtractAccounts takes from a change: the account left behind. */
  function AliveEntry(c: Change): Option<LedgerEntry> {
    if c.ofAccount && IsAccount(c.post) then c.post else None
  }

  /** The entry ExtractNativeBalances takes: the account left behind, else the one removed. */
  function TouchedEntry(c: Change): Option<LedgerEntry> {
    if c.ofAccount && IsAccount(c.post) then c.post
    else if c.ofAccount && IsAccount(c.pre) then c.pre
    else None
  }

  /** The last entry for account `k` that `pick` takes from the stream. */
  ghost function LastEntry(changes: seq<Change>, pick: Change -> Option<LedgerEntry>, k: string): Option<LedgerEntry> {
    if changes == [] then None else
      var e := pick(changes[|changes| - 1]);
      if IsAccount(e) && e.value.data.entry.id == k then e else LastEntry(changes[..|changes| - 1], pick, k)
  }

  /** A table's map holds, per account, the row of the last entry picked for it. */
  ghost predicate IsFold<Row>(m: map<string, Row>, changes: seq<Change>, pick: Change -> Option<LedgerEntry>,
                              rowOf: (AccountEntry, int) -> Row)
  {
    forall k :: (k in m <==> LastEntry(changes, pick, k).Some?) &&
                (k in m ==>
                   var e := LastEntry(changes, pick, k).value;
                   e.data.Account? && m[k] == rowOf(e.data.entry, e.lastModified))
  }

  lemma FoldStep<Row>(m: map<string, Row>, changes: seq<Change>, i: nat, pick: Change -> Option<LedgerEntry>,
                      rowOf: (AccountEntry, int) -> Row)
    requires i < |changes| && IsFold(m, changes[..i], pick, rowOf)
    requires pick(changes[i]).Some? ==> IsAccount(pick(changes[i]))
    ensures var e := pick(changes[i]);
            IsFold(if e.Some? then m[e.value.data.entry.id := rowOf(e.value.data.entry, e.value.lastModified)] else m,
                   changes[..i + 1], pick, rowOf)
  {
    assert changes[..i + 1][..i] == changes[..i];
  }

  lemma {:induction false} LastEntryIsAccount(changes: seq<Change>, pick: Change -> Option<LedgerEntry>, k: string)
    ensures var e := LastEntry(changes, pick, k); e.Some? ==> IsAccount(e) && e.value.data.entry.id == k
  {
    if changes != [] {
      LastEntryIsAccount(changes[..|changes| - 1], pick, k);
    }
  }

  const ACCOUNT_ROW_FOR: (AccountEntry, int) -> AccountRow := (e, _) => AccountRowOf(e)
  const NATIVE_ROW_FOR: (AccountEntry, int) -> NativeBalanceRow := (e, l) => NativeBalanceRowOf(e, l)
  const ALIVE: Change -> Option<LedgerEntry> := c => AliveEntry(c)
  const TOUCHED: Change -> Option<LedgerEntry> := c => TouchedEntry(c)

  /** The loop of ExtractAccounts. */
  method FoldAccounts(changes: seq<Change>) returns (accountMap: map<string, AccountRow>)
    ensures IsFold(accountMap, changes, ALIVE, ACCOUNT_ROW_FOR)
  {
    accountMap := map[];
    for i := 0 to |changes|
      invariant IsFold(accountMap, changes[..i], ALIVE, ACCOUNT_ROW_FOR)
    {
      FoldStep(accountMap, changes, i, ALIVE, ACCOUNT_ROW_FOR);
      var change := changes[i];
      if !change.ofAccount {
        continue;
      }
      var accountEntry: Option<AccountEntry> := None;
      if change.post.Some? && change.post.value.data.Account? {
        accountEntry := Some(change.post.value.data.entry);
      }
      if accountEntry.None? {
        continue;
      }
      var accountData := AccountRowOf(accountEntry.value);
      accountMap := accountMap[accountData.accountId := accountData];
    }
    assert changes[..|changes|] == changes;
  }

  /** The loop of ExtractNativeBalances. */
  method FoldNativeBalances(changes: seq<Change>) returns (nativeMap: map<string, NativeBalanceRow>)
    ensures IsFold(nativeMap, changes, TOUCHED, NATIVE_ROW_FOR)
  {
    nativeMap := map[];
    for i := 0 to |changes|
      invariant IsFold(nativeMap, changes[..i], TOUCHED, NATIVE_ROW_FOR)
    {
      FoldStep(nativeMap, changes, i, TOUCHED, NATIVE_ROW_FOR);
      var change := changes[i];
      if !change.ofAccount {
        continue;
      }
      var accountEntry: Option<AccountEntry> := None;
      var lastModified := 0;
      if change.post.Some? && change.post.value.data.Account? {
        accountEntry, lastModified := Some(change.post.value.data.entry), change.post.value.lastModified;
      } else if change.pre.Some? && change.pre.value.data.Account? {
        accountEntry, lastModified := Some(change.pre.value.data.entry), change.pre.value.lastModified;
      }
      if accountEntry.None? {
        continue;
      }
      nativeMap := nativeMap[accountEntry.value.id := NativeBalanceRowOf(accountEntry.value, lastModified)];
    }
    assert changes[..|changes|] == changes;
  }

  /** The rows of a table: its map's values in ascending account order. */
  ghost predicate IsTable<Row(!new)>(rows: seq<Row>, changes: seq<Change>, pick: Change -> Option<LedgerEntry>,
                                     rowOf: (AccountEntry, int) -> Row)
  {
    && Ordering.TotalOrder(FnName.STRING_LEQ)
    && exists m :: IsFold(m, changes, pick, rowOf) && rows == Ordering.InKeyOrder(FnName.STRING_LEQ, m)
  }

  /** ExtractAccounts; a failed change reader gives no rows and no error. */
  method ExtractAccounts(stream: Result<seq<Change>, string>) returns (accounts: seq<AccountRow>)
    ensures stream.Err? ==> accounts == []
    ensures stream.Ok? ==> IsTable(accounts, stream.value, ALIVE, ACCOUNT_ROW_FOR)
  {
    if stream.Err? {
      return [];
    }
    FnName.StringLeqIsTotal();
    var accountMap := FoldAccounts(stream.value);
    accounts := Ordering.SortedMapValues(FnName.STRING_LEQ, accountMap);
  }

  /** ExtractNativeBalances. */
  method ExtractNativeBalances(stream: Result<seq<Change>, string>) returns (balances: seq<NativeBalanceRow>)
    ensures stream.Err? ==> balances == []
    ensures stream.Ok? ==> IsTable(balances, stream.value, TOUCHED, NATIVE_ROW_FOR)
  {
    if stream.Err? {
      return [];
    }
    FnName.StringLeqIsTotal();
    var nativeMap := FoldNativeBalances(stream.value);
    balances := Ordering.SortedMapValues(FnName.STRING_LEQ, nativeMap);
  }

  lemma FoldUnique<Row>(m: map<string, Row>, n: map<string, Row>, changes: seq<Change>,
                        pick: Change -> Option<LedgerEntry>, rowOf: (AccountEntry, int) -> Row)
    requires IsFold(m, changes, pick, rowOf) && IsFold(n, changes, pick, rowOf)
    ensures m == n
  {
    assert forall k :: k in m <==> k in n;
  }

  /** The table is determined by the stream: same rows in the same order on every run. */
  lemma TableUnique<Row(!new)>(a: seq<Row>, b: seq<Row>, changes: seq<Change>, pick: Change -> Option<LedgerEntry>,
                               rowOf: (AccountEntry, int) -> Row)
    requires IsTable(a, changes, pick, rowOf) && IsTable(b, changes, pick, rowOf)
    ensures a == b
  {
    var m :| IsFold(m, changes, pick, rowOf) && a == Ordering.InKeyOrder(FnName.STRING_LEQ, m);
    var n :| IsFold(n, changes, pick, rowOf) && b == Ordering.InKeyOrder(FnName.STRING_LEQ, n);
    FoldUnique(m, n, changes, pick, rowOf);
  }

  /** A row is in the table exactly when it is the row of some account's last picked entry. */
  lemma TableRows<Row(!new)>(rows: seq<Row>, changes: seq<Change>, pick: Change -> Option<LedgerEntry>,
                             rowOf: (AccountEntry, int) -> Row, row: Row)
    requires IsTable(rows, changes, pick, rowOf)
    ensures row in rows <==> exists k :: IsRowFor(row, changes, pick, rowOf, k)
  {
    var m :| IsFold(m, changes, pick, rowOf) && rows == Ordering.InKeyOrder(FnName.STRING_LEQ, m);
    Ordering.InKeyOrderRows(FnName.STRING_LEQ, m);
    if row in rows {
      var k :| k in m && m[k] == row;
      assert IsRowFor(row, changes, pick, rowOf, k);
    }
    if k :| IsRowFor(row, changes, pick, rowOf, k) {
      assert k in m && m[k] == row;
    }
  }

  ghost predicate IsRowFor<Row>(row: Row, changes: seq<Change>, pick: Change -> Option<LedgerEntry>,
                                rowOf: (AccountEntry, int) -> Row, k: string)
  {
    var e := LastEntry(changes, pick, k);
    IsAccount(e) && row == rowOf(e.value.data.entry, e.value.lastModified)
  }

  // Agreement of the two tables on chained streams.

  /** What the stream has said of each account so far: its entry, or None once removed. */
  ghost function States(changes: seq<Change>): map<string, Option<LedgerEntry>> {
    if changes == [] then map[] else
      var before, c := States(changes[..|changes| - 1]), changes[|changes| - 1];
      if TouchedEntry(c).None? then before else
        before[TouchedEntry(c).value.data.entry.id := AliveEntry(c)]
  }

  /** Each account change starts from what the previous change of that account left. */
  ghost predicate Chained(changes: seq<Change>) {
    changes == [] ||
    (var front, c := changes[..|changes| - 1], changes[|changes| - 1];
     Chained(front) &&
     (TouchedEntry(c).Some? ==>
        var k := TouchedEntry(c).value.data.entry.id;
        k in States(front) ==> (if IsAccount(c.pre) then c.pre else None) == States(front)[k]))
  }

  lemma {:induction false} ChainedEntries(changes: seq<Change>, k: string)
    requires Chained(changes)
    ensures LastEntry(changes, TOUCHED, k).Some? <==> k in States(changes)
    ensures k in States(changes) && States(changes)[k].Some? ==> LastEntry(changes, ALIVE, k) == States(changes)[k]
    ensures LastEntry(changes, ALIVE, k).Some? ==> LastEntry(changes, TOUCHED, k) == LastEntry(changes, ALIVE, k)
  {
    if changes != [] {
      var front, c := changes[..|changes| - 1], changes[|changes| - 1];
      ChainedEntries(front, k);
      assert TOUCHED(c) == TouchedEntry(c) && ALIVE(c) == AliveEntry(c);
    }
  }

  lemma AccountRowEntry(changes: seq<Change>, accounts: seq<AccountRow>, row: AccountRow)
    requires IsTable(accounts, changes, ALIVE, ACCOUNT_ROW_FOR) && row in accounts
    ensures var e := LastEntry(changes, ALIVE, row.accountId); IsAccount(e) && row == AccountRowOf(e.value.data.entry)
  {
    TableRows(accounts, changes, ALIVE, ACCOUNT_ROW_FOR, row);
    var k :| IsRowFor(row, changes, ALIVE, ACCOUNT_ROW_FOR, k);
    LastEntryIsAccount(changes, ALIVE, k);
  }

  lemma NativeRowPresent(changes: seq<Change>, balances: seq<NativeBalanceRow>, k: string)
    requires IsTable(balances, changes, TOUCHED, NATIVE_ROW_FOR) && LastEntry(changes, TOUCHED, k).Some?
    ensures var e := LastEntry(changes, TOUCHED, k);
            IsAccount(e) && NativeBalanceRowOf(e.value.data.entry, e.value.lastModified) in balances
  {
    LastEntryIsAccount(changes, TOUCHED, k);
    var e := LastEntry(changes, TOUCHED, k);
    var native := NativeBalanceRowOf(e.value.data.entry, e.value.lastModified);
    assert IsRowFor(native, changes, TOUCHED, NATIVE_ROW_FOR, k);
    TableRows(balances, changes, TOUCHED, NATIVE_ROW_FOR, native);
  }

  /** The accounts row states the entry. */
  ghost predicate StatesAccount(row: AccountRow, e: AccountEntry) {
    row.accountId == e.id && row.balance == e.balance && row.sequenceNumber == e.seqNum &&
    row.numSubentries == e.numSubentries && row.signers == e.signers
  }

  /** The native row states the entry: liabilities 0 and no sequence number where it has none. */
  ghost predicate StatesNative(row: NativeBalanceRow, e: LedgerEntry)
    requires e.data.Account?
  {
    var a := e.data.entry;
    && row.accountId == a.id && row.balance == a.balance && row.numSubentries == a.numSubentries
    && (match a.liabilities
        case Some((buying, selling)) => row.buyingLiabilities == buying && row.sellingLiabilities == selling
        case None => row.buyingLiabilities == 0 == row.sellingLiabilities)
    && (if a.seqNum > 0 then row.sequenceNumber == Some(a.seqNum) else row.sequenceNumber == None)
    && row.lastModifiedLedger == e.lastModified
  }

  /** Both rows of one entry, and where their columns meet. */
  lemma RowsStateEntry(e: LedgerEntry)
    requires e.data.Account?
    ensures var account, native := AccountRowOf(e.data.entry), NativeBalanceRowOf(e.data.entry, e.lastModified);
            && StatesAccount(account, e.data.entry) && StatesNative(native, e)
            && native.accountId == account.accountId && native.balance == account.balance
            && native.numSubentries == account.numSubentries
            && (native.sequenceNumber.Some? ==> native.sequenceNumber.value == account.sequenceNumber)
  {
  }

  /** The two tables' rows for account `k` are both made from the entry `e` the stream last left it with. */
  ghost predicate OneEntry(changes: seq<Change>, k: string, e: Option<LedgerEntry>) {
    IsAccount(e) && LastEntry(changes, ALIVE, k) == e && LastEntry(changes, TOUCHED, k) == e
  }

  /**
   On every chained stream each account of the accounts table is in the native balances table, and
   both rows come from one ledger entry, the last the stream left the account with, through
   removals and recreations alike.
   */
  lemma FoldsAgree(changes: seq<Change>, accounts: seq<AccountRow>, balances: seq<NativeBalanceRow>, row: AccountRow)
    requires Chained(changes)
    requires IsTable(accounts, changes, ALIVE, ACCOUNT_ROW_FOR) && IsTable(balances, changes, TOUCHED, NATIVE_ROW_FOR)
    requires row in accounts
    ensures var e := LastEntry(changes, ALIVE, row.accountId);
            && OneEntry(changes, row.accountId, e)
            && row == AccountRowOf(e.value.data.entry)
            && StatesAccount(row, e.value.data.entry)
            && exists native | native in balances :: StatesNative(native, e.value)
  {
    AccountRowEntry(changes, accounts, row);
    ChainedEntries(changes, row.accountId);
    NativeRowPresent(changes, balances, row.accountId);
    RowsStateEntry(LastEntry(changes, ALIVE, row.accountId).value);
  }

  /** The last change the native balances table takes an entry for account `k` from. */
  ghost function LastTouch(changes: seq<Change>, k: string): Option<Change> {
    if changes == [] then None else
      var c := changes[|changes| - 1];
      if TouchedEntry(c).Some? && TouchedEntry(c).value.data.entry.id == k then Some(c)
      else LastTouch(changes[..|changes| - 1], k)
  }

  /** The account's last change leaves it alive, or removes the very entry it was last left with. */
  ghost predicate EndsInStep(changes: seq<Change>, k: string) {
    LastTouch(changes, k).Some? &&
    var c := LastTouch(changes, k).value;
    IsAccount(c.post) || c.pre == LastEntry(changes, ALIVE, k)
  }

  /** On any stream, for any account in the accounts table: exactly when both tables read one entry. */
  lemma {:induction false} OneEntryExactly(changes: seq<Change>, k: string)
    requires LastEntry(changes, ALIVE, k).Some?
    ensures OneEntry(changes, k, LastEntry(changes, ALIVE, k)) <==> EndsInStep(changes, k)
  {
    LastEntryIsAccount(changes, ALIVE, k);
    var front, c := changes[..|changes| - 1], changes[|changes| - 1];
    assert TOUCHED(c) == TouchedEntry(c) && ALIVE(c) == AliveEntry(c);
    if !(TouchedEntry(c).Some? && TouchedEntry(c).value.data.entry.id == k) {
      OneEntryExactly(front, k);
    }
  }

  lemma {:induction false} AliveIsTouched(changes: seq<Change>, k: string)
    requires LastEntry(changes, ALIVE, k).Some?
    ensures LastEntry(changes, TOUCHED, k).Some?
  {
    var c := changes[|changes| - 1];
    assert TOUCHED(c) == TouchedEntry(c) && ALIVE(c) == AliveEntry(c);
    if !(IsAccount(TOUCHED(c)) && TOUCHED(c).value.data.entry.id == k) {
      AliveIsTouched(changes[..|changes| - 1], k);
    }
  }

  /**
   So on every stream, chained or not, each account of the accounts table is in the native balances
   table, and the entries behind its two rows are one exactly when its last change is in step.
   */
  lemma TablesAgreeExactly(changes: seq<Change>, accounts: seq<AccountRow>, balances: seq<NativeBalanceRow>, row: AccountRow)
    requires IsTable(accounts, changes, ALIVE, ACCOUNT_ROW_FOR) && IsTable(balances, changes, TOUCHED, NATIVE_ROW_FOR)
    requires row in accounts
    ensures var e, t := LastEntry(changes, ALIVE, row.accountId), LastEntry(changes, TOUCHED, row.accountId);
            && IsAccount(e) && StatesAccount(row, e.value.data.entry)
            && IsAccount(t) && (exists native | native in balances :: StatesNative(native, t.value))
            && (e == t <==> EndsInStep(changes, row.accountId))
  {
    hide LastEntry, EndsInStep, IsTable;
    AccountRowEntry(changes, accounts, row);
    AliveIsTouched(changes, row.accountId);
    NativeRowPresent(changes, balances, row.accountId);
    RowsStateEntry(LastEntry(changes, ALIVE, row.accountId).value);
    RowsStateEntry(LastEntry(changes, TOUCHED, row.accountId).value);
    OneEntryExactly(changes, row.accountId);
  }

  /** Without the chain they can differ: a removal whose Pre is not the last Post. */
  lemma UnchainedFoldsDiffer()
    ensures var e1 := AccountEntry("G", 1, 1, 0, None, [], []);
            var e2 := e1.(balance := 2);
            var changes := [Change(true, None, Some(LedgerEntry(Account(e1), 1))), Change(true, Some(LedgerEntry(Account(e2), 1)), None)];
            LastEntry(changes, ALIVE, "G") == Some(LedgerEntry(Account(e1), 1)) &&
            LastEntry(changes, TOUCHED, "G") == Some(LedgerEntry(Account(e2), 1))
  {
    var e1 := AccountEntry("G", 1, 1, 0, None, [], []);
    var first := Change(true, None, Some(LedgerEntry(Account(e1), 1)));
    var second := Change(true, Some(LedgerEntry(Account(e1.(balance := 2)), 1)), None);
    assert [first, second][..1] == [first];
    assert ALIVE(second) == None;
  }

  // Account signers.

  datatype SignerRow = SignerRow(accountId: string, signer: string, weight: int, sponsor: string, deleted: bool)

  /** One assignment into signerMap. */
  datatype SignerWrite = SignerWrite(key: string, row: SignerRow)

  /** The entry a change is read from: the one left behind, else the one removed. */
  function SubjectEntry(c: Change): Option<LedgerEntry> {
    if !c.ofAccount then None else if c.post.Some? then c.post else c.pre
  }

  /** MustAccount panics on anything else. */
  predicate Readable(c: Change) {
    SubjectEntry(c).Some? ==> IsAccount(SubjectEntry(c))
  }

  function SignerCount(c: Change): nat {
    if IsAccount(SubjectEntry(c)) then |SubjectEntry(c).value.data.entry.signers| else 0
  }

  function DedupeKey(accountId: string, signer: string): string {
    accountId + ":" + signer
  }

  /** The write for the `j`-th signer a change lists. */
  function WriteAt(c: Change, j: nat): SignerWrite
    requires j < SignerCount(c)
  {
    var e := SubjectEntry(c).value.data.entry;
    var sponsor := if j < |e.sponsorIDs| && e.sponsorIDs[j].Some? then e.sponsorIDs[j].value else "";
    SignerWrite(DedupeKey(e.id, e.signers[j].key),
                SignerRow(e.id, e.signers[j].key, e.signers[j].weight, sponsor, c.post.None?))
  }

  /** (i, j) addresses a signer listing: change `i`, its `j`-th signer. */
  ghost predicate Lists(changes: seq<Change>, i: int, j: int, key: string) {
    0 <= i < |changes| && 0 <= j < SignerCount(changes[i]) && WriteAt(changes[i], j).key == key
  }

  predicate Before(p: int, q: int, i: int, j: int) {
    p < i || (p == i && q < j)
  }

  /** `row` was written for `key` at (i, j), the last such listing before (n, k). */
  ghost predicate ListingBefore(changes: seq<Change>, n: nat, k: nat, key: string, row: SignerRow, i: int, j: int) {
    Lists(changes, i, j, key) && Before(i, j, n, k) && row == WriteAt(changes[i], j).row &&
    forall p, q :: Lists(changes, p, q, key) && Before(p, q, n, k) ==> !Before(i, j, p, q)
  }

  ghost predicate HasListingBefore(changes: seq<Change>, n: nat, k: nat, key: string, row: SignerRow) {
    exists i, j :: ListingBefore(changes, n, k, key, row, i, j)
  }

  /** For every key listed before (n, k) the map holds the row of its last such listing. */
  ghost predicate IsSignerFold(m: map<string, SignerRow>, changes: seq<Change>, n: nat, k: nat) {
    && (forall i, j, key :: Lists(changes, i, j, key) && Before(i, j, n, k) ==> key in m)
    && (forall key | key in m :: HasListingBefore(changes, n, k, key, m[key]))
  }

  lemma SignerStart(changes: seq<Change>)
    ensures IsSignerFold(map[], changes, 0, 0)
  {
  }

  lemma SignerStep(m: map<string, SignerRow>, changes: seq<Change>, n: nat, k: nat)
    requires n < |changes| && k < SignerCount(changes[n]) && IsSignerFold(m, changes, n, k)
    ensures var w := WriteAt(changes[n], k); IsSignerFold(m[w.key := w.row], changes, n, k + 1)
  {
    var w := WriteAt(changes[n], k);
    var m' := m[w.key := w.row];
    forall key | key in m' ensures HasListingBefore(changes, n, k + 1, key, m'[key]) {
      if key == w.key {
        assert ListingBefore(changes, n, k + 1, key, m'[key], n, k);
      } else {
        assert HasListingBefore(changes, n, k, key, m[key]);
        var i, j :| ListingBefore(changes, n, k, key, m[key], i, j);
        assert ListingBefore(changes, n, k + 1, key, m'[key], i, j);
      }
    }
  }

  lemma SignerNext(m: map<string, SignerRow>, changes: seq<Change>, n: nat)
    requires n < |changes| && IsSignerFold(m, changes, n, SignerCount(changes[n]))
    ensures IsSignerFold(m, changes, n + 1, 0)
  {
    var k := SignerCount(changes[n]);
    forall key | key in m ensures HasListingBefore(changes, n + 1, 0, key, m[key]) {
      assert HasListingBefore(changes, n, k, key, m[key]);
      var i, j :| ListingBefore(changes, n, k, key, m[key], i, j);
      assert ListingBefore(changes, n + 1, 0, key, m[key], i, j);
    }
  }

  /** The loops of ExtractAccountSigners; Err stands for the panic of MustAccount. */
  method FoldSigners(changes: seq<Change>) returns (r: Result<map<string, SignerRow>, string>)
    ensures r.Err? <==> exists c | c in changes :: !Readable(c)
    ensures r.Ok? ==> IsSignerFold(r.value, changes, |changes|, 0)
  {
    hide IsSignerFold, WriteAt, SignerCount;
    var signerMap: map<string, SignerRow> := map[];
    SignerStart(changes);
    for n := 0 to |changes|
      invariant forall p | 0 <= p < n :: Readable(changes[p])
      invariant IsSignerFold(signerMap, changes, n, 0)
    {
      var change := changes[n];
      if SubjectEntry(change).Some? && !SubjectEntry(change).value.data.Account? {
        assert changes[n] in changes && !Readable(changes[n]);
        return Err("panic: not an account");
      }
      for k := 0 to SignerCount(change)
        invariant IsSignerFold(signerMap, changes, n, k)
      {
        SignerStep(signerMap, changes, n, k);
        var w := WriteAt(change, k);
        signerMap := signerMap[w.key := w.row];
      }
      SignerNext(signerMap, changes, n);
    }
    return Ok(signerMap);
  }

  /** ExtractAccountSigners. */
  method ExtractAccountSigners(stream: Result<seq<Change>, string>) returns (r: Result<seq<SignerRow>, string>)
    ensures stream.Err? ==> r == Ok([])
    ensures stream.Ok? ==> (r.Err? <==> exists c | c in stream.value :: !Readable(c))
    ensures stream.Ok? && r.Ok? ==> IsSignerTable(r.value, stream.value)
  {
    if stream.Err? {
      return Ok([]);
    }
    var folded := FoldSigners(stream.value);
    if folded.Err? {
      return Err(folded.error);
    }
    FnName.StringLeqIsTotal();
    var rows := Ordering.SortedMapValues(FnName.STRING_LEQ, folded.value);
    return Ok(rows);
  }

  ghost predicate IsSignerTable(rows: seq<SignerRow>, changes: seq<Change>) {
    && Ordering.TotalOrder(FnName.STRING_LEQ)
    && exists m :: IsSignerFold(m, changes, |changes|, 0) && rows == Ordering.InKeyOrder(FnName.STRING_LEQ, m)
  }

  /** The row states the `j`-th signer of the entry; its sponsor is "" when the entry lists none there. */
  ghost predicate StatesListing(row: SignerRow, e: AccountEntry, j: int)
    requires 0 <= j < |e.signers|
  {
    && row.accountId == e.id && row.signer == e.signers[j].key && row.weight == e.signers[j].weight
    && row.sponsor == if j < |e.sponsorIDs| && e.sponsorIDs[j].Some? then e.sponsorIDs[j].value else ""
  }

  /** `row` is what the last change listing (account, signer) says of it. */
  ghost predicate FromLastListing(changes: seq<Change>, row: SignerRow, i: int, j: int) {
    && 0 <= i < |changes| && 0 <= j < SignerCount(changes[i])
    && (var c := changes[i];
        var e := if c.post.Some? then c.post else c.pre;
        IsAccount(e) && j < |e.value.data.entry.signers| && StatesListing(row, e.value.data.entry, j))
    && (row.deleted <==> changes[i].post.None?)
    && forall p, q :: Lists(changes, p, q, DedupeKey(row.accountId, row.signer)) ==> !Before(i, j, p, q)
  }

  lemma SignerFoldRow(m: map<string, SignerRow>, changes: seq<Change>, key: string)
    requires IsSignerFold(m, changes, |changes|, 0) && key in m
    ensures key == DedupeKey(m[key].accountId, m[key].signer)
    ensures exists i, j :: FromLastListing(changes, m[key], i, j)
  {
    assert HasListingBefore(changes, |changes|, 0, key, m[key]);
    var i, j :| ListingBefore(changes, |changes|, 0, key, m[key], i, j);
    assert FromLastListing(changes, m[key], i, j);
  }

  /** The map behind a table holds each row under its own key. */
  lemma SignerTableMap(rows: seq<SignerRow>, changes: seq<Change>) returns (m: map<string, SignerRow>)
    requires IsSignerTable(rows, changes)
    ensures IsSignerFold(m, changes, |changes|, 0)
    ensures forall row | row in rows :: (var key := DedupeKey(row.accountId, row.signer); key in m && m[key] == row)
    ensures forall key | key in m :: m[key] in rows
  {
    m :| IsSignerFold(m, changes, |changes|, 0) && rows == Ordering.InKeyOrder(FnName.STRING_LEQ, m);
    Ordering.InKeyOrderRows(FnName.STRING_LEQ, m);
    forall row | row in rows ensures (var key := DedupeKey(row.accountId, row.signer); key in m && m[key] == row) {
      var key :| key in m && m[key] == row;
      SignerFoldRow(m, changes, key);
    }
  }

  /** No (account, signer) pair has two positions in a signers table. */
  lemma SignerPairsDistinct(rows: seq<SignerRow>, changes: seq<Change>, i: nat, j: nat)
    requires IsSignerTable(rows, changes) && i < j < |rows|
    ensures rows[i].accountId != rows[j].accountId || rows[i].signer != rows[j].signer
  {
    var m :| IsSignerFold(m, changes, |changes|, 0) && rows == Ordering.InKeyOrder(FnName.STRING_LEQ, m);
    var keys := Ordering.Ascending(FnName.STRING_LEQ, m.Keys);
    assert keys[i] in Ordering.Elements(keys) && keys[j] in Ordering.Elements(keys);
    SignerFoldRow(m, changes, keys[i]);
    SignerFoldRow(m, changes, keys[j]);
  }

  /**
   Every row comes from the last change listing that (account, signer) pair and is marked deleted
   exactly when that change has no Post; no two positions hold one pair.
   */
  lemma SignerRows(rows: seq<SignerRow>, changes: seq<Change>, row: SignerRow)
    requires IsSignerTable(rows, changes) && row in rows
    ensures exists i, j :: FromLastListing(changes, row, i, j)
    ensures forall i, j | 0 <= i < j < |rows| :: rows[i].accountId != rows[j].accountId || rows[i].signer != rows[j].signer
  {
    forall i, j | 0 <= i < j < |rows| ensures rows[i].accountId != rows[j].accountId || rows[i].signer != rows[j].signer {
      SignerPairsDistinct(rows, changes, i, j);
    }
    var m := SignerTableMap(rows, changes);
    SignerFoldRow(m, changes, DedupeKey(row.accountId, row.signer));
  }

  /** Every listed pair has its row. */
  lemma ListedSignerHasRow(rows: seq<SignerRow>, changes: seq<Change>, i: int, j: int)
    requires IsSignerTable(rows, changes) && 0 <= i < |changes| && 0 <= j < SignerCount(changes[i])
    ensures exists row :: row in rows && DedupeKey(row.accountId, row.signer) == WriteAt(changes[i], j).key
  {
    var m := SignerTableMap(rows, changes);
    var key := WriteAt(changes[i], j).key;
    assert Lists(changes, i, j, key);
    SignerFoldRow(m, changes, key);
    assert m[key] in rows;
  }

  /** The dedup key tells (account, signer) pairs apart when account ids are free of ':'. */
  lemma DedupeKeyInjective(a: string, s: string, b: string, t: string)
    requires ':' !in a && ':' !in b && DedupeKey(a, s) == DedupeKey(b, t)
    ensures a == b && s == t
  {
    Calls.SplitAtFirst(a, b, s, t, ':');
  }
}
