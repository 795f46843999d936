# Verification model of stellar-extract

stellar-extract turns one Stellar ledger into typed rows. Most of it copies fields. This project
models the parts that compute something, in Dafny, and proves what they promise for every input,
every run or every schedule.

Run `dafny verify dfyconfig.toml` in this directory to check it.

## How the model is laid out

| file | source | what it holds |
|---|---|---|
| `CallGraph.dfy`, `CallTree.dfy` | `call_graph.go` | the stack machine over `fn_call`/`fn_return` events; invariants on arbitrary traces; recovery of the call tree from its linearisation |
| `AuthWalk.dfy` | `call_graph.go` | the depth-limited walk over authorization trees, with its shared counters |
| `Calls.dfy`, `OperationCallGraph.dfy` | `call_graph.go` | key deduplication, the summary, and the stored graph as a whole |
| `FnName.dfy` | `call_graph.go` | the recursive search for `fn_name` |
| `ExtractAll.dfy` | `extract.go` | goroutines, mutex, WaitGroup and decode-once caches as interleaved steps |
| `Leb128.dfy`, `Wasm.dfy` | `soroban.go` | the signed LEB128 decoder and the WebAssembly section scanner |
| `ContractEvents.dfy` | `soroban.go`, `transactions.go` | the parsed and the view path of contract events, and transaction numbering |
| `ChangeFolds.dfy`, `Ordering.dfy` | `accounts.go`, `ordering.go` | last-write-wins folds of the change stream, and the key sort |
| `Effects.dfy` | `effects.go` | signer diffs, sponsorship and pool lifecycle records, Stellar asset contract movements |
| `Trades.dfy` | `trades.go`, `effects.go` | trade rows and the trade effects that mirror them |
| `WideIntegers.dfy` | `scval_converter.go` | integers of 128 and 256 bits, their decimal and hex forms, muxed id packing |
| `Text.dfy`, `Wrappers.dfy` | | Go string order and `%d`; Option and Result |

Code that updates variables in a loop is a method with loop invariants; an object whose methods
change it (`efx`, the `*int` counter, a decode cache, `big.Int`) is a class. Each such member is
proved against a specification function or predicate, and the properties are lemmas about that
specification. Map iteration picks an arbitrary remaining key. Foreign code is a parameter: the
event codec, strkey and hex renderings, the pool lookup, readers that yield items and then end or
fail.

## What turned out false, and what holds instead

* **Section sizes and counts.** The scanner reads unsigned LEB128 (WebAssembly Core Specification,
  section 5.2.2) with a signed decoder. An encoding of n in k bytes is read as n - 2^(7k) exactly
  when bit 7k-1 of n is set (`Leb128.UnsignedReading`); a 64-byte section already stops the scan
  (`Leb128.SixtyFourIsMisread`, `Wasm.AllSectionsVisited`). Such a count comes out negative.
* **Call-tree recovery** needs three hypotheses, and is equivalent to them
  (`CallTree.CallTreeRecovery`): no contract calls itself, the main contract is not re-entered, and
  the leading call is named, either by its own event or alike by both rules' fallbacks. One failing
  trace is given for each.
* **The section slice.** The bounds test adds offset and size as 64-bit ints. The slice leaves the
  bounds exactly when the size the scan stops on exceeds 2^63 - 1 minus the offset
  (`Wasm.ParseWASMMetadata`, `Wasm.HugeSizeOverruns`); no well-formed module does that.
* **The hex form of a negative i256.** Its top word is a signed integer and `%016x` prints a minus
  sign, so the hex form is the expansion of the value mod 2^256 exactly when the value is not
  negative (`WideIntegers.Int256HexExpands`). It still tells words apart.
* **Trade rows and trade effects** mirror in amounts, assets and position, but a V0 row names its
  seller in hex where the effects use a strkey (`Trades.TradesMirror`). They name the same buyer
  exactly when an offer has no source account other than the transaction's, and a path payment goes
  to its own source (`Trades.BuyersAgreeExactly`, `Trades.BuyersDiffer`). A nonzero pool claim has a row
  and no effect exactly when the operation's changes cannot be read or none carries the pool.
* **Sponsorship records** of a trustline name only its account, those of a data entry only its name.
  Selecting them from an operation's mixed changes gives that entry's own records exactly when the
  operation changes the sponsor of no rival: no other trustline of the account, no data entry of that
  name of another account (`Effects.SelectedRecords`, `Effects.TrustlineAndDataRecordsAreAmbiguous`).
  Accounts, claimable balances and pools have no rivals.
* **The code section's byte length** is reported exactly when the section declares a positive number
  of functions in an encoding whose last group is below 64; otherwise an earlier code section's
  length, or none, is (`Wasm.CodeLengthExactly`). A module of 64 functions reports none
  (`Wasm.SixtyFourFunctionsUnreported`).
* **Event ids** are distinct exactly when no transaction has more than 2^32 events
  (`ContractEvents.LedgerIdsDistinct`).
* **The two account tables** read one entry for an account exactly when the last change touching it
  leaves it alive or removes the very entry it was last left with (`ChangeFolds.TablesAgreeExactly`);
  chained streams are a case of that, and an unchained one can fail (`ChangeFolds.UnchainedFoldsDiffer`).

## Model

| member | source | states |
|---|---|---|
| CallGraph.ScanEvent | call_graph.go:121-233 | one pass of the event loop, in place, is one step of the stack machine: Pattern 1, then Pattern 2, then the stack |
| CallGraph.ExtractFromDiagnosticEvents | call_graph.go:103-236 | the loop over all events is a run of the machine from the stack [main] at depth 0 |
| CallGraph.CallsComeFromEvents | call_graph.go:127-217 | on every event list each recorded call comes from a fn_call event of the list, at the callee or at main just before the callee, and carries that event's arguments and success flag; its name is the event's own when known (for a call recorded at main, the next fn_call event's first), else one bound to fn_name anywhere in the arguments, and "unknown" only when none is |
| CallGraph.StepKeepsInv | call_graph.go:121-233 | whatever the event, a step keeps: main at the bottom of the stack, depth one less than its height, no equal neighbours, every contract on it main or an earlier callee; calls numbered by position, from ≠ to, depth ≥ 1, never into main, each from main or an earlier callee |
| CallGraph.RunKeepsInv | call_graph.go:121-233 | the same over every event list, however ill-nested |
| CallTree.ScanForest | call_graph.go:121-233 | running what a contract does records the preorder edges of its call tree and leaves stack and depth as they were |
| CallTree.ScanTrace | call_graph.go:121-233 | a whole trace records Pattern 1's edge for the leading call, then the tree; the stack returns to [main] at depth 0 |
| CallTree.CallTreeRecovery | call_graph.go:103-236 | for every forest of calls: scanning its trace and deduplicating by key gives the first occurrences of its preorder edges if and only if nobody calls itself, main is not re-entered, and the leading callee's event has a known name or both rules' fallback names agree |
| CallTree.LeadNamedExactly | call_graph.go:149-202 | that third condition is when Pattern 1 and Pattern 2 name the leading call alike |
| CallTree.SelfCallNotRecovered | call_graph.go:219-232 | a trace with a self-call, the other two conditions holding, that is not recovered |
| CallTree.ReentryNotRecovered | call_graph.go:184-217 | a trace that re-enters main, the other two holding, that is not recovered |
| CallTree.UnnamedLeadNotRecovered | call_graph.go:149-166 | a trace whose leading callee has no name, the other two holding, that is not recovered |
| CallTree.SelfCallMisattributes | call_graph.go:212-230 | after a self-call, which is popped but was not pushed, the contract's next call is attributed to its own caller, one level too high |
| CallTree.RecoveredEdges | call_graph.go:103-236 | on every trace the recovered edges are the first occurrences of the scan's edges, without self-calls or calls into main |
| AuthWalk.AddressContractStrKey | call_graph.go:319-337 | a non-contract or unencodable address bumps the skip counter by one; a contract address does not |
| AuthWalk.ExtractFromInvocation | call_graph.go:261-317 | the recursive walk returns the calls of the tree below depth 10, advances the order counter by their number, and the skip counter by the untargeted nodes |
| AuthWalk.ExtractFromEntries | call_graph.go:240-258 | one order counter runs through all entries |
| AuthWalk.WalkIsPreorder | call_graph.go:261-317 | the recorded calls are the preorder of the tree cut at depth 10: each carries its node's contract and function name, its caller the nearest ancestor naming a contract, its depth the path's length; self-calls and non-contract nodes are left out |
| AuthWalk.EntriesArePreorder | call_graph.go:240-317 | the same over all entries, with ExecutionOrder 0, 1, 2, ... without a gap |
| AuthWalk.ChainRecordsTen | call_graph.go:261-317 | a chain of contracts, each calling the next, records exactly its first ten calls, each with its function name, caller, depth and position |
| AuthWalk.SkipsAreUntargeted | call_graph.go:281-337 | the skip counter grows by the number of visited nodes with a payload and no contract address |
| AuthWalk.NodesAccountedFor | call_graph.go:240-337 | visited contract-function nodes with a payload = recorded calls + self-calls + increase of the skip counter |
| AuthWalk.EntriesRooted | call_graph.go:240-317 | every call of the walk starts at main or at an earlier call's target, is no self-call and has depth 1 to 10 |
| Calls.KeyInjective | call_graph.go:464-465 | the formatted key determines from, to, function and depth for ids free of - and :, whatever the function name holds |
| Calls.KeyAmbiguousWithoutCleanIds | call_graph.go:464-465 | two different edges with one key when an id may hold the separator |
| Calls.DeduplicateCalls | call_graph.go:460-473 | the loop with its seen map keeps the calls whose key did not occur earlier |
| Calls.ByKeyIsByEdge | call_graph.go:460-473 | with strkey ids, deduplicating by key is deduplicating by (from, to, function, depth) |
| Calls.DeduplicatedEdges | call_graph.go:460-473 | what is kept is the order-preserving list of first occurrences |
| Calls.DeduplicatedIdempotent | call_graph.go:460-473 | deduplicating twice by key is deduplicating once, whatever the ids |
| Calls.DeduplicationKeepsSummary | call_graph.go:68-79 | deduplication changes neither the contracts involved nor the maximum depth |
| Calls.RootedReachable | call_graph.go:56-79 | when every call starts at main or an earlier target, every contract involved is reachable from main along the calls |
| Calls.RootedDeduplicated | call_graph.go:68-69 | that property survives deduplication |
| OperationCallGraph.Summarise | call_graph.go:71-79 | the loop collects exactly the contracts of the calls and their maximum depth |
| OperationCallGraph.ExtractCallGraph | call_graph.go:29-98 | other operations give nothing, an address without strkey an error, no calls nothing; otherwise the deduplicated calls of both sources with sorted contracts and maximum depth |
| OperationCallGraph.StoredGraph | call_graph.go:56-98 | for all events and authorization trees with strkey ids: every contract of the stored graph is reachable from main along stored calls, none is a self-call, and contracts and depth are those before deduplication |
| OperationCallGraph.EventsComeFirst | call_graph.go:60-69 | the stored calls begin with those of the events; where both sources give a call, the events' one stays |
| FnName.NamesAreBindings | call_graph.go:429-457 | the names listed in search order are exactly those some object anywhere in the structure binds to fn_name |
| FnName.FindsIffBound | call_graph.go:429-457 | the answer is non-empty if and only if some map anywhere binds fn_name to a non-empty string, and is then such a name |
| FnName.FindsFirst | call_graph.go:429-457 | an object's own binding wins; else the answer is that of its least key with one, in Go's string order; an array's that of its first item with one |
| Text.LeqIsLexicographic | ordering.go:25-37 | the string order used for keys is the lexicographic one |
| FnName.FindFnNameRecursive | call_graph.go:429-457 | the search returns the first such name in sorted-key preorder, whatever order maps are iterated in, and terminates |
| ExtractAll.StepKeepsInv | extract.go:160-200 | every atomic step of every goroutine keeps: the lock has its one holder, caches are fresh, being filled by one decoder or complete, answers so far are those of a run alone, slots and errors written are the sequential ones |
| ExtractAll.ScheduleIndependence | extract.go:160-383 | in every interleaving that reaches the end of Wait each slot is the rows its extractor, run alone, ends in, and empty if it fails or panics; the errors are a permutation of one per failing extractor, made of its name and what went wrong, so their number is that of the extractors not ending in rows; each cache was decoded at most once |
| ExtractAll.WriteIsOutcome | extract.go:165-195 | what a goroutine writes under the mutex is the slot or the error its outcome calls for |
| ExtractAll.ReadsAreComplete | extract.go:53-108 | at every moment of every interleaving a goroutine about to read a cache finds it complete |
| ExtractAll.SomeActorEnabled | extract.go:160-383 | until Wait returns some goroutine can move: no deadlock |
| ExtractAll.StepDecreases | extract.go:160-383 | every step decreases a measure |
| ExtractAll.SchedulesAreBounded | extract.go:160-383 | so no schedule is longer than the initial measure |
| ExtractAll.WaitIsReached | extract.go:160-383 | from every reachable state the end of Wait can be reached |
| ExtractAll.Cache.Get | extract.go:53-108 | every call gives the decode's answer, failures included; the first call decodes, later ones do not |
| Leb128.DecodeLEB128 | soroban.go:872-892 | the shift-and-or loop over 64-bit patterns computes the signed reading of the first encoding, with the ten-byte cap |
| Leb128.SignedRoundTrip | soroban.go:872-892 | decoding the signed LEB128 encoding of any int64, whatever follows it, gives the value and the exact byte count |
| Leb128.TopGroupIsTopBit | soroban.go:881-887 | bit 6 of the last group is bit 7k-1 of the number encoded |
| Leb128.UnsignedReading | soroban.go:872-892 | on an unsigned encoding of n in k ≤ 9 bytes the result is n if bit 7k-1 is clear and n - 2^(7k) if set: right, respectively negative, if and only if |
| Leb128.EncodeUnsignedIsUnsigned | soroban.go:872-892 | every n below 2^63 has such an encoding |
| Leb128.SixtyFourIsMisread | soroban.go:872-892 | 64 in one byte is read as -64 |
| Wasm.CountWASMElements | soroban.go:863-869 | the count read from a section's first bytes, 0 for an empty section |
| Wasm.Scan | soroban.go:807-818 | every section visited takes at least two bytes |
| Wasm.ScanAt | soroban.go:803-823 | from any offset the scan stops or visits one section, at least two bytes further on |
| Wasm.BoundsTest | soroban.go:818-822 | for every offset, size and length: the sum stops the scan if and only if it does not wrap and exceeds the length; past the test, the slice is in bounds if and only if the size is at most 2^63 - 1 - offset |
| Wasm.RecordSection | soroban.go:826-856 | recording a section turns the summary of the sections so far into the summary including it |
| Wasm.FieldsAbsent | soroban.go:791-860 | a count field is absent if and only if no visited section has its id; the code length if and only if no visited code section reads a positive count |
| Wasm.ParseWASMMetadata | soroban.go:791-860 | on every byte string a slice can hold the loop terminates; it slices out of bounds if and only if the size it stops on wraps the sum, and otherwise reports per section id the last visited occurrence's count or length; without the magic number every field is absent |
| Wasm.WellFormedStaysInBounds | soroban.go:818-822 | on a well-formed module it never does, misread sizes or not |
| Wasm.HugeSizeOverruns | soroban.go:818-822 | a section of declared size 2^63 - 1 does |
| Wasm.ScanVisitsReadablePrefix | soroban.go:791-860 | on every sequence of well-formed sections the scan visits exactly those before the first whose size is misread |
| Wasm.AllSectionsVisited | soroban.go:791-860 | all sections of a module are visited if and only if every size encoding ends in a 7-bit group below 64 |
| Wasm.CountReadsUnsigned | soroban.go:863-869 | a declared count is reported right if and only if its last group is below 64, and else is negative |
| Wasm.MetadataReportsLastSections | soroban.go:791-860 | for every module whose sizes read right and the last section of each id: its field is the declared element count if and only if that count's last group is below 64; the data byte length is that of the last data section |
| Wasm.CodeLengthExactly | soroban.go:845-850 | the code byte length is the last code section's if it declares a positive count whose last group is below 64, and else whatever the sections before it gave: nothing, when it is the only one |
| Wasm.SixtyFourFunctionsUnreported | soroban.go:845-850 | a module whose one code section declares 64 functions reports no code length |
| ContractEvents.ExtractContractEvents | soroban.go:36-101 | the parsed path: every transaction's events in stream order under one index; a failed reader gives no rows, a failed transaction is skipped but counted |
| ContractEvents.ExtractView | soroban.go:117-195 | one transaction view fails if and only if some raw event does not decode; else its rows are those of the transaction it decodes to |
| ContractEvents.ExtractContractEventsFromViews | soroban.go:115-198 | the ledger fails if and only if some view does; else the rows are those of the transactions read |
| ContractEvents.ViewReadsBack | soroban.go:115-198 | given the codec round trip a view reads as exactly the transaction it was made from |
| ContractEvents.ViewRefinesParsed | soroban.go:36-198 | given the codec round trip and no read errors the view path succeeds with the parsed path's rows, in the same order |
| ContractEvents.TransactionIds | transactions.go:31-188 | TransactionData's id for the i-th transaction, counted from one |
| ContractEvents.IndicesCount | soroban.go:66-98 | event indices are 0, 1, ..., n-1 across the three streams of a transaction, mod 2^32 |
| ContractEvents.RowsCarryTheirTransaction | soroban.go:49-98 | every row carries its own transaction's hash and id, whichever earlier transactions were skipped on error |
| ContractEvents.RowsStateTheirEvents | soroban.go:66-98 | a transaction's rows are its diagnostic events, its operations' events group by group, then its own events, each row stating its event, type, success, operation and stream, its ledger and transaction, and an id of hash and index |
| ContractEvents.TransactionIdLayout | transactions.go:182-183 | a transaction id divided by 2^32 is the ledger, by 2^12 mod 2^20 the position counted from one, mod 2^12 it is 0 (SEP-0035); the next transaction's is 4096 more |
| ContractEvents.RowsInLayout | soroban.go:49-98 | every row, of either path, carries in that layout the position of the transaction whose hash it carries |
| ContractEvents.ToIdInjective | transactions.go:182-183 | within its field widths a transaction id determines ledger, transaction and operation |
| ContractEvents.EventIdInjective | soroban.go:223-290 | the event id determines hash and index |
| ContractEvents.TxIdsDistinct | soroban.go:66-98 | within a transaction event ids are distinct if and only if it has at most 2^32 events |
| ContractEvents.LedgerIdsDistinct | soroban.go:49-98 | over a ledger with distinct hashes, event ids are distinct if and only if no transaction has more than 2^32 events |
| Ordering.AscendingUnique | ordering.go:25-37 | an ascending duplicate-free list is determined by its elements |
| Ordering.SortedSetKeys | ordering.go:43-50 | whatever order the set is enumerated in, the result is its one ascending list |
| Ordering.SortedMapValues | ordering.go:25-37 | whatever order the map is enumerated in, the result is its values in ascending key order |
| Ordering.InKeyOrderRows | ordering.go:25-37 | one row per key: exactly the map's values |
| ChangeFolds.FoldAccounts | accounts.go:28-48 | the map holds per account the row of the last entry left behind |
| ChangeFolds.FoldNativeBalances | accounts.go:355-426 | the map holds per account the row of the last entry touched, removals included |
| ChangeFolds.ExtractAccounts | accounts.go:16-53 | the accounts table, or nothing when the reader fails |
| ChangeFolds.ExtractNativeBalances | accounts.go:343-431 | the native balances table, or nothing when the reader fails |
| ChangeFolds.TableUnique | accounts.go:25-52 | a table is determined by the stream: same rows, same order, on every run |
| ChangeFolds.TableRows | accounts.go:343-431 | a row is in the table if and only if it is the row of some account's last picked entry |
| ChangeFolds.RowsStateEntry | accounts.go:378-423 | both tables' rows state the columns of the entry behind them, and agree on account, balance, subentries and sequence |
| ChangeFolds.FoldsAgree | accounts.go:16-53 | on every chained stream each account of the accounts table is in the native balances table, and both rows are made from the one entry the stream last left the account with, through removals and recreations |
| ChangeFolds.OneEntryExactly | accounts.go:355-372 | on any stream, for any account in the accounts table, both folds end on one entry if and only if its last change leaves it alive or has the last entry left behind as its Pre |
| ChangeFolds.TablesAgreeExactly | accounts.go:343-431 | on any stream each account of the accounts table is in the native balances table, with the entries behind the two rows one under exactly that condition |
| ChangeFolds.UnchainedFoldsDiffer | accounts.go:355-372 | on an unchained stream the two can come from different entries |
| ChangeFolds.FoldSigners | accounts.go:274-335 | the nested loops keep, per (account, signer), the last listing's row; they panic if and only if an account change holds another entry |
| ChangeFolds.ExtractAccountSigners | accounts.go:262-340 | the signers table, or nothing when the reader fails |
| ChangeFolds.SignerRows | accounts.go:262-340 | every row states the signer, weight and sponsor of the last change that lists that signer and is marked deleted if and only if that change has no Post; no two positions of the table hold one (account, signer) pair |
| ChangeFolds.ListedSignerHasRow | accounts.go:311-333 | every listed (account, signer) pair has its row |
| ChangeFolds.DedupeKeyInjective | accounts.go:318 | the key account:signer determines both |
| Effects.Efx.AddSignerEffects | effects.go:476-509 | the two sorted loops append the signer diff, and nothing when the maps are equal |
| Effects.Efx.AddSetOptionsSignerEffects | effects.go:465-510 | the diffs of all account changes with both states, in order |
| Effects.SignerDiffIsPatch | effects.go:476-509 | applying the removed, updated and created effects in order to before gives after, for any two signer maps |
| Effects.SignerDiffIsMinimal | effects.go:476-509 | each address gets at most one effect, and there is none if and only if the maps are equal |
| Effects.SignerDiffExactly | effects.go:476-509 | exactly the signers removed, reweighted or added get a record, of that type and with the new weight; those held before first, then the new ones, each group in key order |
| Effects.SignerRunIsPatch | effects.go:465-510 | over any run of changes to one account the records applied in order give its final signers |
| Effects.Efx.AddSponsorshipEffects | effects.go:898-949 | the branches append a created, updated or removed record exactly when the sponsor changed |
| Effects.Efx.AddLPLifecycleEffects | effects.go:952-967 | a record exactly when a pool appears or disappears |
| Effects.Efx.AddChangeEffects | effects.go:1057-1064 | both, for every change of an operation in order |
| Effects.SponsorshipReplay | effects.go:898-949 | replaying the records of any chained run from the initial sponsor gives the final sponsor, every former_sponsor matching the state it is applied to |
| Effects.SponsorshipReplayExactly | effects.go:898-949 | for every entry type: that holds if and only if the type is in the table or the sponsor ended where it began |
| Effects.SponsorshipRecordsExactly | effects.go:898-949 | a change has a record if and only if its type is in the table and the sponsor differs; the record's account, type, sponsors, data name and balance id are stated |
| Effects.LifecycleRecordsExactly | effects.go:952-967 | a pool's change has a record if and only if the pool appears or disappears, under the source account, with the pool's id |
| Effects.LifecycleAlternates | effects.go:952-967 | a pool's created and removed records alternate, from its initial to its final presence |
| Effects.AlternatesDiffer | effects.go:952-967 | no two neighbouring records of a pool are alike |
| Effects.SelectedRecords | effects.go:1057-1064 | in an operation whose changes mix entries, the records that can be about an entry are the records of its own changes, in order, if and only if no rival's sponsor changes; accounts, claimable balances and pools have no rivals |
| Effects.SelectionCounts | effects.go:1057-1064 | each rival adds exactly one record to that selection |
| Effects.MixedSponsorshipReplay | effects.go:898-949 | so within any operation's records those about one account or claimable balance, or about a trustline or data entry without rivals, replay to its final sponsor |
| Effects.MixedLifecycle | effects.go:952-967 | and those about one pool alternate from its initial to its final presence |
| Effects.TrustlineAndDataRecordsAreAmbiguous | effects.go:922-948 | two trustlines of an account, or two accounts' data entries of one name, give equal records |
| Effects.Efx.AddSacEffects | effects.go:774-834 | an event appends its movements: for a transfer one debit and one credit of the same amount and asset, whether each side is an account or a contract |
| Effects.Efx.AddInvokeHostFunctionEffects | effects.go:765-835 | the movements of every event in order; nothing without a network or when events cannot be read |
| Effects.SacConservation | effects.go:765-835 | for any events and any asset, credited minus debited amounts emitted equal mints minus burns minus clawbacks |
| Effects.SacPartyBalance | effects.go:765-835 | for each account or contract and asset, credits minus debits under its name are what the events moved to it |
| Effects.MovementsInForm | effects.go:765-835 | account effects go to accounts, contract effects name a contract; credits come of transfers and mints, debits of transfers, clawbacks and burns |
| Trades.TradeFromClaim | trades.go:156-219 | the claim's row, or none for an unknown arm |
| Trades.AppendTradesFromClaims | trades.go:132-148 | the loop appends the rows of the surviving claims |
| Trades.RowsAreSurvivingClaims | trades.go:132-148 | a row is in the result if and only if it is that of a nonzero known claim under its own position; indices strictly increase |
| Trades.FurtherKindsKeepIndices | trades.go:132-148 | emitting a further kind of claim adds rows and changes none, so no existing row's index moves |
| Trades.GetLiquidityPoolDelta | effects.go:179-217 | the search fails if and only if the changes cannot be read or no pool change carries the id; else it gives the state in the first that does, the one after it where there is one |
| Trades.PoolFoundExactly | effects.go:179-217 | nothing is found if and only if no pool change carries the id |
| Trades.AddTradeEffects | effects.go:376-426 | the loop appends the effects of every nonzero claim, six for an offer, at most one for a pool |
| Trades.TradesMirror | effects.go:376-426 | claim by claim, rows and effects skip exactly the same zero claims; a row and its block of effects agree on amounts and assets, buyer and seller sides swapped for an offer; the block is empty if and only if the claim is zero, or a pool's and no readable change carries the pool; every record names the offer or shows the pool as the first change carrying it does; seller names agree if and only if the claim is not V0 |
| Trades.BuyersAgreeExactly | trades.go:42-92 | with the effects' buyer resolved as sourceAccount does (effects.go:153-159): for every transaction, operation and claim with effects, the row names the effects' buyer if and only if an offer has no source other than the transaction's, or a path payment goes to its own source |
| Trades.BuyersDiffer | trades.go:42-92 | an offer and a path payment where they differ |
| Trades.ExtractTransactionTrades | trades.go:35-94 | the operation loop: offers and path payments with a successful result, nothing else |
| Trades.ExtractTrades | trades.go:15-98 | successful transactions only |
| Trades.LedgerTradesCome | trades.go:15-148 | every row is the trade of one nonzero claim of a successful operation of a successful transaction, and states it: seller, legs, price, pool, buyer and positions |
| Trades.LedgerTradesCover | trades.go:15-148 | every such claim has its row |
| Trades.RowStatesClaim | trades.go:156-219 | a row states its claim: what was sold is the selling side, the price is bought over sold |
| Trades.TradeKeysDistinct | trades.go:15-148 | over a ledger with distinct hashes, transaction hash, operation index and trade index identify a row |
| WideIntegers.Uint128ToString | scval_converter.go:347-353 | the in-place shift and add render hi·2^64 + lo; read back with its sign, the text is that value |
| WideIntegers.Int128ToString | scval_converter.go:355-366 | from the unsigned words the in-place subtract, shift and add render the two's-complement value; read back with its sign, the text is that value |
| WideIntegers.Uint256ToString | scval_converter.go:368-385 | the same for four unsigned words; read back with its sign, the text is that value |
| WideIntegers.Int256ToString | scval_converter.go:391-412 | the same for four words, the top one signed; read back with its sign, the text is that value |
| Text.DecimalReads | scval_converter.go:347-412 | the decimal rendering of any integer reads back as it, sign included |
| WideIntegers.Exactly128 | scval_converter.go:347-366 | the values reached are exactly 0 to 2^128-1, and -2^127 to 2^127-1 |
| WideIntegers.Exactly256 | scval_converter.go:368-412 | the values reached are exactly 0 to 2^256-1, and -2^255 to 2^255-1 |
| WideIntegers.DecimalsDetermineWords128 | scval_converter.go:347-366 | equal renderings if and only if equal words |
| WideIntegers.DecimalsDetermineWords256 | scval_converter.go:368-412 | equal renderings if and only if equal words |
| WideIntegers.SignedAndUnsigned | scval_converter.go:355-412 | signed and unsigned readings of the same bits differ, by 2^128 or 2^256, if and only if the top bit is set |
| WideIntegers.Uint256HexExpands | scval_converter.go:387-389 | the unsigned hex form is the 64-digit expansion of the value; it parses back to the value and its quarters to the words |
| WideIntegers.Int256HexExpands | scval_converter.go:414-416 | the signed hex form is the expansion of the value mod 2^256 if and only if the value is not negative, and starts with a minus sign otherwise |
| WideIntegers.NegativeForm | scval_converter.go:414-416 | a negative top word prints as a minus sign and its magnitude, in fifteen digits when they suffice |
| WideIntegers.Int256HexInjective | scval_converter.go:414-416 | with or without the sign, the hex form determines the words |
| WideIntegers.PackMuxed | scval_converter.go:291-295 | the copy and the byte loop fill the buffer with the key and the id in eight big-endian bytes |
| WideIntegers.PackedReads | scval_converter.go:291-295 | key and id are read back from the buffer |

## Left out

- The SDK's readers, XDR, strkey, SHA-256, base64 and token-transfer processing: foreign code; where the model meets it, it is a function parameter with the stated axiom (codec round trip, account ids starting with G, hex without G).
- JSON marshalling, logging, CreatedAt and close-time stamps, and the texts of error messages.
- The per-operation field switch of operations.go, the copying in transactions.go, ledgers.go, market.go, state.go, evicted_keys.go, contract_error.go, token_transfers.go: field copies and counters, or repeats of the folds modelled here.
- Effects other than signer, sponsorship, pool lifecycle, trade and asset-contract ones: settled by reading one branch.
- A decode that panics inside sync.Once, and the lifetime of borrowed view buffers: assumed not to happen, respectively respected.
- Goroutine scheduling finer than the steps of ExtractAll.State (lock, read of the error list, append, unlock, one item of a decode), and data races as the Go memory model defines them.
- Wasm.AddInt64: Go's int is taken as 64 bits wide; on a 32-bit platform the size is truncated first.
- Account rows carry the fields read here (balance, liabilities, sequence, subentries, signers), not every column of AccountData.
- AuthWalk: nil root invocations and credentials are not modelled; an authorization entry is its invocation tree.
- Trades.AddTradeEffects: requires known claim arms, because SellerId panics on others; liquidityPoolDetails is a parameter, and the reserve differences, which the caller drops, and the check of the pool's body type are not modelled.
- Trades.Canonical writes out the SEP-0011 form of an asset, which the source takes from the SDK.
- Effects.SacConservation: amounts are integers rather than their decimal rendering, and a credit asset's type is assumed not to be the word native.
- Text.Leq orders strings by character; Go orders them by byte, which is the same for the ASCII keys compared here.
- Retrieval of events for an operation from transaction metadata, and function-name and argument decoding from event topics: an Event holds their results.
