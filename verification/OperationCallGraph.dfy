/**
 call_graph.go: extractCallGraph, which joins the event scan and the authorization walk,
 deduplicates the calls and summarises them.
 */
module OperationCallGraph {
  import opened Wrappers
  import opened Calls
  import opened CallGraph
  import FnName
  import Ordering
  import AuthWalk

  /** An operation; an invoked contract's address is None when it has no strkey. */
  datatype Operation =
    | InvokeContract(address: Option<ContractId>, auth: seq<AuthWalk.Invocation>)
    | OtherOperation

  datatype CallGraphResult = CallGraphResult(calls: seq<ContractCall>, contractsInvolved: seq<ContractId>, maxDepth: int)

  /** Every call found, before deduplication. */
  ghost function AllCalls(main: ContractId, events: seq<Event>, auth: seq<AuthWalk.Invocation>): seq<ContractCall> {
    Run(main, events, Start(main)).calls + AuthWalk.EntryCalls(auth, main)
  }

  /** The contracts of the calls, as the sorted column stores them. */
  ghost function SortedContracts(contracts: set<ContractId>): seq<ContractId> {
    FnName.StringLeqIsTotal();
    Ordering.Ascending(FnName.STRING_LEQ, contracts)
  }

  /** The loop that collects the contracts and the maximum depth. */
  method Summarise(main: ContractId, calls: seq<ContractCall>) returns (contracts: set<ContractId>, maxDepth: int)
    ensures contracts == ContractsOf(main, calls)
    ensures (forall c | c in calls :: c.depth <= maxDepth) && maxDepth >= 0
    ensures maxDepth == 0 || exists c :: c in calls && c.depth == maxDepth
  {
    contracts, maxDepth := {main}, 0;
    for i := 0 to |calls|
      invariant contracts == ContractsOf(main, calls[..i])
      invariant IsMaxDepth(calls[..i], maxDepth)
    {
      var call := calls[i];
      SummaryStep(main, calls, i, maxDepth);
      contracts := contracts + {call.from} + {call.to};
      if call.depth > maxDepth {
        maxDepth := call.depth;
      }
    }
    assert calls[..|calls|] == calls;
  }

  lemma SummaryStep(main: ContractId, calls: seq<ContractCall>, i: nat, d: int)
    requires i < |calls| && IsMaxDepth(calls[..i], d)
    ensures ContractsOf(main, calls[..i + 1]) == ContractsOf(main, calls[..i]) + {calls[i].from} + {calls[i].to}
    ensures IsMaxDepth(calls[..i + 1], if calls[i].depth > d then calls[i].depth else d)
  {
    var c, before, after := calls[i], calls[..i], calls[..i + 1];
    assert after == before + [c];
    assert forall x :: x in after <==> x in before || x == c;
    assert c in after;
    if d != 0 {
      var k :| k in before && k.depth == d;
      assert k in after;
    }
  }

  /** extractCallGraph. */
  method ExtractCallGraph(op: Operation, events: seq<Event>, skipped: AuthWalk.Counter)
    returns (r: Result<Option<CallGraphResult>, string>)
    modifies skipped
    ensures op.OtherOperation? ==> r == Ok(None) && skipped.value == old(skipped.value)
    ensures op.InvokeContract? && op.address.None? ==> r.Err? && skipped.value == old(skipped.value)
    ensures op.InvokeContract? && op.address.Some? ==>
              var calls := DeduplicatedByKey(AllCalls(op.address.value, events, op.auth));
              && skipped.value == old(skipped.value) + AuthWalk.EntrySkips(op.auth)
              && (r == Ok(None) <==> calls == [])
              && (calls != [] ==>
                && r.Ok? && r.value.Some?
                && r.value.value.calls == calls
                && r.value.value.contractsInvolved == SortedContracts(ContractsOf(op.address.value, calls))
                && IsMaxDepth(calls, r.value.value.maxDepth))
  {
    if op.OtherOperation? {
      return Ok(None);
    }
    if op.address.None? {
      return Err("failed to get main contract ID");
    }
    var main := op.address.value;
    var diagnosticCalls := ExtractFromDiagnosticEvents(main, events);
    var authCalls := AuthWalk.ExtractFromEntries(op.auth, main, skipped);
    var calls := DeduplicateCalls(diagnosticCalls + authCalls);
    var contracts, maxDepth := Summarise(main, calls);
    FnName.StringLeqIsTotal();
    var contractsInvolved := Ordering.SortedSetKeys(FnName.STRING_LEQ, contracts);
    if |calls| == 0 {
      return Ok(None);
    }
    return Ok(Some(CallGraphResult(calls, contractsInvolved, maxDepth)));
  }

  /**
   Whatever the events and authorization trees, when the ids they hold are strkeys: every contract of
   the stored graph is reachable from the main one along stored calls, no call is a self-call,
   and deduplication changed neither the contracts nor the maximum depth.
   */
  lemma StoredGraph(main: ContractId, events: seq<Event>, auth: seq<AuthWalk.Invocation>, c: ContractId, d: int)
    requires Clean(main) && CleanEvents(events) && forall e | e in auth :: AuthWalk.CleanTargets(e)
    ensures var all := AllCalls(main, events, auth);
            var stored := DeduplicatedByKey(all);
            && (c in ContractsOf(main, all) ==> Reachable(main, stored, c))
            && (forall call | call in stored :: call.from != call.to && call.depth >= 1)
            && ContractsOf(main, stored) == ContractsOf(main, all)
            && (IsMaxDepth(stored, d) <==> IsMaxDepth(all, d))
  {
    var scanned, walked := Run(main, events, Start(main)).calls, AuthWalk.EntryCalls(auth, main);
    var all := scanned + walked;
    ScanThenWalk(main, events, auth);
    AllCallsClean(main, events, auth);
    ByKeyIsByEdge(all);
    RootedDeduplicated(main, all);
    DeduplicationKeepsSummary(main, all, d);
    if c in ContractsOf(main, all) {
      RootedReachable(main, Deduplicated(all), c);
    }
    forall call | call in Deduplicated(all) ensures call.from != call.to && call.depth >= 1 {
      DeduplicatedEdges(all);
    }
  }

  /** The stored calls begin with those of the events, deduplicated; where both sources give a call, the events' stays. */
  lemma EventsComeFirst(main: ContractId, events: seq<Event>, auth: seq<AuthWalk.Invocation>)
    ensures DeduplicatedByKey(Run(main, events, Start(main)).calls) <= DeduplicatedByKey(AllCalls(main, events, auth))
  {
    DeduplicatedPrefix(Run(main, events, Start(main)).calls, AuthWalk.EntryCalls(auth, main));
  }

  lemma AllCallsClean(main: ContractId, events: seq<Event>, auth: seq<AuthWalk.Invocation>)
    requires Clean(main) && CleanEvents(events) && forall e | e in auth :: AuthWalk.CleanTargets(e)
    ensures CleanCalls(AllCalls(main, events, auth))
  {
    RunKeepsClean(main, events, Start(main));
    AuthWalk.EntriesClean(auth, main);
  }

  lemma ScanThenWalk(main: ContractId, events: seq<Event>, auth: seq<AuthWalk.Invocation>)
    ensures Rooted(main, AllCalls(main, events, auth))
    ensures forall call | call in AllCalls(main, events, auth) :: call.from != call.to && call.depth >= 1
  {
    StartInv(main);
    RunKeepsInv(main, events, Start(main));
    AuthWalk.EntriesRooted(auth, main);
    var scanned, walked := Run(main, events, Start(main)).calls, AuthWalk.EntryCalls(auth, main);
    RootedConcat(main, scanned, walked);
    forall call | call in scanned ensures call.from != call.to && call.depth >= 1 {
      var i :| 0 <= i < |scanned| && scanned[i] == call;
      assert ProperCall(main, scanned[i], i);
    }
  }
}
