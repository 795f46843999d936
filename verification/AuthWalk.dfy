/**
 call_graph.go: the depth-limited walk over authorization trees, with the execution-order
 counter it threads through every entry and the process-wide count of skipped edges.
 */
module AuthWalk {
  import opened Wrappers
  import opened Calls

  const MAX_DEPTH := 10

  /** An ScAddress; a contract arm carries its strkey, or None when encoding fails. */
  datatype ScAddress = ContractArm(strkey: Option<ContractId>) | OtherArm

  datatype AuthFunction =
    | ContractFn(payload: Option<InvokeArgs>)
    | CreateContract

  datatype InvokeArgs = InvokeArgs(address: ScAddress, functionName: string)

  datatype Invocation = Invocation(function_: AuthFunction, subs: seq<Invocation>)

  /** An integer behind a pointer: *executionOrder, and the atomic callGraphSkippedEdges. */
  class Counter {
    var value: int

    constructor ()
      ensures value == 0
    {
      value := 0;
    }

    method Increment()
      modifies this
      ensures value == old(value) + 1
    {
      value := value + 1;
    }
  }

  function Payload(inv: Invocation): Option<InvokeArgs> {
    if inv.function_.ContractFn? then inv.function_.payload else None
  }

  /** The contract an invocation names, when it names an encodable one. */
  function Target(inv: Invocation): Option<ContractId> {
    match Payload(inv)
    case Some(InvokeArgs(ContractArm(id), _)) => id
    case _ => None
  }

  function CallOf(inv: Invocation, from: ContractId, to: ContractId, depth: int, order: int): ContractCall
    requires Payload(inv).Some?
  {
    ContractCall(from, to, Payload(inv).value.functionName, None, depth, order, true)
  }

  // What the walk records, as a recursion over the tree.

  /** The call recorded at the node itself. */
  function NodeCalls(inv: Invocation, from: ContractId, depth: int, order: int): seq<ContractCall> {
    if Target(inv).Some? && Target(inv).value != from
    then [CallOf(inv, from, Target(inv).value, depth, order)] else []
  }

  /** The caller passed on to sub-invocations. */
  function NextCaller(inv: Invocation, from: ContractId): ContractId {
    if Target(inv).Some? then Target(inv).value else from
  }

  ghost function WalkCalls(inv: Invocation, from: ContractId, depth: int, order: int): seq<ContractCall>
    decreases inv, 1
  {
    if depth > MAX_DEPTH then [] else
      var here := NodeCalls(inv, from, depth, order);
      here + SubCalls(inv, |inv.subs|, NextCaller(inv, from), depth + 1, order + |here|)
  }

  /** The calls of the first `n` sub-invocations. */
  ghost function SubCalls(inv: Invocation, n: nat, from: ContractId, depth: int, order: int): seq<ContractCall>
    requires n <= |inv.subs|
    decreases inv, 0, n
  {
    if n == 0 then [] else
      var before := SubCalls(inv, n - 1, from, depth, order);
      before + WalkCalls(inv.subs[n - 1], from, depth, order + |before|)
  }

  ghost function SkipHere(inv: Invocation): nat {
    if Payload(inv).Some? && Target(inv).None? then 1 else 0
  }

  ghost function Skips(inv: Invocation, depth: int): nat
    decreases inv, 1
  {
    if depth > MAX_DEPTH then 0 else SkipHere(inv) + SubSkips(inv, |inv.subs|, depth + 1)
  }

  ghost function SubSkips(inv: Invocation, n: nat, depth: int): nat
    requires n <= |inv.subs|
    decreases inv, 0, n
  {
    if n == 0 then 0 else SubSkips(inv, n - 1, depth) + Skips(inv.subs[n - 1], depth)
  }

  ghost function EntryCalls(entries: seq<Invocation>, main: ContractId): seq<ContractCall> {
    if entries == [] then [] else
      var before := EntryCalls(entries[..|entries| - 1], main);
      before + WalkCalls(entries[|entries| - 1], main, 1, |before|)
  }

  ghost function EntrySkips(entries: seq<Invocation>): nat {
    if entries == [] then 0 else EntrySkips(entries[..|entries| - 1]) + Skips(entries[|entries| - 1], 1)
  }

  /** scAddressContractStrKey. */
  method AddressContractStrKey(address: ScAddress, skipped: Counter) returns (id: ContractId, ok: bool)
    modifies skipped
    ensures ok == (address.ContractArm? && address.strkey.Some?)
    ensures ok ==> id == address.strkey.value
    ensures skipped.value == old(skipped.value) + if ok then 0 else 1
  {
    match address {
      case ContractArm(Some(encoded)) => return encoded, true;
      case _ =>
    }
    skipped.Increment();
    return "", false;
  }

  /** The first half of extractCallsFromAuthInvocation: the node's own call, and the caller its subs get. */
  method ExtractNode(inv: Invocation, caller: ContractId, depth: int, order: Counter, skipped: Counter)
    returns (calls: seq<ContractCall>, from: ContractId)
    requires order != skipped
    modifies order, skipped
    ensures calls == NodeCalls(inv, caller, depth, old(order.value)) && from == NextCaller(inv, caller)
    ensures order.value == old(order.value) + |calls|
    ensures skipped.value == old(skipped.value) + SkipHere(inv)
  {
    calls, from := [], caller;
    if inv.function_.ContractFn? && inv.function_.payload.Some? {
      var args := inv.function_.payload.value;
      var to, ok := AddressContractStrKey(args.address, skipped);
      if ok && to != from {
        calls := [ContractCall(from, to, args.functionName, None, depth, order.value, true)];
        order.Increment();
        from := to;
      }
    }
  }

  /** extractCallsFromAuthInvocation. */
  method ExtractFromInvocation(inv: Invocation, caller: ContractId, depth: int, order: Counter, skipped: Counter)
    returns (calls: seq<ContractCall>)
    requires order != skipped
    modifies order, skipped
    ensures calls == WalkCalls(inv, caller, depth, old(order.value))
    ensures order.value == old(order.value) + |calls|
    ensures skipped.value == old(skipped.value) + Skips(inv, depth)
    decreases inv
  {
    if depth > MAX_DEPTH {
      return [];
    }
    ghost var start := order.value;
    var here, from := ExtractNode(inv, caller, depth, order, skipped);
    calls := here;
    for i := 0 to |inv.subs|
      invariant calls == here + SubCalls(inv, i, from, depth + 1, start + |here|)
      invariant order.value == start + |calls|
      invariant skipped.value == old(skipped.value) + SkipHere(inv) + SubSkips(inv, i, depth + 1)
    {
      var subCalls := ExtractFromInvocation(inv.subs[i], from, depth + 1, order, skipped);
      calls := calls + subCalls;
    }
  }

  /** extractCallsFromAuthEntries. */
  method ExtractFromEntries(entries: seq<Invocation>, main: ContractId, skipped: Counter)
    returns (calls: seq<ContractCall>)
    modifies skipped
    ensures calls == EntryCalls(entries, main)
    ensures skipped.value == old(skipped.value) + EntrySkips(entries)
  {
    calls := [];
    var order := new Counter();
    for i := 0 to |entries|
      invariant order.value == |calls| && fresh(order)
      invariant calls == EntryCalls(entries[..i], main)
      invariant skipped.value == old(skipped.value) + EntrySkips(entries[..i])
    {
      assert entries[..i + 1][..i] == entries[..i];
      var more := ExtractFromInvocation(entries[i], main, 1, order, skipped);
      calls := calls + more;
    }
    assert entries[..|entries|] == entries;
  }

  // The same calls, read off the preorder list of visited nodes.

  /** A visited node: the path from its entry's root down to it. */
  type Visit = p: seq<Invocation> | p != [] witness [Invocation(CreateContract, [])]

  function Last(p: seq<Invocation>): Invocation
    requires p != []
  {
    p[|p| - 1]
  }

  /** Every node at depth at most ten, in preorder, below the ancestors given. */
  ghost function Visits(ancestors: seq<Invocation>, inv: Invocation): seq<Visit>
    decreases inv, 1
  {
    if |ancestors| + 1 > 10 then [] else
      [ancestors + [inv]] + SubVisits(ancestors + [inv], inv, |inv.subs|)
  }

  ghost function SubVisits(path: seq<Invocation>, inv: Invocation, n: nat): seq<Visit>
    requires n <= |inv.subs|
    decreases inv, 0, n
  {
    if n == 0 then [] else SubVisits(path, inv, n - 1) + Visits(path, inv.subs[n - 1])
  }

  /** The contract named by the nearest node of the path that names one, else the main contract. */
  function NearestContract(main: ContractId, path: seq<Invocation>): ContractId {
    if path == [] then main
    else if Target(Last(path)).Some? then Target(Last(path)).value
    else NearestContract(main, path[..|path| - 1])
  }

  function VisitCaller(main: ContractId, v: Visit): ContractId {
    NearestContract(main, v[..|v| - 1])
  }

  predicate IsRecorded(main: ContractId, v: Visit) {
    Target(Last(v)).Some? && Target(Last(v)).value != VisitCaller(main, v)
  }

  predicate IsSelfCall(main: ContractId, v: Visit) {
    Target(Last(v)).Some? && Target(Last(v)).value == VisitCaller(main, v)
  }

  predicate HasPayload(v: Visit) {
    Payload(Last(v)).Some?
  }

  predicate IsSkipped(v: Visit) {
    Payload(Last(v)).Some? && Target(Last(v)).None?
  }

  /** The call a recorded visit stands for: callee and function from its node's payload, caller and depth from its path. */
  function CallAt(main: ContractId, v: Visit, order: int): ContractCall
    requires IsRecorded(main, v)
  {
    var args := Last(v).function_.payload.value;
    ContractCall(VisitCaller(main, v), args.address.strkey.value, args.functionName, None, |v|, order, true)
  }

  ghost function CallsAt(main: ContractId, visits: seq<Visit>, order: int): seq<ContractCall> {
    if visits == [] then [] else
      var v := visits[|visits| - 1];
      var before := CallsAt(main, visits[..|visits| - 1], order);
      before + if IsRecorded(main, v) then [CallAt(main, v, order + |before|)] else []
  }

  ghost function Count<T>(p: T -> bool, s: seq<T>): nat {
    if s == [] then 0 else Count(p, s[..|s| - 1]) + if p(s[|s| - 1]) then 1 else 0
  }

  lemma CountNone<T>(p: T -> bool)
    ensures Count(p, []) == 0
  {
  }

  lemma {:induction false} CountConcat<T>(p: T -> bool, a: seq<T>, b: seq<T>)
    ensures Count(p, a + b) == Count(p, a) + Count(p, b)
  {
    if b == [] {
      assert a + b == a;
    } else {
      assert (a + b)[..|a + b| - 1] == a + b[..|b| - 1];
      CountConcat(p, a, b[..|b| - 1]);
    }
  }

  lemma {:induction false} CallsAtConcat(main: ContractId, a: seq<Visit>, b: seq<Visit>, order: int)
    ensures CallsAt(main, a + b, order) ==
            CallsAt(main, a, order) + CallsAt(main, b, order + |CallsAt(main, a, order)|)
  {
    if b == [] {
      assert a + b == a;
    } else {
      assert (a + b)[..|a + b| - 1] == a + b[..|b| - 1];
      CallsAtConcat(main, a, b[..|b| - 1], order);
    }
  }

  /** The walk below given ancestors records exactly the calls at the nodes visited. */
  lemma {:induction false} WalkIsPreorder(main: ContractId, ancestors: seq<Invocation>, inv: Invocation, order: int)
    ensures WalkCalls(inv, NearestContract(main, ancestors), |ancestors| + 1, order) ==
            CallsAt(main, Visits(ancestors, inv), order)
    decreases inv, 1
  {
    if |ancestors| + 1 <= MAX_DEPTH {
      var path := ancestors + [inv];
      assert path[..|path| - 1] == ancestors;
      var node: seq<Visit> := [path];
      assert node[..0] == [];
      var here := NodeCalls(inv, NearestContract(main, ancestors), |path|, order);
      assert CallsAt(main, node, order) == here;
      assert NextCaller(inv, NearestContract(main, ancestors)) == NearestContract(main, path);
      SubWalkIsPreorder(main, path, inv, |inv.subs|, order + |here|);
      CallsAtConcat(main, node, SubVisits(path, inv, |inv.subs|), order);
    }
  }

  lemma {:induction false} SubWalkIsPreorder(main: ContractId, path: seq<Invocation>, inv: Invocation, n: nat, order: int)
    requires n <= |inv.subs|
    ensures SubCalls(inv, n, NearestContract(main, path), |path| + 1, order) ==
            CallsAt(main, SubVisits(path, inv, n), order)
    decreases inv, 0, n
  {
    hide CallsAt, WalkCalls, Visits;
    NoCallsAt(main, order);
    if n > 0 {
      var from, depth := NearestContract(main, path), |path| + 1;
      var before := SubCalls(inv, n - 1, from, depth, order);
      SubWalkIsPreorder(main, path, inv, n - 1, order);
      WalkIsPreorder(main, path, inv.subs[n - 1], order + |before|);
      CallsAtAppend(main, SubVisits(path, inv, n - 1), Visits(path, inv.subs[n - 1]), order,
                    before, WalkCalls(inv.subs[n - 1], from, depth, order + |before|));
    }
  }

  lemma NoCallsAt(main: ContractId, order: int)
    ensures CallsAt(main, [], order) == []
  {
  }

  lemma CallsAtAppend(main: ContractId, a: seq<Visit>, b: seq<Visit>, order: int, x: seq<ContractCall>, y: seq<ContractCall>)
    requires x == CallsAt(main, a, order) && y == CallsAt(main, b, order + |x|)
    ensures x + y == CallsAt(main, a + b, order)
  {
    CallsAtConcat(main, a, b, order);
  }

  /** Every node of every entry at depth at most ten, in preorder. */
  ghost function AllVisits(entries: seq<Invocation>): seq<Visit> {
    if entries == [] then [] else
      AllVisits(entries[..|entries| - 1]) + Visits([], entries[|entries| - 1])
  }

  lemma {:induction false} EntriesAreCallsAt(entries: seq<Invocation>, main: ContractId)
    ensures EntryCalls(entries, main) == CallsAt(main, AllVisits(entries), 0)
  {
    hide CallsAt, WalkCalls, Visits;
    NoCallsAt(main, 0);
    if entries != [] {
      var front, last := entries[..|entries| - 1], entries[|entries| - 1];
      var before := EntryCalls(front, main);
      EntriesAreCallsAt(front, main);
      WalkIsPreorder(main, [], last, |before|);
      CallsAtAppend(main, AllVisits(front), Visits([], last), 0, before, WalkCalls(last, main, 1, |before|));
    }
  }

  /**
   The calls recorded over all entries: the preorder of the trees cut at depth ten, each node's
   caller being its nearest ancestor that names a contract, nodes naming no contract or their
   own caller left out; numbered from 0 without a gap across entries.
   */
  lemma EntriesArePreorder(entries: seq<Invocation>, main: ContractId)
    ensures EntryCalls(entries, main) == CallsAt(main, AllVisits(entries), 0)
    ensures forall i | 0 <= i < |EntryCalls(entries, main)| :: EntryCalls(entries, main)[i].order == i
  {
    EntriesAreCallsAt(entries, main);
    CallsAtNumbered(main, AllVisits(entries), 0);
  }

  lemma {:induction false} CallsAtNumbered(main: ContractId, visits: seq<Visit>, order: int)
    ensures forall i | 0 <= i < |CallsAt(main, visits, order)| :: CallsAt(main, visits, order)[i].order == order + i
  {
    if visits != [] {
      CallsAtNumbered(main, visits[..|visits| - 1], order);
    }
  }

  lemma {:induction false} SkipsAreUntargeted(ancestors: seq<Invocation>, inv: Invocation)
    ensures Skips(inv, |ancestors| + 1) == Count(IsSkipped, Visits(ancestors, inv))
    decreases inv, 1
  {
    if |ancestors| + 1 <= MAX_DEPTH {
      var path := ancestors + [inv];
      var node: seq<Visit> := [path];
      assert node[..0] == [];
      CountConcat(IsSkipped, node, SubVisits(path, inv, |inv.subs|));
      SubSkipsAreUntargeted(path, inv, |inv.subs|);
    }
  }

  lemma {:induction false} SubSkipsAreUntargeted(path: seq<Invocation>, inv: Invocation, n: nat)
    requires n <= |inv.subs|
    ensures SubSkips(inv, n, |path| + 1) == Count(IsSkipped, SubVisits(path, inv, n))
    decreases inv, 0, n
  {
    if n > 0 {
      SubSkipsAreUntargeted(path, inv, n - 1);
      SkipsAreUntargeted(path, inv.subs[n - 1]);
      CountConcat(IsSkipped, SubVisits(path, inv, n - 1), Visits(path, inv.subs[n - 1]));
    }
  }

  lemma {:induction false} CountSplit(main: ContractId, visits: seq<Visit>)
    ensures Count(HasPayload, visits) ==
            |CallsAt(main, visits, 0)| + Count(v => IsSelfCall(main, v), visits) +
            Count(IsSkipped, visits)
  {
    if visits != [] {
      CountSplit(main, visits[..|visits| - 1]);
    }
  }

  lemma {:induction false} EntrySkipsAreUntargeted(entries: seq<Invocation>)
    ensures EntrySkips(entries) == Count(IsSkipped, AllVisits(entries))
  {
    hide Visits, IsSkipped, Count;
    assert Count(IsSkipped, []) == 0 by {
      CountNone(IsSkipped);
    }
    if entries != [] {
      var front, last := entries[..|entries| - 1], entries[|entries| - 1];
      EntrySkipsAreUntargeted(front);
      SkipsAreUntargeted([], last);
      CountConcat(IsSkipped, AllVisits(front), Visits([], last));
    }
  }

  /** No contract-function node disappears: each is recorded, a self-call, or counted as skipped. */
  lemma NodesAccountedFor(entries: seq<Invocation>, main: ContractId)
    ensures Count(HasPayload, AllVisits(entries)) ==
            |EntryCalls(entries, main)| + Count(v => IsSelfCall(main, v), AllVisits(entries)) + EntrySkips(entries)
  {
    EntriesArePreorder(entries, main);
    EntrySkipsAreUntargeted(entries);
    CountSplit(main, AllVisits(entries));
  }

  // The walk's calls are rooted at the main contract, like the scan's.

  ghost predicate KnownCaller(main: ContractId, calls: seq<ContractCall>, c: ContractId) {
    c == main || exists j :: 0 <= j < |calls| && calls[j].to == c
  }

  lemma KnownCallerGrows(main: ContractId, a: seq<ContractCall>, b: seq<ContractCall>, c: ContractId)
    requires KnownCaller(main, a, c)
    ensures KnownCaller(main, a + b, c)
  {
    if c != main {
      var j :| 0 <= j < |a| && a[j].to == c;
      assert (a + b)[j].to == c;
    }
  }

  lemma {:induction false} WalkRooted(main: ContractId, prior: seq<ContractCall>, inv: Invocation, from: ContractId, depth: int, order: int)
    requires Rooted(main, prior) && KnownCaller(main, prior, from) && depth >= 1
    ensures Rooted(main, prior + WalkCalls(inv, from, depth, order))
    ensures forall c | c in WalkCalls(inv, from, depth, order) :: c.from != c.to && 1 <= c.depth <= 10
    decreases inv, 1
  {
    if depth > MAX_DEPTH {
      assert prior + [] == prior;
    } else {
      var here := NodeCalls(inv, from, depth, order);
      if here != [] {
        RootedSnoc(main, prior, here[0]);
        assert (prior + here)[|prior|].to == NextCaller(inv, from);
      } else {
        assert prior + here == prior;
      }
      SubWalkRooted(main, prior + here, inv, |inv.subs|, NextCaller(inv, from), depth + 1, order + |here|);
      var subs := SubCalls(inv, |inv.subs|, NextCaller(inv, from), depth + 1, order + |here|);
      assert prior + (here + subs) == prior + here + subs;
    }
  }

  lemma {:induction false} SubWalkRooted(main: ContractId, prior: seq<ContractCall>, inv: Invocation, n: nat, from: ContractId, depth: int, order: int)
    requires n <= |inv.subs| && Rooted(main, prior) && KnownCaller(main, prior, from) && depth >= 1
    ensures Rooted(main, prior + SubCalls(inv, n, from, depth, order))
    ensures forall c | c in SubCalls(inv, n, from, depth, order) :: c.from != c.to && 1 <= c.depth <= 10
    decreases inv, 0, n
  {
    if n == 0 {
      assert prior + [] == prior;
    } else {
      SubWalkRooted(main, prior, inv, n - 1, from, depth, order);
      var before := SubCalls(inv, n - 1, from, depth, order);
      KnownCallerGrows(main, prior, before, from);
      WalkRooted(main, prior + before, inv.subs[n - 1], from, depth, order + |before|);
      var last := WalkCalls(inv.subs[n - 1], from, depth, order + |before|);
      assert prior + (before + last) == prior + before + last;
    }
  }

  lemma {:induction false} EntriesRooted(entries: seq<Invocation>, main: ContractId)
    ensures Rooted(main, EntryCalls(entries, main))
    ensures forall c | c in EntryCalls(entries, main) :: c.from != c.to && 1 <= c.depth <= 10
  {
    if entries != [] {
      var front := entries[..|entries| - 1];
      EntriesRooted(front, main);
      WalkRooted(main, EntryCalls(front, main), entries[|entries| - 1], main, 1, |EntryCalls(front, main)|);
    }
  }

  // A chain of calls, each contract calling the next.

  /** The authorization tree in which `ids[0]` calls `ids[1]` and so on. */
  function Nested(ids: seq<ContractId>, names: seq<string>): Invocation
    requires ids != [] && |names| == |ids|
  {
    Invocation(ContractFn(Some(InvokeArgs(ContractArm(Some(ids[0])), names[0]))),
               if |ids| == 1 then [] else [Nested(ids[1..], names[1..])])
  }

  predicate Neighbours(from: ContractId, ids: seq<ContractId>) {
    (ids != [] ==> ids[0] != from) && forall i | 0 < i < |ids| :: ids[i] != ids[i - 1]
  }

  /** Of the calls left above depth ten, call `i` is the chain's `i`-th. */
  ghost predicate ChainCalls(calls: seq<ContractCall>, from: ContractId, ids: seq<ContractId>, names: seq<string>, depth: int, order: int)
    requires |names| == |ids|
  {
    && |calls| == (if depth > 10 then 0 else if |ids| < 11 - depth then |ids| else 11 - depth)
    && forall i | 0 <= i < |calls| ::
         calls[i] == ContractCall(if i == 0 then from else ids[i - 1], ids[i], names[i], None, depth + i, order + i, true)
  }

  lemma {:induction false} NestedRecords(from: ContractId, ids: seq<ContractId>, names: seq<string>, depth: int, order: int)
    requires ids != [] && |names| == |ids| && Neighbours(from, ids)
    ensures ChainCalls(WalkCalls(Nested(ids, names), from, depth, order), from, ids, names, depth, order)
    decreases |ids|
  {
    var inv := Nested(ids, names);
    if depth <= MAX_DEPTH {
      var here := NodeCalls(inv, from, depth, order);
      assert here == [ContractCall(from, ids[0], names[0], None, depth, order, true)];
      var calls := WalkCalls(inv, from, depth, order);
      if |ids| == 1 {
        assert calls == here;
      } else {
        NestedRecords(ids[0], ids[1..], names[1..], depth + 1, order + 1);
        var below := WalkCalls(inv.subs[0], ids[0], depth + 1, order + 1);
        assert SubCalls(inv, 0, ids[0], depth + 1, order + 1) == [];
        assert SubCalls(inv, 1, ids[0], depth + 1, order + 1) == [] + below;
        assert calls == here + below;
      }
    }
  }

  /** A chain of contracts, each other than its caller, records exactly its first ten calls. */
  lemma ChainRecordsTen(main: ContractId, ids: seq<ContractId>, names: seq<string>)
    requires ids != [] && |names| == |ids| && Neighbours(main, ids)
    ensures var calls := EntryCalls([Nested(ids, names)], main);
            && |calls| == (if |ids| < 10 then |ids| else 10)
            && forall i | 0 <= i < |calls| ::
                 calls[i] == ContractCall(if i == 0 then main else ids[i - 1], ids[i], names[i], None, i + 1, i, true)
  {
    NestedRecords(main, ids, names, 1, 0);
    var entries := [Nested(ids, names)];
    assert entries[..0] == [];
    hide WalkCalls;
    assert EntryCalls(entries[..0], main) == [];
    var calls := WalkCalls(entries[0], main, 1, 0);
    assert EntryCalls(entries, main) == [] + calls == calls;
    assert calls == WalkCalls(Nested(ids, names), main, 1, 0);
  }

  // Strkey ids flow from the trees into the calls.

  /** Every contract named in the tree is free of the key's separators. */
  predicate CleanTargets(inv: Invocation)
    decreases inv
  {
    (Target(inv).Some? ==> Clean(Target(inv).value)) && forall i | 0 <= i < |inv.subs| :: CleanTargets(inv.subs[i])
  }

  lemma {:induction false} WalkClean(inv: Invocation, from: ContractId, depth: int, order: int)
    requires CleanTargets(inv) && Clean(from)
    ensures CleanCalls(WalkCalls(inv, from, depth, order))
    decreases inv, 1
  {
    if depth <= MAX_DEPTH {
      SubWalkClean(inv, |inv.subs|, NextCaller(inv, from), depth + 1, order + |NodeCalls(inv, from, depth, order)|);
    }
  }

  lemma {:induction false} SubWalkClean(inv: Invocation, n: nat, from: ContractId, depth: int, order: int)
    requires n <= |inv.subs| && CleanTargets(inv) && Clean(from)
    ensures CleanCalls(SubCalls(inv, n, from, depth, order))
    decreases inv, 0, n
  {
    if n > 0 {
      SubWalkClean(inv, n - 1, from, depth, order);
      WalkClean(inv.subs[n - 1], from, depth, order + |SubCalls(inv, n - 1, from, depth, order)|);
    }
  }

  lemma {:induction false} EntriesClean(entries: seq<Invocation>, main: ContractId)
    requires Clean(main) && forall e | e in entries :: CleanTargets(e)
    ensures CleanCalls(EntryCalls(entries, main))
  {
    if entries != [] {
      var front, last := entries[..|entries| - 1], entries[|entries| - 1];
      EntriesClean(front, main);
      WalkClean(last, main, 1, |EntryCalls(front, main)|);
    }
  }
}
