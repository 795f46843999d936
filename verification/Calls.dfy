/**
 Lists of cross-contract calls: deduplication by formatted key (call_graph.go) and the
 facts a call list carries from one stage of the call graph to the next.
 */
module Calls {
  import opened Wrappers
  import Text
  import FnName

  type ContractId = string

  datatype ContractCall = ContractCall(
    from: ContractId,
    to: ContractId,
    function_: string,
    arguments: Option<FnName.Json>,
    depth: int,
    order: int,
    successful: bool)

  /** What two calls must share to be the same edge of the call graph. */
  datatype Edge = Edge(from: ContractId, to: ContractId, function_: string, depth: int)

  function EdgeOf(c: ContractCall): Edge {
    Edge(c.from, c.to, c.function_, c.depth)
  }

  function EdgesOf(calls: seq<ContractCall>): (edges: seq<Edge>)
    ensures |edges| == |calls| && forall i | 0 <= i < |calls| :: edges[i] == EdgeOf(calls[i])
  {
    seq(|calls|, i requires 0 <= i < |calls| => EdgeOf(calls[i]))
  }

  /** The map key deduplicateCalls formats: "%s->%s:%s@%d". */
  function Key(e: Edge): string {
    e.from + "->" + e.to + ":" + e.function_ + "@" + Text.Decimal(e.depth)
  }

  /** Free of the separators; every contract strkey is, its alphabet being A-Z and 2-7. */
  predicate Clean(id: ContractId) {
    '-' !in id && ':' !in id
  }

  predicate CleanEdge(e: Edge) {
    Clean(e.from) && Clean(e.to)
  }

  predicate CleanCalls(calls: seq<ContractCall>) {
    forall c | c in calls :: CleanEdge(EdgeOf(c))
  }

  /** Where two strings agree and both heads avoid the next character, the heads agree. */
  lemma {:induction false} SplitAtFirst(a: string, b: string, x: string, y: string, sep: char)
    requires sep !in a && sep !in b
    requires a + [sep] + x == b + [sep] + y
    ensures a == b && x == y
  {
    var u, v := a + [sep] + x, b + [sep] + y;
    assert u[|a|] == sep && v[|b|] == sep;
    assert |a| == |b|;
    assert a == u[..|a|] && b == v[..|b|];
    assert x == u[|a| + 1..] && y == v[|b| + 1..];
  }

  /** The mirror image: tails that avoid the separator. */
  lemma {:induction false} SplitAtLast(a: string, b: string, x: string, y: string, sep: char)
    requires sep !in x && sep !in y
    requires a + [sep] + x == b + [sep] + y
    ensures a == b && x == y
  {
    var u, v := a + [sep] + x, b + [sep] + y;
    assert u[|a|] == sep && v[|b|] == sep;
    assert |a| == |b|;
    assert a == u[..|a|] && b == v[..|b|];
    assert x == u[|a| + 1..] && y == v[|b| + 1..];
  }

  lemma DecimalAvoids(n: int, c: char)
    requires c == '@'
    ensures c !in Text.Decimal(n)
  {
  }

  lemma KeyParts(e: Edge)
    ensures Key(e) == e.from + ['-'] + (">" + (e.to + [':'] + (e.function_ + ['@'] + Text.Decimal(e.depth))))
  {
    hide Text.Decimal;
  }

  /** The key identifies the edge, whatever characters the function name holds. */
  lemma KeyInjective(a: Edge, b: Edge)
    requires CleanEdge(a) && CleanEdge(b)
    requires Key(a) == Key(b)
    ensures a == b
  {
    hide Key, Text.Decimal;
    KeyParts(a);
    KeyParts(b);
    var ra, rb := a.function_ + ['@'] + Text.Decimal(a.depth), b.function_ + ['@'] + Text.Decimal(b.depth);
    var ta, tb := a.to + [':'] + ra, b.to + [':'] + rb;
    SplitAtFirst(a.from, b.from, ">" + ta, ">" + tb, '-');
    assert ta == (">" + ta)[1..] && tb == (">" + tb)[1..];
    SplitAtFirst(a.to, b.to, ra, rb, ':');
    DecimalAvoids(a.depth, '@');
    DecimalAvoids(b.depth, '@');
    SplitAtLast(a.function_, b.function_, Text.Decimal(a.depth), Text.Decimal(b.depth), '@');
    Text.DecimalInjective(a.depth, b.depth);
  }

  /** With a separator inside an id the key no longer identifies the edge. */
  lemma KeyAmbiguousWithoutCleanIds()
    ensures var a, b := Edge("A->B", "C", "f", 1), Edge("A", "B->C", "f", 1);
            a != b && Key(a) == Key(b)
  {
    var a, b := Edge("A->B", "C", "f", 1), Edge("A", "B->C", "f", 1);
    assert a.from + "->" + a.to == "A->B->C" == b.from + "->" + b.to;
  }

  /** The order-preserving list of first occurrences. */
  ghost function FirstOccurrences<T>(s: seq<T>): seq<T> {
    if s == [] then [] else
      var front, last := s[..|s| - 1], s[|s| - 1];
      FirstOccurrences(front) + if last in front then [] else [last]
  }

  lemma {:induction false} FirstOccurrencesMembers<T>(s: seq<T>)
    ensures forall x :: x in FirstOccurrences(s) <==> x in s
    ensures forall i, j | 0 <= i < j < |FirstOccurrences(s)| :: FirstOccurrences(s)[i] != FirstOccurrences(s)[j]
  {
    if s != [] {
      FirstOccurrencesMembers(s[..|s| - 1]);
      assert s == s[..|s| - 1] + [s[|s| - 1]];
    }
  }

  /** A leading element already at the head of the rest changes nothing. */
  lemma {:induction false} FirstOccurrencesTwin<T>(x: T, s: seq<T>)
    requires s != [] && s[0] == x
    ensures FirstOccurrences([x] + s) == FirstOccurrences(s)
  {
    if |s| == 1 {
      assert ([x] + s)[..1] == [x];
      assert [x][..0] == [] && s[..0] == [];
      assert FirstOccurrences([x]) == [x] == FirstOccurrences(s);
    } else {
      FirstOccurrencesTwin(x, s[..|s| - 1]);
      assert ([x] + s)[..|s|] == [x] + s[..|s| - 1];
      assert s[..|s| - 1][0] == x;
    }
  }

  lemma {:induction false} FirstOccurrencesHead<T>(s: seq<T>)
    requires s != []
    ensures FirstOccurrences(s) != [] && FirstOccurrences(s)[0] == s[0]
  {
    if |s| == 1 {
      assert s[..0] == [];
    } else {
      FirstOccurrencesHead(s[..|s| - 1]);
    }
  }

  /** The calls whose edge does not occur earlier. */
  ghost function Deduplicated(calls: seq<ContractCall>): seq<ContractCall> {
    if calls == [] then [] else
      var front, last := calls[..|calls| - 1], calls[|calls| - 1];
      Deduplicated(front) + if EdgeOf(last) in EdgesOf(front) then [] else [last]
  }

  ghost function KeysOf(calls: seq<ContractCall>): set<string> {
    set c | c in calls :: Key(EdgeOf(c))
  }

  /** The calls whose formatted key does not occur earlier. */
  ghost function DeduplicatedByKey(calls: seq<ContractCall>): seq<ContractCall> {
    if calls == [] then [] else
      var front, last := calls[..|calls| - 1], calls[|calls| - 1];
      DeduplicatedByKey(front) + if Key(EdgeOf(last)) in KeysOf(front) then [] else [last]
  }

  lemma ByKeyStep(calls: seq<ContractCall>, i: nat)
    requires i < |calls|
    ensures KeysOf(calls[..i + 1]) == KeysOf(calls[..i]) + {Key(EdgeOf(calls[i]))}
    ensures DeduplicatedByKey(calls[..i + 1]) ==
            DeduplicatedByKey(calls[..i]) + if Key(EdgeOf(calls[i])) in KeysOf(calls[..i]) then [] else [calls[i]]
  {
    assert calls[..i + 1][..i] == calls[..i];
    assert calls[..i + 1] == calls[..i] + [calls[i]];
  }

  lemma ByKeyNone()
    ensures KeysOf([]) == {} && DeduplicatedByKey([]) == []
  {
  }

  /** deduplicateCalls. */
  method DeduplicateCalls(calls: seq<ContractCall>) returns (unique: seq<ContractCall>)
    ensures unique == DeduplicatedByKey(calls)
  {
    hide Key, KeysOf, DeduplicatedByKey;
    unique := [];
    var seen: set<string> := {};
    ByKeyNone();
    for i := 0 to |calls|
      invariant unique == DeduplicatedByKey(calls[..i])
      invariant seen == KeysOf(calls[..i])
    {
      var call := calls[i];
      var key := Key(EdgeOf(call));
      ByKeyStep(calls, i);
      if key !in seen {
        seen := seen + {key};
        unique := unique + [call];
      }
    }
    assert calls[..|calls|] == calls;
  }

  /** With strkey ids, comparing keys is comparing edges. */
  lemma {:induction false} ByKeyIsByEdge(calls: seq<ContractCall>)
    requires CleanCalls(calls)
    ensures DeduplicatedByKey(calls) == Deduplicated(calls)
  {
    if calls != [] {
      var front, last := calls[..|calls| - 1], calls[|calls| - 1];
      ByKeyIsByEdge(front);
      if Key(EdgeOf(last)) in KeysOf(front) {
        var c :| c in front && Key(EdgeOf(c)) == Key(EdgeOf(last));
        KeyInjective(EdgeOf(c), EdgeOf(last));
        var i :| 0 <= i < |front| && front[i] == c;
        assert EdgesOf(front)[i] == EdgeOf(last);
      }
    }
  }

  /** The edges kept are the first occurrences, in order. */
  lemma {:induction false} DeduplicatedEdges(calls: seq<ContractCall>)
    ensures EdgesOf(Deduplicated(calls)) == FirstOccurrences(EdgesOf(calls))
    ensures forall c | c in Deduplicated(calls) :: c in calls
  {
    if calls != [] {
      var front, last := calls[..|calls| - 1], calls[|calls| - 1];
      DeduplicatedEdges(front);
      assert EdgesOf(calls)[..|calls| - 1] == EdgesOf(front);
      assert calls == front + [last];
    }
  }

  ghost predicate DistinctKeys(calls: seq<ContractCall>) {
    forall i, j | 0 <= i < j < |calls| :: Key(EdgeOf(calls[i])) != Key(EdgeOf(calls[j]))
  }

  /** The keys kept are those of the input, each once. */
  lemma {:induction false} DeduplicatedKeys(calls: seq<ContractCall>)
    ensures DistinctKeys(DeduplicatedByKey(calls))
    ensures KeysOf(DeduplicatedByKey(calls)) == KeysOf(calls)
  {
    hide Key;
    if calls != [] {
      var front, last := calls[..|calls| - 1], calls[|calls| - 1];
      DeduplicatedKeys(front);
      KeysOfSnoc(front, last);
      KeysOfSnoc(DeduplicatedByKey(front), last);
      assert calls == front + [last];
      forall c | c in DeduplicatedByKey(front) ensures Key(EdgeOf(c)) in KeysOf(front) {
        assert Key(EdgeOf(c)) in KeysOf(DeduplicatedByKey(front));
      }
    }
  }

  lemma KeysOfSnoc(calls: seq<ContractCall>, c: ContractCall)
    ensures KeysOf(calls + [c]) == KeysOf(calls) + {Key(EdgeOf(c))}
  {
    hide Key;
    assert forall x :: x in calls + [c] <==> x in calls || x == c;
  }

  lemma LastKeyIsNew(calls: seq<ContractCall>)
    requires calls != [] && DistinctKeys(calls)
    ensures Key(EdgeOf(calls[|calls| - 1])) !in KeysOf(calls[..|calls| - 1])
  {
    hide Key;
  }

  lemma {:induction false} DeduplicatedOfDistinct(calls: seq<ContractCall>)
    requires DistinctKeys(calls)
    ensures DeduplicatedByKey(calls) == calls
  {
    hide Key, KeysOf, DeduplicatedByKey;
    ByKeyNone();
    if calls != [] {
      var n := |calls| - 1;
      var front, last := calls[..n], calls[n];
      DeduplicatedOfDistinct(front);
      ByKeyStep(calls, n);
      LastKeyIsNew(calls);
      assert calls == front + [last] == calls[..n + 1];
    }
  }

  /** What comes later does not change what was kept: the first of two lists wins. */
  lemma {:induction false} DeduplicatedPrefix(a: seq<ContractCall>, b: seq<ContractCall>)
    ensures DeduplicatedByKey(a) <= DeduplicatedByKey(a + b)
  {
    hide Key;
    if b == [] {
      assert a + b == a;
    } else {
      assert (a + b)[..|a + b| - 1] == a + b[..|b| - 1];
      DeduplicatedPrefix(a, b[..|b| - 1]);
    }
  }

  /** Deduplicating twice is deduplicating once, whatever the ids. */
  lemma DeduplicatedIdempotent(calls: seq<ContractCall>)
    ensures DeduplicatedByKey(DeduplicatedByKey(calls)) == DeduplicatedByKey(calls)
  {
    DeduplicatedKeys(calls);
    DeduplicatedOfDistinct(DeduplicatedByKey(calls));
  }

  // What extractCallGraph summarises.

  ghost function ContractsOf(main: ContractId, calls: seq<ContractCall>): set<ContractId> {
    {main} + (set c | c in calls :: c.from) + (set c | c in calls :: c.to)
  }

  /** `d` is the largest call depth, or 0 when there are no calls. */
  ghost predicate IsMaxDepth(calls: seq<ContractCall>, d: int) {
    && (forall c | c in calls :: c.depth <= d)
    && (d == 0 || exists c :: c in calls && c.depth == d)
    && d >= 0
  }

  /** Every call leaves a call with the same edge behind. */
  lemma KeptTwin(calls: seq<ContractCall>, c: ContractCall) returns (k: ContractCall)
    requires c in calls
    ensures k in Deduplicated(calls) && EdgeOf(k) == EdgeOf(c)
  {
    DeduplicatedEdges(calls);
    FirstOccurrencesMembers(EdgesOf(calls));
    var i :| 0 <= i < |calls| && calls[i] == c;
    assert EdgesOf(calls)[i] in EdgesOf(Deduplicated(calls));
    var j :| 0 <= j < |Deduplicated(calls)| && EdgesOf(Deduplicated(calls))[j] == EdgeOf(c);
    k := Deduplicated(calls)[j];
  }

  /** Each call of `a` has its edge in `b`. */
  ghost predicate Covered(a: seq<ContractCall>, b: seq<ContractCall>) {
    forall c | c in a :: CoveredCall(c, b)
  }

  ghost predicate CoveredCall(c: ContractCall, b: seq<ContractCall>) {
    exists k :: k in b && EdgeOf(k) == EdgeOf(c)
  }

  lemma DeduplicationCovers(calls: seq<ContractCall>)
    ensures Covered(calls, Deduplicated(calls)) && Covered(Deduplicated(calls), calls)
  {
    forall c | c in calls ensures CoveredCall(c, Deduplicated(calls)) {
      var k := KeptTwin(calls, c);
    }
    forall c | c in Deduplicated(calls) ensures CoveredCall(c, calls) {
      DeduplicatedEdges(calls);
    }
  }

  lemma CoveredContracts(main: ContractId, a: seq<ContractCall>, b: seq<ContractCall>)
    requires Covered(a, b)
    ensures ContractsOf(main, a) <= ContractsOf(main, b)
  {
    forall x | x in ContractsOf(main, a) && x != main ensures x in ContractsOf(main, b) {
      var c :| c in a && (c.from == x || c.to == x);
      assert CoveredCall(c, b);
      var k :| k in b && EdgeOf(k) == EdgeOf(c);
    }
  }

  lemma DepthTwin(a: seq<ContractCall>, b: seq<ContractCall>, c: ContractCall) returns (k: ContractCall)
    requires Covered(a, b) && c in a
    ensures k in b && k.depth == c.depth
  {
    assert CoveredCall(c, b);
    k :| k in b && EdgeOf(k) == EdgeOf(c);
  }

  lemma CoveredDepth(a: seq<ContractCall>, b: seq<ContractCall>, d: int)
    requires Covered(a, b) && Covered(b, a) && IsMaxDepth(a, d)
    ensures IsMaxDepth(b, d)
  {
    hide Covered;
    forall c | c in b ensures c.depth <= d {
      var k := DepthTwin(b, a, c);
    }
    if d != 0 {
      var c :| c in a && c.depth == d;
      var k := DepthTwin(a, b, c);
    }
  }

  /** Deduplication loses neither a contract nor the maximum depth. */
  lemma DeduplicationKeepsSummary(main: ContractId, calls: seq<ContractCall>, d: int)
    ensures ContractsOf(main, Deduplicated(calls)) == ContractsOf(main, calls)
    ensures IsMaxDepth(Deduplicated(calls), d) <==> IsMaxDepth(calls, d)
  {
    DeduplicationCovers(calls);
    CoveredContracts(main, calls, Deduplicated(calls));
    CoveredContracts(main, Deduplicated(calls), calls);
    if IsMaxDepth(calls, d) {
      CoveredDepth(calls, Deduplicated(calls), d);
    }
    if IsMaxDepth(Deduplicated(calls), d) {
      CoveredDepth(Deduplicated(calls), calls, d);
    }
  }

  // Reachability of every contract from the main one.

  /** Each call starts at the main contract or at the target of an earlier call. */
  ghost predicate Rooted(main: ContractId, calls: seq<ContractCall>) {
    forall i | 0 <= i < |calls| :: RootedAt(main, calls, i)
  }

  ghost predicate RootedAt(main: ContractId, calls: seq<ContractCall>, i: nat)
    requires i < |calls|
  {
    calls[i].from == main || exists j :: 0 <= j < i && calls[j].to == calls[i].from
  }

  /** The calls listed lead, each from where the previous one went, from `a` to `b`. */
  ghost predicate Chain(a: ContractId, path: seq<ContractCall>, b: ContractId) {
    if path == [] then a == b else
      path[|path| - 1].to == b && Chain(a, path[..|path| - 1], path[|path| - 1].from)
  }

  ghost predicate Reachable(main: ContractId, calls: seq<ContractCall>, c: ContractId) {
    exists path :: Chain(main, path, c) && forall p | p in path :: p in calls
  }

  lemma {:induction false} RootedCallReachable(main: ContractId, calls: seq<ContractCall>, i: nat)
    requires Rooted(main, calls) && i < |calls|
    ensures Reachable(main, calls, calls[i].from) && Reachable(main, calls, calls[i].to)
  {
    ghost var path: seq<ContractCall> := [];
    if calls[i].from == main {
      assert Chain(main, path, main);
    } else {
      assert RootedAt(main, calls, i);
      var j :| 0 <= j < i && calls[j].to == calls[i].from;
      RootedCallReachable(main, calls, j);
      path :| Chain(main, path, calls[i].from) && forall p | p in path :: p in calls;
    }
    var longer := path + [calls[i]];
    assert longer[..|longer| - 1] == path;
    assert Chain(main, longer, calls[i].to);
  }

  /** In a rooted list every contract involved is reachable from the main one along its calls. */
  lemma RootedReachable(main: ContractId, calls: seq<ContractCall>, c: ContractId)
    requires Rooted(main, calls) && c in ContractsOf(main, calls)
    ensures Reachable(main, calls, c)
  {
    if c == main {
      assert Chain(main, [], main);
    } else {
      var call :| call in calls && (call.from == c || call.to == c);
      var i :| 0 <= i < |calls| && calls[i] == call;
      RootedCallReachable(main, calls, i);
    }
  }

  lemma RootedConcat(main: ContractId, a: seq<ContractCall>, b: seq<ContractCall>)
    requires Rooted(main, a) && Rooted(main, b)
    ensures Rooted(main, a + b)
  {
    var s := a + b;
    forall i | 0 <= i < |s| ensures RootedAt(main, s, i) {
      if i < |a| {
        assert RootedAt(main, a, i);
        if s[i].from != main {
          var j :| 0 <= j < i && a[j].to == a[i].from;
          assert s[j].to == s[i].from;
        }
      } else {
        assert RootedAt(main, b, i - |a|);
        if s[i].from != main {
          var j :| 0 <= j < i - |a| && b[j].to == b[i - |a|].from;
          assert s[|a| + j].to == s[i].from;
        }
      }
    }
  }

  lemma RootedPrefix(main: ContractId, calls: seq<ContractCall>, n: nat)
    requires Rooted(main, calls) && n <= |calls|
    ensures Rooted(main, calls[..n])
  {
    forall i | 0 <= i < n ensures RootedAt(main, calls[..n], i) {
      assert RootedAt(main, calls, i);
      if calls[i].from != main {
        var j :| 0 <= j < i && calls[j].to == calls[i].from;
        assert calls[..n][j].to == calls[..n][i].from;
      }
    }
  }

  lemma {:induction false} RootedSnoc(main: ContractId, calls: seq<ContractCall>, c: ContractCall)
    requires Rooted(main, calls)
    requires c.from == main || exists j :: 0 <= j < |calls| && calls[j].to == c.from
    ensures Rooted(main, calls + [c])
  {
    var s := calls + [c];
    forall i | 0 <= i < |s| ensures RootedAt(main, s, i) {
      if i < |calls| {
        assert RootedAt(main, calls, i);
        if s[i].from != main {
          var j :| 0 <= j < i && calls[j].to == calls[i].from;
          assert s[j].to == s[i].from;
        }
      } else if c.from != main {
        var j :| 0 <= j < |calls| && calls[j].to == c.from;
        assert s[j].to == s[i].from;
      }
    }
  }

  lemma {:induction false} RootedDeduplicated(main: ContractId, calls: seq<ContractCall>)
    requires Rooted(main, calls)
    ensures Rooted(main, Deduplicated(calls))
  {
    if calls != [] {
      var front, last := calls[..|calls| - 1], calls[|calls| - 1];
      RootedPrefix(main, calls, |calls| - 1);
      RootedDeduplicated(main, front);
      if EdgeOf(last) !in EdgesOf(front) {
        assert RootedAt(main, calls, |front|);
        if last.from != main {
          var j :| 0 <= j < |front| && calls[j].to == last.from;
          var twin := KeptTwin(front, front[j]);
          var k :| 0 <= k < |Deduplicated(front)| && Deduplicated(front)[k] == twin;
        }
        RootedSnoc(main, Deduplicated(front), last);
      } else {
        assert Deduplicated(calls) == Deduplicated(front);
      }
    }
  }
}
