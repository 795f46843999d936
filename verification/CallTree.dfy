/**
 Recovery of a call tree from its linearised trace by the scan of call_graph.go.
 */
module CallTree {
  import opened Wrappers
  import opened Calls
  import opened CallGraph

  /**
   What happens while one contract runs: events it emits and calls it makes, in order.
   A call is bracketed by its fn_call and fn_return events.
   */
  datatype Forest =
    | End
    | Note(event: Event, rest: Forest)
    | Call(enter: Event, body: Forest, leave: Event, rest: Forest)
  {
    function Callee(): ContractId
      requires Call? && enter.contract.Some?
    {
      enter.contract.value
    }
  }

  predicate IsNote(self: ContractId, e: Event) {
    e.contract.None? || (e.contract.value == self && e.topic != "fn_call" && e.topic != "fn_return")
  }

  predicate Brackets(enter: Event, leave: Event) {
    enter.contract.Some? && leave.contract == enter.contract && enter.topic == "fn_call" && leave.topic == "fn_return"
  }

  /** `f` is what can happen while `self` runs. */
  predicate WellFormed(self: ContractId, f: Forest)
    decreases f
  {
    match f
    case End => true
    case Note(e, rest) => IsNote(self, e) && WellFormed(self, rest)
    case Call(enter, body, leave, rest) =>
      Brackets(enter, leave) && f.Callee() != "" && WellFormed(f.Callee(), body) && WellFormed(self, rest)
  }

  function Linearise(f: Forest): seq<Event> {
    match f
    case End => []
    case Note(e, rest) => [e] + Linearise(rest)
    case Call(enter, body, leave, rest) => [enter] + (Linearise(body) + ([leave] + Linearise(rest)))
  }

  /** The whole trace: the main contract's fn_call, what it does, its fn_return. */
  function Trace(enter: Event, f: Forest, leave: Event): seq<Event> {
    [enter] + (Linearise(f) + [leave])
  }

  /** The edges of the tree in preorder. */
  ghost function TreeEdges(self: ContractId, depth: int, f: Forest): seq<Edge>
    requires WellFormed(self, f)
    decreases f
  {
    match f
    case End => []
    case Note(_, rest) => TreeEdges(self, depth, rest)
    case Call(enter, body, _, rest) =>
      [Edge(self, f.Callee(), CalleeName(enter), depth)] +
      TreeEdges(f.Callee(), depth + 1, body) + TreeEdges(self, depth, rest)
  }

  predicate NoSelfCalls(self: ContractId, f: Forest)
    requires WellFormed(self, f)
    decreases f
  {
    match f
    case End => true
    case Note(_, rest) => NoSelfCalls(self, rest)
    case Call(_, body, _, rest) => f.Callee() != self && NoSelfCalls(f.Callee(), body) && NoSelfCalls(self, rest)
  }

  predicate NoReentry(main: ContractId, self: ContractId, f: Forest)
    requires WellFormed(self, f)
    decreases f
  {
    match f
    case End => true
    case Note(_, rest) => NoReentry(main, self, rest)
    case Call(_, body, _, rest) =>
      f.Callee() != main && NoReentry(main, f.Callee(), body) && NoReentry(main, self, rest)
  }

  /** Pattern 1 names the leading call as the callee's own event does. */
  ghost predicate LeadNameAgrees(enter: Event, f: Forest) {
    f.Call? ==> AheadName(enter, f.enter) == CalleeName(f.enter)
  }

  /**
   What settles it before the scan: the leading callee's event carries a known name, or the names
   both rules fall back to, from the main event and its arguments and from the callee's arguments, agree.
   */
  ghost predicate LeadNamed(enter: Event, f: Forest) {
    f.Call? ==>
      Known(f.enter.name) ||
      NameOrArgument(EventFunction(enter), enter.arguments) == NameOrArgument(UNKNOWN, f.enter.arguments)
  }

  lemma LeadNamedExactly(enter: Event, f: Forest)
    requires f.Call? ==> f.enter.topic == FN_CALL
    ensures LeadNameAgrees(enter, f) <==> LeadNamed(enter, f)
  {
  }

  // Splitting a run. Only a fn_call looks at the event after it.

  ghost predicate LooksAhead(e: Event) {
    e.contract.Some? && e.topic == FN_CALL
  }

  lemma {:induction false} RunConcat(main: ContractId, a: seq<Event>, b: seq<Event>, s: Scan)
    requires a == [] || !LooksAhead(a[|a| - 1])
    ensures Run(main, a + b, s) == Run(main, b, Run(main, a, s))
  {
    if a == [] {
      assert a + b == b;
    } else {
      var next := if |a + b| > 1 then Some((a + b)[1]) else None;
      var nextA := if |a| > 1 then Some(a[1]) else None;
      assert Step(main, a[0], next, s) == Step(main, a[0], nextA, s);
      assert (a + b)[1..] == a[1..] + b;
      RunConcat(main, a[1..], b, Step(main, a[0], next, s));
    }
  }

  lemma {:induction false} LineariseEnds(self: ContractId, f: Forest)
    requires WellFormed(self, f)
    ensures Linearise(f) == [] || !LooksAhead(Linearise(f)[|Linearise(f)| - 1])
  {
    match f
    case End =>
    case Note(_, rest) => LineariseEnds(self, rest);
    case Call(_, _, _, rest) => LineariseEnds(self, rest);
  }

  lemma RunCons(main: ContractId, e: Event, events: seq<Event>, s: Scan)
    ensures Run(main, [e] + events, s) == Run(main, events, Step(main, e, if events == [] then None else Some(events[0]), s))
  {
    assert ([e] + events)[1..] == events;
  }

  lemma EdgesAssociate(a: seq<Edge>, b: seq<Edge>, c: seq<Edge>)
    ensures a + b + c == a + (b + c)
  {
  }

  /** `r` is `s` with the given edges recorded, the stack and depth as they were. */
  ghost predicate Recorded(r: Scan, s: Scan, edges: seq<Edge>) {
    r.stack == s.stack && r.depth == s.depth && EdgesOf(r.calls) == EdgesOf(s.calls) + edges
  }

  /** Running what a contract does records its tree's edges and restores the stack. */
  lemma {:induction false} ScanForest(main: ContractId, self: ContractId, f: Forest, s: Scan)
    requires WellFormed(self, f) && NoSelfCalls(self, f) && NoReentry(main, self, f)
    requires s.stack != [] && s.stack[|s.stack| - 1] == self && s.depth == |s.stack| - 1
    ensures Recorded(Run(main, Linearise(f), s), s, TreeEdges(self, s.depth + 1, f))
    decreases f
  {
    match f
    case End =>
    case Note(e, rest) =>
      var after := Linearise(rest);
      RunCons(main, e, after, s);
      assert rest.Call? ==> rest.Callee() != main;
      NoteIsInert(main, self, e, rest, s);
      ScanForest(main, self, rest, s);
    case Call(enter, body, leave, rest) =>
      ScanCall(main, self, f, s);
  }

  lemma NoteIsInert(main: ContractId, self: ContractId, e: Event, rest: Forest, s: Scan)
    requires IsNote(self, e)
    ensures forall next :: Step(main, e, next, s) == s
  {
  }

  /** A callee's fn_call records one edge and pushes the callee. */
  lemma EnterCall(main: ContractId, self: ContractId, enter: Event, after: seq<Event>, s: Scan) returns (r: Scan)
    requires enter.contract.Some? && enter.topic == FN_CALL && enter.contract.value !in {"", main, self}
    requires s.stack != [] && s.stack[|s.stack| - 1] == self && after != []
    ensures Run(main, [enter] + after, s) == Run(main, after, r)
    ensures r.stack == s.stack + [enter.contract.value] && r.depth == s.depth + 1
    ensures EdgesOf(r.calls) == EdgesOf(s.calls) + [Edge(self, enter.contract.value, CalleeName(enter), s.depth + 1)]
  {
    RunCons(main, enter, after, s);
    r := Step(main, enter, Some(after[0]), s);
  }

  /** Its fn_return pops it. */
  lemma LeaveCall(main: ContractId, leave: Event, after: seq<Event>, s: Scan) returns (r: Scan)
    requires leave.contract.Some? && leave.topic == FN_RETURN && |s.stack| > 1 && s.depth > 0
    ensures Run(main, [leave] + after, s) == Run(main, after, r)
    ensures r == s.(stack := s.stack[..|s.stack| - 1], depth := s.depth - 1)
  {
    RunCons(main, leave, after, s);
    hide Run;
    r := s.(stack := s.stack[..|s.stack| - 1], depth := s.depth - 1);
  }

  lemma CallParts(main: ContractId, self: ContractId, f: Forest)
    requires f.Call? && WellFormed(self, f) && NoSelfCalls(self, f) && NoReentry(main, self, f)
    ensures Brackets(f.enter, f.leave) && f.Callee() !in {"", main, self}
    ensures WellFormed(f.Callee(), f.body) && NoSelfCalls(f.Callee(), f.body) && NoReentry(main, f.Callee(), f.body)
  {
  }

  lemma LineariseCall(f: Forest)
    requires f.Call?
    ensures Linearise(f) == [f.enter] + (Linearise(f.body) + ([f.leave] + Linearise(f.rest)))
  {
  }

  /** The run of a call up to its fn_return: its edge, then those of its body, the callee on top. */
  lemma {:induction false} ScanCallBody(main: ContractId, self: ContractId, f: Forest, s: Scan) returns (s2: Scan)
    requires f.Call? && WellFormed(self, f) && NoSelfCalls(self, f) && NoReentry(main, self, f)
    requires s.stack != [] && s.stack[|s.stack| - 1] == self && s.depth == |s.stack| - 1
    ensures Run(main, Linearise(f), s) == Run(main, [f.leave] + Linearise(f.rest), s2)
    ensures s2.stack == s.stack + [f.Callee()] && s2.depth == s.depth + 1
    ensures EdgesOf(s2.calls) == EdgesOf(s.calls) + ([Edge(self, f.Callee(), CalleeName(f.enter), s.depth + 1)] +
                                                     TreeEdges(f.Callee(), s.depth + 2, f.body))
    decreases f, 0
  {
    CallParts(main, self, f);
    LineariseCall(f);
    hide Run, CalleeName, WellFormed, NoSelfCalls, NoReentry, Linearise, TreeEdges, EdgesOf;
    var tail := [f.leave] + Linearise(f.rest);
    var inner := Linearise(f.body) + tail;
    var s1 := EnterCall(main, self, f.enter, inner, s);
    EdgesAssociate(EdgesOf(s.calls), [Edge(self, f.Callee(), CalleeName(f.enter), s.depth + 1)],
                   TreeEdges(f.Callee(), s.depth + 2, f.body));
    LineariseEnds(f.Callee(), f.body);
    RunConcat(main, Linearise(f.body), tail, s1);
    ScanForest(main, f.Callee(), f.body, s1);
    s2 := Run(main, Linearise(f.body), s1);
  }

  lemma {:induction false} ScanCall(main: ContractId, self: ContractId, f: Forest, s: Scan)
    requires f.Call? && WellFormed(self, f) && NoSelfCalls(self, f) && NoReentry(main, self, f)
    requires s.stack != [] && s.stack[|s.stack| - 1] == self && s.depth == |s.stack| - 1
    ensures Recorded(Run(main, Linearise(f), s), s, TreeEdges(self, s.depth + 1, f))
    decreases f, 1
  {
    hide Run;
    var s2 := ScanCallBody(main, self, f, s);
    var s3 := LeaveCall(main, f.leave, Linearise(f.rest), s2);
    ScanForest(main, self, f.rest, s3);
  }

  ghost function LeadEdges(main: ContractId, enter: Event, f: Forest): seq<Edge>
    requires WellFormed(main, f)
  {
    if f.Call? then [Edge(main, f.Callee(), AheadName(enter, f.enter), 1)] else []
  }

  /** The main contract's own fn_call: Pattern 1's edge, the stack as it was. */
  lemma EnterMain(main: ContractId, enter: Event, f: Forest, leave: Event) returns (r: Scan)
    requires Brackets(enter, leave) && enter.contract.value == main && WellFormed(main, f) && NoReentry(main, main, f)
    ensures Run(main, Trace(enter, f, leave), Start(main)) == Run(main, Linearise(f) + [leave], r)
    ensures r.stack == [main] && r.depth == 0 && EdgesOf(r.calls) == LeadEdges(main, enter, f)
  {
    hide Run, CalleeName, AheadName;
    var inner := Linearise(f) + [leave];
    RunCons(main, enter, inner, Start(main));
    r := Step(main, enter, Some(inner[0]), Start(main));
  }

  lemma LeaveMain(main: ContractId, leave: Event, s: Scan)
    requires leave.contract.Some? && leave.topic == FN_RETURN && s.stack == [main]
    ensures Run(main, [leave], s) == s
  {
    RunCons(main, leave, [], s);
    assert [leave] + [] == [leave];
  }

  /** The scan of a whole trace: Pattern 1's edge for the leading call, then the tree; the stack back at [main]. */
  lemma ScanTrace(main: ContractId, enter: Event, f: Forest, leave: Event)
    requires Brackets(enter, leave) && enter.contract.value == main
    requires WellFormed(main, f) && NoSelfCalls(main, f) && NoReentry(main, main, f)
    ensures var r := Run(main, Trace(enter, f, leave), Start(main));
            r.stack == [main] && r.depth == 0 &&
            EdgesOf(r.calls) == LeadEdges(main, enter, f) + TreeEdges(main, 1, f)
  {
    hide Run, Step, LeadEdges, TreeEdges, NoSelfCalls, NoReentry, WellFormed, Linearise;
    var s1 := EnterMain(main, enter, f, leave);
    LineariseEnds(main, f);
    RunConcat(main, Linearise(f), [leave], s1);
    ScanForest(main, main, f, s1);
    LeaveMain(main, leave, Run(main, Linearise(f), s1));
  }

  lemma {:induction false} SelfCallEdge(self: ContractId, depth: int, f: Forest)
    requires WellFormed(self, f) && !NoSelfCalls(self, f)
    ensures exists e :: e in TreeEdges(self, depth, f) && e.from == e.to
    decreases f
  {
    match f
    case Note(_, rest) => SelfCallEdge(self, depth, rest);
    case Call(enter, body, _, rest) =>
      var edges := TreeEdges(self, depth, f);
      if f.Callee() == self {
        assert edges[0] in edges;
      } else if !NoSelfCalls(f.Callee(), body) {
        SelfCallEdge(f.Callee(), depth + 1, body);
        var e :| e in TreeEdges(f.Callee(), depth + 1, body) && e.from == e.to;
        assert e in edges;
      } else {
        SelfCallEdge(self, depth, rest);
        var e :| e in TreeEdges(self, depth, rest) && e.from == e.to;
        assert e in edges;
      }
  }

  lemma {:induction false} ReentryEdge(main: ContractId, self: ContractId, depth: int, f: Forest)
    requires WellFormed(self, f) && !NoReentry(main, self, f)
    ensures exists e :: e in TreeEdges(self, depth, f) && e.to == main
    decreases f
  {
    match f
    case Note(_, rest) => ReentryEdge(main, self, depth, rest);
    case Call(enter, body, _, rest) =>
      var edges := TreeEdges(self, depth, f);
      if f.Callee() == main {
        assert edges[0] in edges;
      } else if !NoReentry(main, f.Callee(), body) {
        ReentryEdge(main, f.Callee(), depth + 1, body);
        var e :| e in TreeEdges(f.Callee(), depth + 1, body) && e.to == main;
        assert e in edges;
      } else {
        ReentryEdge(main, self, depth, rest);
        var e :| e in TreeEdges(self, depth, rest) && e.to == main;
        assert e in edges;
      }
  }

  /** The call graph recovered from a trace: scan, then deduplicate. */
  ghost function Recovered(main: ContractId, enter: Event, f: Forest, leave: Event): seq<Edge> {
    EdgesOf(DeduplicatedByKey(Run(main, Trace(enter, f, leave), Start(main)).calls))
  }

  lemma RecoveredEdges(main: ContractId, enter: Event, f: Forest, leave: Event)
    requires Clean(main) && CleanEvents(Trace(enter, f, leave))
    ensures var calls := Run(main, Trace(enter, f, leave), Start(main)).calls;
            Recovered(main, enter, f, leave) == FirstOccurrences(EdgesOf(calls))
    ensures forall e | e in Recovered(main, enter, f, leave) :: e.from != e.to && e.to != main
  {
    var trace := Trace(enter, f, leave);
    var calls := Run(main, trace, Start(main)).calls;
    RunKeepsClean(main, trace, Start(main));
    ByKeyIsByEdge(calls);
    DeduplicatedEdges(calls);
    FirstOccurrencesMembers(EdgesOf(calls));
    StartInv(main);
    RunKeepsInv(main, trace, Start(main));
    forall e | e in EdgesOf(calls) ensures e.from != e.to && e.to != main {
      var i :| 0 <= i < |calls| && EdgesOf(calls)[i] == e;
      assert ProperCall(main, calls[i], i);
    }
  }

  /**
   Exactly when the tree is recovered: the edges kept are the first occurrences of the tree's
   preorder edges if and only if no contract calls itself, the main contract is not re-entered,
   and the leading call is named, by its own event or alike by both rules' fallbacks.
   */
  lemma CallTreeRecovery(main: ContractId, enter: Event, f: Forest, leave: Event)
    requires Brackets(enter, leave) && enter.contract.value == main && WellFormed(main, f)
    requires Clean(main) && CleanEvents(Trace(enter, f, leave))
    ensures Recovered(main, enter, f, leave) == FirstOccurrences(TreeEdges(main, 1, f)) <==>
            NoSelfCalls(main, f) && NoReentry(main, main, f) && LeadNamed(enter, f)
  {
    LeadNamedExactly(enter, f);
    var edges := TreeEdges(main, 1, f);
    RecoveredEdges(main, enter, f, leave);
    FirstOccurrencesMembers(edges);
    if !NoSelfCalls(main, f) {
      SelfCallEdge(main, 1, f);
      var e :| e in edges && e.from == e.to;
      assert e in FirstOccurrences(edges);
    } else if !NoReentry(main, main, f) {
      ReentryEdge(main, main, 1, f);
      var e :| e in edges && e.to == main;
      assert e in FirstOccurrences(edges);
    } else {
      ScanTrace(main, enter, f, leave);
      if f.Call? {
        var twin := Edge(main, f.Callee(), AheadName(enter, f.enter), 1);
        assert LeadEdges(main, enter, f) + edges == [twin] + edges;
        if LeadNameAgrees(enter, f) {
          FirstOccurrencesTwin(twin, edges);
        } else {
          FirstOccurrencesHead([twin] + edges);
          FirstOccurrencesHead(edges);
        }
      } else {
        assert LeadEdges(main, enter, f) + edges == edges;
      }
    }
  }

  // One failing trace per hypothesis, the other two holding.

  function Plain(contract: ContractId, topic: string, name: string): Event {
    Event(Some(contract), topic, name, None, true)
  }

  /** One call without siblings. */
  function OneCall(contract: ContractId, name: string, body: Forest): Forest {
    Call(Plain(contract, FN_CALL, name), body, Plain(contract, FN_RETURN, ""), End)
  }

  ghost predicate RecoveredByMain(f: Forest)
    requires WellFormed("M", f)
  {
    Recovered("M", Plain("M", FN_CALL, "run"), f, Plain("M", FN_RETURN, "")) == FirstOccurrences(TreeEdges("M", 1, f))
  }

  lemma OneCallUnfolds(main: ContractId, self: ContractId, contract: ContractId, name: string, body: Forest)
    requires contract != "" && WellFormed(contract, body)
    ensures var f := OneCall(contract, name, body);
            && WellFormed(self, f)
            && (NoSelfCalls(self, f) <==> contract != self && NoSelfCalls(contract, body))
            && (NoReentry(main, self, f) <==> contract != main && NoReentry(main, contract, body))
            && (Clean(contract) && CleanEvents(Linearise(body)) ==> CleanEvents(Linearise(f)))
  {
  }

  lemma NotRecovered(f: Forest)
    requires WellFormed("M", f) && CleanEvents(Linearise(f))
    requires !(NoSelfCalls("M", f) && NoReentry("M", "M", f) && LeadNamed(Plain("M", FN_CALL, "run"), f))
    ensures !RecoveredByMain(f)
  {
    hide Recovered, Linearise, NoSelfCalls, NoReentry, LeadNamed, WellFormed, TreeEdges, FirstOccurrences;
    CallTreeRecovery("M", Plain("M", FN_CALL, "run"), f, Plain("M", FN_RETURN, ""));
  }

  /** A calls itself. */
  lemma SelfCallNotRecovered()
    ensures var f := OneCall("A", "f", OneCall("A", "g", End));
            && WellFormed("M", f) && NoReentry("M", "M", f) && LeadNamed(Plain("M", FN_CALL, "run"), f)
            && !RecoveredByMain(f)
  {
    hide RecoveredByMain;
    OneCallUnfolds("M", "A", "A", "g", End);
    OneCallUnfolds("M", "M", "A", "f", OneCall("A", "g", End));
    NotRecovered(OneCall("A", "f", OneCall("A", "g", End)));
  }

  /** A calls back into the main contract M. */
  lemma ReentryNotRecovered()
    ensures var f := OneCall("A", "f", OneCall("M", "g", End));
            && WellFormed("M", f) && NoSelfCalls("M", f) && LeadNamed(Plain("M", FN_CALL, "run"), f)
            && !RecoveredByMain(f)
  {
    hide RecoveredByMain;
    OneCallUnfolds("M", "A", "M", "g", End);
    OneCallUnfolds("M", "M", "A", "f", OneCall("M", "g", End));
    NotRecovered(OneCall("A", "f", OneCall("M", "g", End)));
  }

  /** The leading callee has no name: Pattern 1 gives it the main function's, Pattern 2 "unknown". */
  lemma UnnamedLeadNotRecovered()
    ensures var f := OneCall("A", "", End);
            && WellFormed("M", f) && NoSelfCalls("M", f) && NoReentry("M", "M", f)
            && !RecoveredByMain(f)
  {
    hide RecoveredByMain;
    OneCallUnfolds("M", "M", "A", "", End);
    assert "run" != UNKNOWN;
    NotRecovered(OneCall("A", "", End));
  }

  lemma SelfCallIsInert(main: ContractId, enter: Event, after: seq<Event>, s: Scan)
    requires enter.contract.Some? && enter.topic == FN_CALL && enter.contract.value != main && |s.stack| > 1
    requires enter.contract.value == s.stack[|s.stack| - 1] && after != [] && after[0].topic == FN_RETURN
    ensures Run(main, [enter] + after, s) == Run(main, after, s)
  {
    RunCons(main, enter, after, s);
  }

  /**
   Why self-calls are excluded: a self-call's fn_call is not pushed but its fn_return pops, so the
   contract's next call is attributed to that contract's own caller, one level too high.
   */
  lemma SelfCallMisattributes(main: ContractId, self: ContractId, enter: Event, leave: Event, call: Event, after: seq<Event>, s: Scan)
    requires Brackets(enter, leave) && enter.contract.value == self && self != main
    requires |s.stack| > 1 && s.stack[|s.stack| - 1] == self && s.depth == |s.stack| - 1
    requires var caller := s.stack[|s.stack| - 2];
             call.contract.Some? && call.topic == FN_CALL && call.contract.value !in {"", main, caller}
    requires after != []
    ensures exists r :: Run(main, [enter] + ([leave] + ([call] + after)), s) == Run(main, after, r) &&
                        EdgesOf(r.calls) == EdgesOf(s.calls) +
                        [Edge(s.stack[|s.stack| - 2], call.contract.value, CalleeName(call), s.depth)]
  {
    hide Run, Step, CalleeName;
    SelfCallIsInert(main, enter, [leave] + ([call] + after), s);
    var s1 := LeaveCall(main, leave, [call] + after, s);
    var r := EnterCall(main, s.stack[|s.stack| - 2], call, after, s1);
  }
}
