/**
 call_graph.go: the scan of fn_call/fn_return diagnostic events that rebuilds the call
 stack, and the facts it guarantees on every event list, however ill-nested.
 */
module CallGraph {
  import opened Wrappers
  import opened Calls
  import FnName

  const FN_CALL := "fn_call"
  const FN_RETURN := "fn_return"
  const UNKNOWN := "unknown"

  /**
   A diagnostic event, reduced to what the scan reads.
   `contract` is None when the contract id is nil or does not encode;
   `topic` is extractFirstTopic; `name` is the second topic read as a function name, or "".
   */
  datatype Event = Event(
    contract: Option<ContractId>,
    topic: string,
    name: string,
    arguments: Option<FnName.Json>,
    successful: bool)

  /** extractFunctionNameFromDiagnosticEvent. */
  function EventFunction(e: Event): string {
    if e.name == "" then UNKNOWN else e.name
  }

  predicate Known(name: string) {
    name != "" && name != UNKNOWN
  }

  /** The arguments fallback applied to a name that is not known. */
  ghost function NameOrArgument(name: string, arguments: Option<FnName.Json>): string {
    if Known(name) || arguments.None? || FnName.Find(arguments.value) == "" then name
    else FnName.Find(arguments.value)
  }

  /** The function name recorded for a callee's own fn_call event. */
  ghost function CalleeName(e: Event): string {
    NameOrArgument(EventFunction(e), e.arguments)
  }

  /** The function name recorded at the main contract's fn_call, reading one event ahead. */
  ghost function AheadName(e: Event, next: Event): string {
    var ahead := if next.topic == FN_CALL then EventFunction(next) else "";
    NameOrArgument(if Known(ahead) then ahead else EventFunction(e), e.arguments)
  }

  /** The loop's variables. */
  datatype Scan = Scan(calls: seq<ContractCall>, stack: seq<ContractId>, depth: int, order: int)

  function Start(main: ContractId): Scan {
    Scan([], [main], 0, 0)
  }

  function Record(s: Scan, from: ContractId, to: ContractId, name: string, e: Event): Scan {
    s.(calls := s.calls + [ContractCall(from, to, name, e.arguments, s.depth + 1, s.order, e.successful)],
       order := s.order + 1)
  }

  /** Pattern 1: the main contract's fn_call followed by an event of another contract. */
  ghost function Pattern1(main: ContractId, e: Event, next: Option<Event>, s: Scan): Scan {
    if && e.contract == Some(main) && e.topic == FN_CALL
       && next.Some? && next.value.contract.Some? && next.value.contract.value != main
    then Record(s, main, next.value.contract.value, AheadName(e, next.value), e)
    else s
  }

  function Caller(main: ContractId, s: Scan): ContractId {
    if s.stack == [] then main else s.stack[|s.stack| - 1]
  }

  /** Pattern 2: a fn_call of a contract other than the main one and the one on top of the stack. */
  ghost function Pattern2(main: ContractId, e: Event, s: Scan): Scan {
    if e.contract.Some? && e.topic == FN_CALL && e.contract.value != main && e.contract.value != Caller(main, s)
    then Record(s, Caller(main, s), e.contract.value, CalleeName(e), e)
    else s
  }

  function UpdateStack(e: Event, s: Scan): Scan {
    if e.contract.None? then s
    else if e.topic == FN_CALL then
      if e.contract.value != "" && (s.stack == [] || s.stack[|s.stack| - 1] != e.contract.value)
      then s.(stack := s.stack + [e.contract.value], depth := s.depth + 1)
      else s
    else if e.topic == FN_RETURN && |s.stack| > 1 then
      s.(stack := s.stack[..|s.stack| - 1], depth := if s.depth > 0 then s.depth - 1 else s.depth)
    else s
  }

  ghost function Step(main: ContractId, e: Event, next: Option<Event>, s: Scan): Scan {
    UpdateStack(e, Pattern2(main, e, Pattern1(main, e, next, s)))
  }

  ghost function Run(main: ContractId, events: seq<Event>, s: Scan): Scan {
    if events == [] then s else
      Run(main, events[1..], Step(main, events[0], if |events| > 1 then Some(events[1]) else None, s))
  }

  method ArgumentName(name: string, arguments: Option<FnName.Json>) returns (r: string)
    ensures r == NameOrArgument(name, arguments)
  {
    r := name;
    if !Known(name) && arguments.Some? {
      var found := FnName.FindFnNameRecursive(arguments.value);
      if found != "" {
        r := found;
      }
    }
  }

  /** The loop body's first block: a fn_call of the main contract, then an event of another one. */
  method RecordAhead(main: ContractId, e: Event, next: Option<Event>, before: Scan) returns (after: Scan)
    requires e.contract.Some?
    ensures after == Pattern1(main, e, next, before)
  {
    hide NameOrArgument, EventFunction, Known;
    var contract := e.contract.value;
    var calls, executionOrder := before.calls, before.order;
    if e.topic == FN_CALL && contract == main && next.Some? {
      var ahead := next.value;
      if ahead.contract.Some? && ahead.contract.value != contract {
        var name := "";
        if ahead.topic == FN_CALL {
          name := EventFunction(ahead);
        }
        if !Known(name) {
          name := EventFunction(e);
        }
        name := ArgumentName(name, e.arguments);
        calls := calls +
        [ContractCall(contract, ahead.contract.value, name, e.arguments, before.depth + 1, executionOrder, e.successful)];
        executionOrder := executionOrder + 1;
      }
    }
    after := Scan(calls, before.stack, before.depth, executionOrder);
  }

  /** Its second block: a fn_call of a contract other than the one on top of the stack. */
  method RecordCallee(main: ContractId, e: Event, before: Scan) returns (after: Scan)
    requires e.contract.Some?
    ensures after == Pattern2(main, e, before)
  {
    hide NameOrArgument, EventFunction;
    var contract := e.contract.value;
    var calls, executionOrder := before.calls, before.order;
    if e.topic == FN_CALL && contract != main {
      var from := main;
      if |before.stack| > 0 {
        from := before.stack[|before.stack| - 1];
      }
      if from != contract {
        var name := ArgumentName(EventFunction(e), e.arguments);
        calls := calls +
        [ContractCall(from, contract, name, e.arguments, before.depth + 1, executionOrder, e.successful)];
        executionOrder := executionOrder + 1;
      }
    }
    after := Scan(calls, before.stack, before.depth, executionOrder);
  }

  /** Its third block: push on fn_call, pop on fn_return. */
  method TrackStack(e: Event, before: Scan) returns (after: Scan)
    requires e.contract.Some?
    ensures after == UpdateStack(e, before)
  {
    var contract := e.contract.value;
    var callStack, currentDepth := before.stack, before.depth;
    if e.topic == FN_CALL {
      if contract != "" && (|callStack| == 0 || callStack[|callStack| - 1] != contract) {
        callStack := callStack + [contract];
        currentDepth := currentDepth + 1;
      }
    } else if e.topic == FN_RETURN && |callStack| > 1 {
      callStack := callStack[..|callStack| - 1];
      if currentDepth > 0 {
        currentDepth := currentDepth - 1;
      }
    }
    after := Scan(before.calls, callStack, currentDepth, before.order);
  }

  /** One pass of the loop body over the loop's variables. */
  method ScanEvent(main: ContractId, e: Event, next: Option<Event>, before: Scan) returns (after: Scan)
    ensures after == Step(main, e, next, before)
  {
    if e.contract.None? {
      return before;
    }
    after := RecordAhead(main, e, next, before);
    after := RecordCallee(main, e, after);
    after := TrackStack(e, after);
  }

  /** extractCrossContractCallsFromDiagnosticEvents. */
  method ExtractFromDiagnosticEvents(main: ContractId, events: seq<Event>) returns (calls: seq<ContractCall>)
    ensures calls == Run(main, events, Start(main)).calls
  {
    var scan := Start(main);
    assert events[0..] == events;
    for i := 0 to |events|
      invariant Run(main, events, Start(main)) == Run(main, events[i..], scan)
    {
      assert events[i..][0] == events[i] && events[i..][1..] == events[i + 1..];
      assert i + 1 < |events| ==> events[i..][1] == events[i + 1];
      scan := ScanEvent(main, events[i], if i + 1 < |events| then Some(events[i + 1]) else None, scan);
    }
    calls := scan.calls;
  }

  // Invariants of the scan on arbitrary event lists.

  /** The stack: main at the bottom, depth one less than its height, no two neighbours equal. */
  ghost predicate StackInv(main: ContractId, s: Scan) {
    && s.stack != [] && s.stack[0] == main
    && s.depth == |s.stack| - 1
    && (forall i | 0 <= i < |s.stack| - 1 :: s.stack[i] != s.stack[i + 1])
    && (forall i | 0 <= i < |s.stack| :: s.stack[i] == main || Called(s.calls, s.stack[i]))
  }

  ghost predicate Called(calls: seq<ContractCall>, c: ContractId) {
    exists j :: 0 <= j < |calls| && calls[j].to == c
  }

  /** The calls: numbered by position, never a self-call, never into main, and rooted at main. */
  ghost predicate CallsInv(main: ContractId, s: Scan) {
    && s.order == |s.calls|
    && Rooted(main, s.calls)
    && forall i | 0 <= i < |s.calls| :: ProperCall(main, s.calls[i], i)
  }

  ghost predicate ProperCall(main: ContractId, c: ContractCall, position: int) {
    c.from != c.to && c.to != main && c.depth >= 1 && c.order == position
  }

  ghost predicate Inv(main: ContractId, s: Scan) {
    StackInv(main, s) && CallsInv(main, s)
  }

  lemma RecordKeepsInv(main: ContractId, s: Scan, from: ContractId, to: ContractId, name: string, e: Event)
    requires Inv(main, s) && from in s.stack && to != from && to != main
    ensures Inv(main, Record(s, from, to, name, e)) && Called(Record(s, from, to, name, e).calls, to)
  {
    var r := Record(s, from, to, name, e);
    var i :| 0 <= i < |s.stack| && s.stack[i] == from;
    assert from == main || Called(s.calls, from);
    RootedSnoc(main, s.calls, r.calls[|s.calls|]);
    assert r.calls[|s.calls|].to == to;
    forall k | 0 <= k < |s.stack| ensures s.stack[k] == main || Called(r.calls, s.stack[k]) {
      if s.stack[k] != main {
        var j :| 0 <= j < |s.calls| && s.calls[j].to == s.stack[k];
        assert r.calls[j].to == s.stack[k];
      }
    }
  }

  lemma UpdateKeepsInv(main: ContractId, e: Event, s: Scan)
    requires Inv(main, s)
    requires e.contract.Some? && e.topic == FN_CALL && e.contract.value != main && e.contract.value != Caller(main, s) ==>
               Called(s.calls, e.contract.value)
    ensures Inv(main, UpdateStack(e, s))
  {
  }

  lemma StepKeepsInv(main: ContractId, e: Event, next: Option<Event>, s: Scan)
    requires Inv(main, s)
    ensures Inv(main, Step(main, e, next, s))
  {
    var s1 := Pattern1(main, e, next, s);
    if s1 != s {
      assert s.stack[0] in s.stack;
      RecordKeepsInv(main, s, main, next.value.contract.value, AheadName(e, next.value), e);
    }
    var s2 := Pattern2(main, e, s1);
    if s2 != s1 {
      RecordKeepsInv(main, s1, Caller(main, s1), e.contract.value, CalleeName(e), e);
    }
    hide Inv;
    UpdateKeepsInv(main, e, s2);
  }

  /** On every event list, however ill-nested, the stack and the calls keep their invariants. */
  lemma {:induction false} RunKeepsInv(main: ContractId, events: seq<Event>, s: Scan)
    requires Inv(main, s)
    ensures Inv(main, Run(main, events, s))
  {
    if events != [] {
      var next := if |events| > 1 then Some(events[1]) else None;
      StepKeepsInv(main, events[0], next, s);
      RunKeepsInv(main, events[1..], Step(main, events[0], next, s));
    }
  }

  lemma StartInv(main: ContractId)
    ensures Inv(main, Start(main))
  {
  }

  // Where a recorded call comes from.

  /**
   The name of a call, `own` being what the event's topics say, or "": that when it is known; else one
   that some object anywhere within the arguments binds to fn_name; else, when none does, "unknown".
   */
  ghost predicate NamedFrom(name: string, own: string, arguments: Option<FnName.Json>) {
    if own !in {"", "unknown"} then name == own
    else if BindsAName(arguments) then exists w :: FnName.Within(w, arguments.value) && FnName.Binds(w, name)
    else name == "unknown"
  }

  ghost predicate BindsAName(arguments: Option<FnName.Json>) {
    arguments.Some? && exists w, n :: FnName.Within(w, arguments.value) && FnName.Binds(w, n)
  }

  /** Recorded at the callee's own fn_call event. */
  ghost predicate FromCallee(main: ContractId, e: Event, c: ContractCall) {
    && e.contract == Some(c.to) && c.to != main
    && NamedFrom(c.function_, e.name, e.arguments)
  }

  /** Recorded at the main contract's fn_call event, the callee's event being the next. */
  ghost predicate FromMain(main: ContractId, e: Event, next: Option<Event>, c: ContractCall) {
    && e.contract == Some(main) && c.from == main && c.to != main
    && next.Some? && next.value.contract == Some(c.to)
    && NamedFrom(c.function_,
                 if next.value.topic == "fn_call" && next.value.name !in {"", "unknown"} then next.value.name else e.name,
                 e.arguments)
  }

  /** The call carries the arguments and the success flag of the fn_call event it is recorded at. */
  ghost predicate FromEvent(main: ContractId, e: Event, next: Option<Event>, c: ContractCall) {
    && e.topic == "fn_call" && c.arguments == e.arguments && c.successful == e.successful
    && (FromCallee(main, e, c) || FromMain(main, e, next, c))
  }

  lemma FallbackName(own: string, arguments: Option<FnName.Json>)
    ensures NamedFrom(NameOrArgument(if own == "" then UNKNOWN else own, arguments), own, arguments)
  {
    if arguments.Some? {
      FnName.FindsIffBound(arguments.value);
    }
  }

  lemma StepRecords(main: ContractId, e: Event, next: Option<Event>, s: Scan)
    ensures forall c | c in Step(main, e, next, s).calls :: c in s.calls || FromEvent(main, e, next, c)
  {
    FallbackName(e.name, e.arguments);
    if next.Some? {
      FallbackName(next.value.name, e.arguments);
    }
    hide NamedFrom, NameOrArgument;
    var s1 := Pattern1(main, e, next, s);
    forall c | c in s1.calls ensures c in s.calls || FromEvent(main, e, next, c) {
      if s1 != s {
        assert s1.calls == s.calls + [s1.calls[|s.calls|]];
      }
    }
    var s2 := Pattern2(main, e, s1);
    forall c | c in s2.calls ensures c in s1.calls || FromEvent(main, e, next, c) {
      if s2 != s1 {
        assert s2.calls == s1.calls + [s2.calls[|s1.calls|]];
      }
    }
  }

  ghost predicate FromEvents(main: ContractId, events: seq<Event>, c: ContractCall) {
    exists i :: 0 <= i < |events| && FromEvent(main, events[i], if i + 1 < |events| then Some(events[i + 1]) else None, c)
  }

  lemma {:induction false} RunRecords(main: ContractId, events: seq<Event>, k: nat, s: Scan)
    requires k <= |events|
    requires forall c | c in s.calls :: FromEvents(main, events, c)
    ensures forall c | c in Run(main, events[k..], s).calls :: FromEvents(main, events, c)
    decreases |events| - k
  {
    hide FromEvent, Step;
    if k < |events| {
      var rest, next := events[k..], if k + 1 < |events| then Some(events[k + 1]) else None;
      assert rest[0] == events[k] && rest[1..] == events[k + 1..];
      assert |rest| > 1 ==> rest[1] == events[k + 1];
      StepRecords(main, events[k], next, s);
      RunRecords(main, events, k + 1, Step(main, events[k], next, s));
    }
  }

  /** On every event list each recorded call comes from a fn_call event of the list, whose arguments, success and name it carries. */
  lemma CallsComeFromEvents(main: ContractId, events: seq<Event>)
    ensures forall c | c in Run(main, events, Start(main)).calls :: FromEvents(main, events, c)
  {
    assert events[0..] == events;
    RunRecords(main, events, 0, Start(main));
  }

  // Strkey ids flow from the events into the calls.

  predicate CleanEvents(events: seq<Event>) {
    forall e | e in events :: e.contract.Some? ==> Clean(e.contract.value)
  }

  predicate CleanScan(s: Scan) {
    CleanCalls(s.calls) && forall c | c in s.stack :: Clean(c)
  }

  lemma {:induction false} RunKeepsClean(main: ContractId, events: seq<Event>, s: Scan)
    requires Clean(main) && CleanEvents(events) && CleanScan(s)
    ensures CleanScan(Run(main, events, s))
  {
    if events != [] {
      var e, next := events[0], if |events| > 1 then Some(events[1]) else None;
      assert e in events && (next.Some? ==> next.value in events);
      var s1 := Pattern1(main, e, next, s);
      var s2 := Pattern2(main, e, s1);
      assert CleanCalls(s1.calls) && CleanCalls(s2.calls);
      RunKeepsClean(main, events[1..], UpdateStack(e, s2));
    }
  }
}
