/**
 extract.go: ExtractAll's goroutines, its mutex, its WaitGroup and the two decode-once caches
 of LedgerInput, as an interleaving of atomic steps.

 Any number of extractors and caches is allowed; the source has 21 and 2. Assumed: a decode
 returns (items, or items and an error); it does not panic.
 */
module ExtractAll {
  import opened Wrappers

  type Row = int
  type Error = string

  /** What a reader yields: items, then end of file or an error. Also what a full cache holds. */
  datatype Source = Source(items: seq<Row>, failure: Option<Error>)

  datatype Outcome = Rows(rows: seq<Row>) | Failed(error: Error) | Panicked(message: string)

  /** What an extractor does next, given the answers it has had from the caches so far. */
  datatype Action = Ask(cache: nat) | Finish(outcome: Outcome)

  datatype Extractor = Extractor(name: string, act: seq<Source> -> Action, maxAsks: nat)

  datatype Config = Config(sources: seq<Source>, extractors: seq<Extractor>) {
    ghost predicate Valid() {
      forall i | 0 <= i < |extractors| :: ValidExtractor(extractors[i])
    }

    /** The extractor asks existing caches only, and finitely often. */
    ghost predicate ValidExtractor(x: Extractor) {
      forall h :: if x.act(h).Ask? then x.act(h).cache < |sources| && |h| < x.maxAsks else true
    }
  }

  // The sequential answer.

  /** The extractor run on its own, continuing from the answers `h`. */
  ghost function Solo(cfg: Config, i: nat, h: seq<Source>): Outcome
    requires cfg.Valid() && i < |cfg.extractors|
    decreases if |h| < cfg.extractors[i].maxAsks then cfg.extractors[i].maxAsks - |h| else 0
  {
    var x := cfg.extractors[i];
    assert cfg.ValidExtractor(x);
    match x.act(h)
    case Finish(o) => o
    case Ask(c) => Solo(cfg, i, h + [cfg.sources[c]])
  }

  /** What the goroutine does with its outcome under the mutex. */
  datatype Write = WriteRows(rows: seq<Row>) | WriteError(error: Error)

  function WriteFor(name: string, o: Outcome): Write {
    match o
    case Rows(rows) => WriteRows(rows)
    case Failed(e) => WriteError(name + ": " + e)
    case Panicked(m) => WriteError("panic in " + name + ": " + m)
  }

  ghost function SoloWrite(cfg: Config, i: nat): Write
    requires cfg.Valid() && i < |cfg.extractors|
  {
    WriteFor(cfg.extractors[i].name, Solo(cfg, i, []))
  }

  /** The slot a run alone leaves: its rows, or empty when it fails or panics. */
  ghost function SoloSlot(cfg: Config, i: nat): Option<seq<Row>>
    requires cfg.Valid() && i < |cfg.extractors|
  {
    if Solo(cfg, i, []).Rows? then Some(Solo(cfg, i, []).rows) else None
  }

  /** The error a run alone leaves, if any: the extractor's name and what went wrong. */
  ghost function SoloErrors(cfg: Config, i: nat): seq<Error>
    requires cfg.Valid() && i < |cfg.extractors|
  {
    match Solo(cfg, i, [])
    case Rows(_) => []
    case Failed(e) => [cfg.extractors[i].name + ": " + e]
    case Panicked(m) => ["panic in " + cfg.extractors[i].name + ": " + m]
  }

  /** The errors of the extractors run one after another. */
  ghost function SequentialErrors(cfg: Config, n: nat): seq<Error>
    requires cfg.Valid() && n <= |cfg.extractors|
  {
    if n == 0 then [] else SequentialErrors(cfg, n - 1) + SoloErrors(cfg, n - 1)
  }

  /** How many extractors do not end in rows. */
  ghost function FailureCount(cfg: Config, n: nat): nat
    requires cfg.Valid() && n <= |cfg.extractors|
  {
    if n == 0 then 0 else FailureCount(cfg, n - 1) + if Solo(cfg, n - 1, []).Rows? then 0 else 1
  }

  lemma {:induction false} OneErrorEach(cfg: Config, n: nat)
    requires cfg.Valid() && n <= |cfg.extractors|
    ensures |SequentialErrors(cfg, n)| == FailureCount(cfg, n)
  {
    hide Solo, SoloErrors;
    if n > 0 {
      OneErrorEach(cfg, n - 1);
      OneError(cfg, n - 1);
    }
  }

  lemma OneError(cfg: Config, i: nat)
    requires cfg.Valid() && i < |cfg.extractors|
    ensures |SoloErrors(cfg, i)| == if Solo(cfg, i, []).Rows? then 0 else 1
  {
    hide Solo;
  }

  /** The write under the mutex is the slot or the error. */
  lemma WriteIsOutcome(cfg: Config, i: nat)
    requires cfg.Valid() && i < |cfg.extractors|
    ensures SoloSlot(cfg, i) == match SoloWrite(cfg, i) case WriteRows(rows) => Some(rows) case WriteError(_) => None
    ensures SoloErrors(cfg, i) == match SoloWrite(cfg, i) case WriteRows(_) => [] case WriteError(e) => [e]
  {
    hide Solo;
  }

  // The concurrent machine.

  datatype Once = Fresh | Running(owner: nat) | Done

  /** A sync.Once with the slice and error its body fills, and how often the body was started. */
  datatype Cell = Cell(once: Once, items: seq<Row>, failure: Option<Error>, decodes: nat)

  datatype Pc =
    | Unborn
    | Thinking(h: seq<Source>)
    | Entering(h: seq<Source>, cache: nat)
    | Decoding(h: seq<Source>, cache: nat, read: nat)
    | Closing(h: seq<Source>, cache: nat)
    | Reading(h: seq<Source>, cache: nat)
    | WantLock(write: Write)
    | Holding(write: Write)
    | Appending(write: Write, errs: seq<Error>)
    | Unlocking
    | Exiting
    | Finished

  datatype Main = Spawning(next: nat) | Waiting | Returned

  datatype State = State(
    main: Main,
    pcs: seq<Pc>,
    cells: seq<Cell>,
    lock: Option<nat>,
    pending: int,
    slots: seq<Option<seq<Row>>>,
    errs: seq<Error>)

  ghost function Init(cfg: Config): State {
    State(Spawning(0),
          seq(|cfg.extractors|, _ => Unborn),
          seq(|cfg.sources|, _ => Cell(Fresh, [], None, 0)),
          None, 0,
          seq(|cfg.extractors|, _ => None),
          [])
  }

  datatype Actor = MainThread | Worker(id: nat)

  ghost predicate Enabled(cfg: Config, s: State, a: Actor)
    requires Shape(cfg, s)
  {
    match a
    case MainThread =>
      (match s.main
       case Spawning(n) => true
       case Waiting => s.pending == 0
       case Returned => false)
    case Worker(w) =>
      w < |s.pcs| &&
      match s.pcs[w]
      case Unborn => false
      case Finished => false
      case Entering(_, c) => c < |s.cells| && !s.cells[c].once.Running?
      case WantLock(_) => s.lock.None?
      case _ => true
  }

  ghost predicate Shape(cfg: Config, s: State) {
    && |s.pcs| == |s.slots| == |cfg.extractors|
    && |s.cells| == |cfg.sources|
    && (s.main.Spawning? ==> s.main.next <= |cfg.extractors|)
    && forall w | 0 <= w < |s.pcs| :: CacheInRange(cfg, s.pcs[w])
  }

  predicate CacheInRange(cfg: Config, pc: Pc) {
    pc.Entering? || pc.Decoding? || pc.Closing? || pc.Reading? ==> pc.cache < |cfg.sources|
  }

  ghost function MainStep(cfg: Config, s: State): State
    requires Shape(cfg, s) && Enabled(cfg, s, MainThread)
  {
    match s.main
    case Spawning(n) =>
      if n < |s.pcs| then s.(main := Spawning(n + 1), pending := s.pending + 1, pcs := s.pcs[n := Thinking([])])
      else s.(main := Waiting)
    case Waiting => s.(main := Returned)
  }

  ghost function WorkerStep(cfg: Config, s: State, w: nat): State
    requires Shape(cfg, s) && Enabled(cfg, s, Worker(w))
  {
    match s.pcs[w]
    case Thinking(h) =>
      (match cfg.extractors[w].act(h)
       case Ask(c) => s.(pcs := s.pcs[w := Entering(h, c)])
       case Finish(o) => s.(pcs := s.pcs[w := WantLock(WriteFor(cfg.extractors[w].name, o))]))
    case Entering(h, c) =>
      var cell := s.cells[c];
      if cell.once.Fresh?
      then s.(pcs := s.pcs[w := Decoding(h, c, 0)],
              cells := s.cells[c := cell.(once := Running(w), decodes := cell.decodes + 1)])
      else s.(pcs := s.pcs[w := Reading(h, c)])
    case Decoding(h, c, n) =>
      var cell := s.cells[c];
      if n < |cfg.sources[c].items|
      then s.(pcs := s.pcs[w := Decoding(h, c, n + 1)],
              cells := s.cells[c := cell.(items := cell.items + [cfg.sources[c].items[n]])])
      else s.(pcs := s.pcs[w := Closing(h, c)],
              cells := s.cells[c := cell.(failure := cfg.sources[c].failure)])
    case Closing(h, c) =>
      s.(pcs := s.pcs[w := Reading(h, c)], cells := s.cells[c := s.cells[c].(once := Done)])
    case Reading(h, c) =>
      s.(pcs := s.pcs[w := Thinking(h + [Source(s.cells[c].items, s.cells[c].failure)])])
    case WantLock(write) => s.(pcs := s.pcs[w := Holding(write)], lock := Some(w))
    case Holding(write) =>
      (match write
       case WriteRows(rows) => s.(pcs := s.pcs[w := Unlocking], slots := s.slots[w := Some(rows)])
       case WriteError(_) => s.(pcs := s.pcs[w := Appending(write, s.errs)]))
    case Appending(write, errs) =>
      if write.WriteError? then s.(pcs := s.pcs[w := Unlocking], errs := errs + [write.error]) else s
    case Unlocking => s.(pcs := s.pcs[w := Exiting], lock := None)
    case Exiting => s.(pcs := s.pcs[w := Finished], pending := s.pending - 1)
  }

  ghost function Next(cfg: Config, s: State, a: Actor): State
    requires Shape(cfg, s) && Enabled(cfg, s, a)
  {
    match a case MainThread => MainStep(cfg, s) case Worker(w) => WorkerStep(cfg, s, w)
  }

  // The invariant, one predicate per concern.

  ghost predicate Born(s: State, w: nat)
    requires w < |s.pcs|
  {
    s.pcs[w].Unborn? <==> s.main.Spawning? && w >= s.main.next
  }

  predicate InCritical(pc: Pc) {
    pc.Holding? || pc.Appending? || pc.Unlocking?
  }

  /** The mutex is held by exactly the worker in its critical section. */
  ghost predicate LockInv(s: State) {
    && (s.lock.Some? ==> s.lock.value < |s.pcs|)
    && forall w | 0 <= w < |s.pcs| :: InCritical(s.pcs[w]) <==> s.lock == Some(w)
  }

  /** Each cache is fresh, being filled by its one decoder, or complete. */
  ghost predicate CellInv(cfg: Config, s: State, c: nat)
    requires Shape(cfg, s) && c < |s.cells|
  {
    var cell, source := s.cells[c], cfg.sources[c];
    match cell.once
    case Fresh => cell == Cell(Fresh, [], None, 0)
    case Running(w) =>
      cell.decodes == 1 && w < |s.pcs| &&
      (match s.pcs[w]
       case Decoding(_, c', n) => c' == c && n <= |source.items| && cell.items == source.items[..n] && cell.failure.None?
       case Closing(_, c') => c' == c && cell.items == source.items && cell.failure == source.failure
       case _ => false)
    case Done => cell == Cell(Done, source.items, source.failure, 1)
  }

  /** The answers so far are truthful: continuing from them gives the sequential outcome. */
  ghost predicate Truthful(cfg: Config, w: nat, h: seq<Source>)
    requires cfg.Valid() && w < |cfg.extractors|
  {
    |h| <= cfg.extractors[w].maxAsks && Solo(cfg, w, h) == Solo(cfg, w, [])
  }

  ghost predicate PcInv(cfg: Config, s: State, w: nat)
    requires cfg.Valid() && Shape(cfg, s) && w < |s.pcs|
  {
    match s.pcs[w]
    case Thinking(h) => Truthful(cfg, w, h)
    case Entering(h, c) => Truthful(cfg, w, h) && cfg.extractors[w].act(h) == Ask(c)
    case Decoding(h, c, _) => Truthful(cfg, w, h) && cfg.extractors[w].act(h) == Ask(c) && s.cells[c].once == Running(w)
    case Closing(h, c) => Truthful(cfg, w, h) && cfg.extractors[w].act(h) == Ask(c) && s.cells[c].once == Running(w)
    case Reading(h, c) => Truthful(cfg, w, h) && cfg.extractors[w].act(h) == Ask(c) && s.cells[c].once == Done
    case WantLock(write) => write == SoloWrite(cfg, w)
    case Holding(write) => write == SoloWrite(cfg, w)
    case Appending(write, errs) => write.WriteError? && write == SoloWrite(cfg, w) && errs == s.errs
    case _ => true
  }

  predicate HasWritten(pc: Pc) {
    pc.Unlocking? || pc.Exiting? || pc.Finished?
  }

  ghost predicate SlotInv(cfg: Config, s: State, w: nat)
    requires cfg.Valid() && Shape(cfg, s) && w < |s.pcs|
  {
    s.slots[w] == if HasWritten(s.pcs[w]) then SoloSlot(cfg, w) else None
  }

  ghost function WrittenErrors(cfg: Config, pcs: seq<Pc>): multiset<Error>
    requires cfg.Valid() && |pcs| <= |cfg.extractors|
  {
    if pcs == [] then multiset{} else
      var n := |pcs| - 1;
      WrittenErrors(cfg, pcs[..n]) + if HasWritten(pcs[n]) then multiset(SoloErrors(cfg, n)) else multiset{}
  }

  predicate Active(pc: Pc) {
    !pc.Unborn? && !pc.Finished?
  }

  ghost function CountActive(pcs: seq<Pc>): nat {
    if pcs == [] then 0 else CountActive(pcs[..|pcs| - 1]) + if Active(pcs[|pcs| - 1]) then 1 else 0
  }

  ghost predicate WorkersInv(cfg: Config, s: State)
    requires cfg.Valid() && Shape(cfg, s)
  {
    forall w | 0 <= w < |s.pcs| :: Born(s, w) && PcInv(cfg, s, w) && SlotInv(cfg, s, w)
  }

  ghost predicate CellsInv(cfg: Config, s: State)
    requires Shape(cfg, s)
  {
    forall c | 0 <= c < |s.cells| :: CellInv(cfg, s, c)
  }

  ghost predicate TotalsInv(cfg: Config, s: State)
    requires cfg.Valid() && Shape(cfg, s)
  {
    && s.pending == CountActive(s.pcs)
    && multiset(s.errs) == WrittenErrors(cfg, s.pcs)
    && (s.main.Returned? ==> s.pending == 0)
  }

  ghost predicate Inv(cfg: Config, s: State)
    requires cfg.Valid()
  {
    Shape(cfg, s) && LockInv(s) && CellsInv(cfg, s) && WorkersInv(cfg, s) && TotalsInv(cfg, s)
  }

  lemma {:induction false} InitTotals(cfg: Config, n: nat)
    requires cfg.Valid() && n <= |cfg.extractors|
    ensures CountActive(seq(n, _ => Unborn)) == 0
    ensures WrittenErrors(cfg, seq(n, _ => Unborn)) == multiset{}
  {
    if n > 0 {
      InitTotals(cfg, n - 1);
      assert seq(n, _ => Unborn)[..n - 1] == seq(n - 1, _ => Unborn);
    }
  }

  lemma InitInv(cfg: Config)
    requires cfg.Valid()
    ensures Inv(cfg, Init(cfg))
  {
    InitTotals(cfg, |cfg.extractors|);
  }

  // Updating one program counter.

  lemma {:induction false} CountActiveUpdate(pcs: seq<Pc>, w: nat, pc: Pc)
    requires w < |pcs|
    ensures CountActive(pcs[w := pc]) ==
            CountActive(pcs) - (if Active(pcs[w]) then 1 else 0) + if Active(pc) then 1 else 0
  {
    var n := |pcs| - 1;
    if w < n {
      CountActiveUpdate(pcs[..n], w, pc);
      assert pcs[w := pc][..n] == pcs[..n][w := pc];
    } else {
      assert pcs[w := pc][..n] == pcs[..n];
    }
  }

  lemma WrittenErrorsLast(cfg: Config, pcs: seq<Pc>)
    requires cfg.Valid() && 0 < |pcs| <= |cfg.extractors|
    ensures var n := |pcs| - 1;
            WrittenErrors(cfg, pcs) ==
            WrittenErrors(cfg, pcs[..n]) + if HasWritten(pcs[n]) then multiset(SoloErrors(cfg, n)) else multiset{}
  {
  }

  lemma {:induction false} WrittenErrorsUpdate(cfg: Config, pcs: seq<Pc>, w: nat, pc: Pc)
    requires cfg.Valid() && |pcs| <= |cfg.extractors| && w < |pcs|
    requires HasWritten(pcs[w]) ==> HasWritten(pc)
    ensures WrittenErrors(cfg, pcs[w := pc]) == WrittenErrors(cfg, pcs) +
            if HasWritten(pc) && !HasWritten(pcs[w]) then multiset(SoloErrors(cfg, w)) else multiset{}
  {
    hide WrittenErrors, SoloErrors;
    var n := |pcs| - 1;
    WrittenErrorsLast(cfg, pcs);
    WrittenErrorsLast(cfg, pcs[w := pc]);
    if w < n {
      WrittenErrorsUpdate(cfg, pcs[..n], w, pc);
      assert pcs[w := pc][..n] == pcs[..n][w := pc];
    } else {
      assert pcs[w := pc][..n] == pcs[..n];
    }
  }

  // Each step keeps the invariant.

  lemma MainKeepsInv(cfg: Config, s: State)
    requires cfg.Valid() && Inv(cfg, s) && Enabled(cfg, s, MainThread)
    ensures Inv(cfg, MainStep(cfg, s))
  {
    if s.main.Spawning? && s.main.next < |s.pcs| {
      assert Born(s, s.main.next);
      CountActiveUpdate(s.pcs, s.main.next, Thinking([]));
      WrittenErrorsUpdate(cfg, s.pcs, s.main.next, Thinking([]));
      MainSpawnsKeepsWorkers(cfg, s);
    } else {
      var t := MainStep(cfg, s);
      forall w | 0 <= w < |t.pcs| ensures Born(t, w) && PcInv(cfg, t, w) && SlotInv(cfg, t, w) {
        assert Born(s, w) && PcInv(cfg, s, w) && SlotInv(cfg, s, w);
      }
      forall c | 0 <= c < |t.cells| ensures CellInv(cfg, t, c) {
        assert CellInv(cfg, s, c);
      }
    }
  }

  lemma MainSpawnsKeepsWorkers(cfg: Config, s: State)
    requires cfg.Valid() && Inv(cfg, s) && s.main.Spawning? && s.main.next < |s.pcs|
    ensures var t := MainStep(cfg, s); Shape(cfg, t) && LockInv(t) && CellsInv(cfg, t) && WorkersInv(cfg, t)
  {
    var t := MainStep(cfg, s);
    assert Born(s, s.main.next);
    forall w | 0 <= w < |t.pcs| ensures Born(t, w) && PcInv(cfg, t, w) && SlotInv(cfg, t, w) {
      assert Born(s, w) && PcInv(cfg, s, w) && SlotInv(cfg, s, w);
    }
    forall c | 0 <= c < |t.cells| ensures CellInv(cfg, t, c) {
      assert Born(s, s.main.next) && CellInv(cfg, s, c);
    }
  }

  lemma WorkerKeepsRanges(cfg: Config, s: State, w: nat)
    requires cfg.Valid() && Shape(cfg, s) && Enabled(cfg, s, Worker(w))
    ensures Shape(cfg, WorkerStep(cfg, s, w))
  {
    hide LockInv, WriteFor;
    assert cfg.ValidExtractor(cfg.extractors[w]);
  }

  lemma WorkerKeepsLock(cfg: Config, s: State, w: nat)
    requires cfg.Valid() && Shape(cfg, s) && LockInv(s) && Enabled(cfg, s, Worker(w)) && PcInv(cfg, s, w)
    ensures LockInv(WorkerStep(cfg, s, w))
  {
    hide Solo, SoloWrite, WriteFor, Truthful;
  }

  lemma WorkerKeepsShape(cfg: Config, s: State, w: nat)
    requires cfg.Valid() && Shape(cfg, s) && LockInv(s) && Enabled(cfg, s, Worker(w)) && PcInv(cfg, s, w)
    ensures Shape(cfg, WorkerStep(cfg, s, w)) && LockInv(WorkerStep(cfg, s, w))
  {
    WorkerKeepsRanges(cfg, s, w);
    WorkerKeepsLock(cfg, s, w);
  }

  lemma WorkerKeepsOwnCell(cfg: Config, s: State, w: nat, c: nat)
    requires cfg.Valid() && Inv(cfg, s) && Enabled(cfg, s, Worker(w)) && c < |s.cells|
    requires (s.pcs[w].Entering? || s.pcs[w].Decoding? || s.pcs[w].Closing? || s.pcs[w].Reading?) && s.pcs[w].cache == c
    ensures Shape(cfg, WorkerStep(cfg, s, w)) && CellInv(cfg, WorkerStep(cfg, s, w), c)
  {
    assert PcInv(cfg, s, w) && CellInv(cfg, s, c);
    WorkerKeepsShape(cfg, s, w);
    if s.pcs[w].Decoding? {
      var source, n := cfg.sources[c], s.pcs[w].read;
      assert n < |source.items| ==> source.items[..n + 1] == source.items[..n] + [source.items[n]];
      assert n == |source.items| ==> source.items[..n] == source.items;
    }
  }

  lemma WorkerKeepsOtherCell(cfg: Config, s: State, w: nat, c: nat)
    requires cfg.Valid() && Inv(cfg, s) && Enabled(cfg, s, Worker(w)) && c < |s.cells|
    requires (s.pcs[w].Entering? || s.pcs[w].Decoding? || s.pcs[w].Closing? || s.pcs[w].Reading?) ==> s.pcs[w].cache != c
    ensures Shape(cfg, WorkerStep(cfg, s, w)) && CellInv(cfg, WorkerStep(cfg, s, w), c)
  {
    assert PcInv(cfg, s, w) && CellInv(cfg, s, c);
    WorkerKeepsShape(cfg, s, w);
    assert WorkerStep(cfg, s, w).cells[c] == s.cells[c];
  }

  lemma WorkerKeepsCells(cfg: Config, s: State, w: nat)
    requires cfg.Valid() && Inv(cfg, s) && Enabled(cfg, s, Worker(w))
    ensures Shape(cfg, WorkerStep(cfg, s, w)) && CellsInv(cfg, WorkerStep(cfg, s, w))
  {
    assert PcInv(cfg, s, w);
    WorkerKeepsShape(cfg, s, w);
    var t := WorkerStep(cfg, s, w);
    forall c | 0 <= c < |t.cells| ensures CellInv(cfg, t, c) {
      var pc := s.pcs[w];
      if (pc.Entering? || pc.Decoding? || pc.Closing? || pc.Reading?) && pc.cache == c {
        WorkerKeepsOwnCell(cfg, s, w, c);
      } else {
        WorkerKeepsOtherCell(cfg, s, w, c);
      }
    }
  }

  /** An answered question leaves the sequential outcome what it was. */
  lemma AnswerKeepsTruth(cfg: Config, w: nat, h: seq<Source>, c: nat)
    requires cfg.Valid() && w < |cfg.extractors| && Truthful(cfg, w, h)
    requires cfg.extractors[w].act(h) == Ask(c)
    ensures c < |cfg.sources| && Truthful(cfg, w, h + [cfg.sources[c]])
  {
    assert cfg.ValidExtractor(cfg.extractors[w]);
  }

  lemma FinishIsSolo(cfg: Config, w: nat, h: seq<Source>, o: Outcome)
    requires cfg.Valid() && w < |cfg.extractors| && Truthful(cfg, w, h)
    requires cfg.extractors[w].act(h) == Finish(o)
    ensures WriteFor(cfg.extractors[w].name, o) == SoloWrite(cfg, w)
  {
  }

  lemma WorkerKeepsOwnSlot(cfg: Config, s: State, w: nat)
    requires cfg.Valid() && Shape(cfg, s) && Enabled(cfg, s, Worker(w)) && PcInv(cfg, s, w) && SlotInv(cfg, s, w)
    requires Shape(cfg, WorkerStep(cfg, s, w))
    ensures SlotInv(cfg, WorkerStep(cfg, s, w), w)
  {
    hide Solo, SoloWrite, WriteFor, Truthful, SoloSlot, SoloErrors;
    WriteIsOutcome(cfg, w);
  }

  lemma WorkerKeepsSelf(cfg: Config, s: State, w: nat)
    requires cfg.Valid() && Shape(cfg, s) && LockInv(s) && CellsInv(cfg, s) && Enabled(cfg, s, Worker(w))
    requires Born(s, w) && PcInv(cfg, s, w) && SlotInv(cfg, s, w)
    ensures var t := WorkerStep(cfg, s, w);
            Shape(cfg, t) && Born(t, w) && PcInv(cfg, t, w) && SlotInv(cfg, t, w)
  {
    hide Solo, SoloWrite, WriteFor, Truthful, SlotInv, LockInv;
    WorkerKeepsShape(cfg, s, w);
    WorkerKeepsOwnSlot(cfg, s, w);
    match s.pcs[w] {
      case Reading(h, c) =>
        assert CellInv(cfg, s, c);
        AnswerKeepsTruth(cfg, w, h, c);
      case Thinking(h) =>
        var action := cfg.extractors[w].act(h);
        if action.Finish? {
          FinishIsSolo(cfg, w, h, action.outcome);
        }
      case _ =>
    }
  }

  lemma WorkerKeepsOtherSlot(cfg: Config, s: State, w: nat, v: nat)
    requires cfg.Valid() && Shape(cfg, s) && LockInv(s) && Enabled(cfg, s, Worker(w)) && PcInv(cfg, s, w)
    requires v < |s.pcs| && v != w && Born(s, v) && SlotInv(cfg, s, v)
    ensures var t := WorkerStep(cfg, s, w);
            Shape(cfg, t) && t.pcs[v] == s.pcs[v] && Born(t, v) && SlotInv(cfg, t, v)
  {
    hide Solo, SoloWrite, WriteFor, Truthful, SoloSlot, LockInv;
    WorkerKeepsShape(cfg, s, w);
  }

  lemma WorkerKeepsOthers(cfg: Config, s: State, w: nat, v: nat)
    requires cfg.Valid() && Shape(cfg, s) && LockInv(s) && Enabled(cfg, s, Worker(w)) && PcInv(cfg, s, w)
    requires v < |s.pcs| && v != w && Born(s, v) && PcInv(cfg, s, v) && SlotInv(cfg, s, v)
    ensures var t := WorkerStep(cfg, s, w);
            Shape(cfg, t) && Born(t, v) && PcInv(cfg, t, v) && SlotInv(cfg, t, v)
  {
    hide Solo, SoloWrite, WriteFor, Truthful, SoloSlot, Born, SlotInv, HasWritten;
    WorkerKeepsOtherSlot(cfg, s, w, v);
  }

  /** What a step does to the totals: it changes one program counter, and maybe pending or errs. */
  lemma WorkerStepEffect(cfg: Config, s: State, w: nat)
    requires cfg.Valid() && Inv(cfg, s) && Enabled(cfg, s, Worker(w))
    ensures var t := WorkerStep(cfg, s, w);
            && t.main == s.main && t.pcs == s.pcs[w := t.pcs[w]]
            && Active(s.pcs[w]) && t.pending == s.pending - (if Active(t.pcs[w]) then 0 else 1)
            && (HasWritten(s.pcs[w]) ==> HasWritten(t.pcs[w]))
            && t.errs == s.errs + if HasWritten(t.pcs[w]) && !HasWritten(s.pcs[w]) then SoloErrors(cfg, w) else []
  {
    hide Solo, SoloWrite, WriteFor, SoloErrors, Truthful, LockInv, CellsInv, TotalsInv, SlotInv;
    assert PcInv(cfg, s, w);
    WriteIsOutcome(cfg, w);
  }

  lemma WorkerKeepsTotals(cfg: Config, s: State, w: nat)
    requires cfg.Valid() && Inv(cfg, s) && Enabled(cfg, s, Worker(w))
    ensures Shape(cfg, WorkerStep(cfg, s, w)) && TotalsInv(cfg, WorkerStep(cfg, s, w))
  {
    assert PcInv(cfg, s, w);
    WorkerKeepsShape(cfg, s, w);
    WorkerStepEffect(cfg, s, w);
    var pc := WorkerStep(cfg, s, w).pcs[w];
    CountActiveUpdate(s.pcs, w, pc);
    WrittenErrorsUpdate(cfg, s.pcs, w, pc);
    CountActivePositive(s.pcs, w);
  }

  lemma {:induction false} CountActivePositive(pcs: seq<Pc>, w: nat)
    requires w < |pcs| && Active(pcs[w])
    ensures CountActive(pcs) > 0
  {
    if w < |pcs| - 1 {
      CountActivePositive(pcs[..|pcs| - 1], w);
    }
  }

  /** Every step of every actor keeps the invariant. */
  lemma StepKeepsInv(cfg: Config, s: State, a: Actor)
    requires cfg.Valid() && Inv(cfg, s) && Enabled(cfg, s, a)
    ensures Inv(cfg, Next(cfg, s, a))
  {
    match a
    case MainThread => MainKeepsInv(cfg, s);
    case Worker(w) =>
      assert Born(s, w) && PcInv(cfg, s, w) && SlotInv(cfg, s, w);
      WorkerKeepsShape(cfg, s, w);
      WorkerKeepsCells(cfg, s, w);
      WorkerKeepsTotals(cfg, s, w);
      var t := WorkerStep(cfg, s, w);
      forall v | 0 <= v < |t.pcs| ensures Born(t, v) && PcInv(cfg, t, v) && SlotInv(cfg, t, v) {
        if v == w {
          WorkerKeepsSelf(cfg, s, w);
        } else {
          assert Born(s, v) && PcInv(cfg, s, v) && SlotInv(cfg, s, v);
          WorkerKeepsOthers(cfg, s, w, v);
        }
      }
  }

  // Executions: any schedule of enabled actors.

  ghost predicate Execution(cfg: Config, schedule: seq<Actor>, s: State, t: State)
    decreases |schedule|
  {
    if schedule == [] then s == t else
      Shape(cfg, s) && Enabled(cfg, s, schedule[0]) && Execution(cfg, schedule[1..], Next(cfg, s, schedule[0]), t)
  }

  lemma {:induction false} ExecutionKeepsInv(cfg: Config, schedule: seq<Actor>, s: State, t: State)
    requires cfg.Valid() && Inv(cfg, s) && Execution(cfg, schedule, s, t)
    ensures Inv(cfg, t)
    decreases |schedule|
  {
    if schedule != [] {
      StepKeepsInv(cfg, s, schedule[0]);
      ExecutionKeepsInv(cfg, schedule[1..], Next(cfg, s, schedule[0]), t);
    }
  }

  lemma {:induction false} NoneActive(pcs: seq<Pc>, w: nat)
    requires CountActive(pcs) == 0 && w < |pcs|
    ensures !Active(pcs[w])
  {
    if Active(pcs[w]) {
      CountActivePositive(pcs, w);
    }
  }

  lemma {:induction false} AllWritten(cfg: Config, pcs: seq<Pc>)
    requires cfg.Valid() && |pcs| <= |cfg.extractors|
    requires forall w | 0 <= w < |pcs| :: HasWritten(pcs[w])
    ensures WrittenErrors(cfg, pcs) == multiset(SequentialErrors(cfg, |pcs|))
  {
    if pcs != [] {
      AllWritten(cfg, pcs[..|pcs| - 1]);
    }
  }

  /** Once Wait has returned, every goroutine has finished. */
  lemma ReturnedMeansFinished(cfg: Config, s: State)
    requires cfg.Valid() && Inv(cfg, s) && s.main.Returned?
    ensures forall w | 0 <= w < |s.pcs| :: s.pcs[w].Finished?
  {
    forall w | 0 <= w < |s.pcs| ensures s.pcs[w].Finished? {
      NoneActive(s.pcs, w);
      assert Born(s, w);
    }
  }

  /**
   In every interleaving that reaches the end of Wait: each table slot is its extractor's
   sequential result, or stays empty when that errs or panics; the errors are a permutation of
   the sequential ones; and each cache's decode was started at most once.
   */
  lemma ScheduleIndependence(cfg: Config, schedule: seq<Actor>, t: State)
    requires cfg.Valid() && Execution(cfg, schedule, Init(cfg), t) && t.main.Returned?
    ensures |t.slots| == |cfg.extractors| && forall w | 0 <= w < |t.slots| :: t.slots[w] == SoloSlot(cfg, w)
    ensures multiset(t.errs) == multiset(SequentialErrors(cfg, |cfg.extractors|))
    ensures |t.errs| == FailureCount(cfg, |cfg.extractors|)
    ensures forall c | 0 <= c < |t.cells| :: t.cells[c].decodes <= 1
  {
    hide Solo, SoloErrors, SoloSlot;
    OneErrorEach(cfg, |cfg.extractors|);
    assert |t.errs| == |multiset(t.errs)| && |SequentialErrors(cfg, |cfg.extractors|)| == |multiset(SequentialErrors(cfg, |cfg.extractors|))|;
    InitInv(cfg);
    ExecutionKeepsInv(cfg, schedule, Init(cfg), t);
    ReturnedMeansFinished(cfg, t);
    AllWritten(cfg, t.pcs);
    forall w | 0 <= w < |t.slots| ensures t.slots[w] == SoloSlot(cfg, w) {
      assert SlotInv(cfg, t, w);
    }
    forall c | 0 <= c < |t.cells| ensures t.cells[c].decodes <= 1 {
      assert CellInv(cfg, t, c);
    }
  }

  /** At every moment of every interleaving, a worker about to read a cache finds it complete. */
  lemma ReadsAreComplete(cfg: Config, schedule: seq<Actor>, t: State, w: nat)
    requires cfg.Valid() && Execution(cfg, schedule, Init(cfg), t)
    requires w < |t.pcs| && t.pcs[w].Reading?
    ensures t.pcs[w].cache < |cfg.sources| == |t.cells|
    ensures var c := t.pcs[w].cache;
            Source(t.cells[c].items, t.cells[c].failure) == cfg.sources[c] && t.cells[c].decodes == 1
  {
    InitInv(cfg);
    ExecutionKeepsInv(cfg, schedule, Init(cfg), t);
    assert PcInv(cfg, t, w);
    assert CellInv(cfg, t, t.pcs[w].cache);
  }

  /** Until Wait returns some actor can always move: no deadlock. */
  lemma SomeActorEnabled(cfg: Config, s: State) returns (a: Actor)
    requires cfg.Valid() && Inv(cfg, s) && !s.main.Returned?
    ensures Enabled(cfg, s, a)
  {
    if s.main.Spawning? || s.pending == 0 {
      return MainThread;
    }
    var w := ActiveWorker(s.pcs);
    assert PcInv(cfg, s, w);
    match s.pcs[w]
    case Entering(_, c) =>
      assert CellInv(cfg, s, c);
      if s.cells[c].once.Running? {
        return Worker(s.cells[c].once.owner);
      }
      return Worker(w);
    case WantLock(_) =>
      if s.lock.Some? {
        return Worker(s.lock.value);
      }
      return Worker(w);
    case _ =>
      return Worker(w);
  }

  lemma {:induction false} ActiveWorker(pcs: seq<Pc>) returns (w: nat)
    requires CountActive(pcs) > 0
    ensures w < |pcs| && Active(pcs[w])
  {
    w := |pcs| - 1;
    if !Active(pcs[w]) {
      w := ActiveWorker(pcs[..w]);
    }
  }

  // Termination: a measure every step decreases.

  ghost function LongestSource(sources: seq<Source>): nat {
    if sources == [] then 0 else
      var rest := LongestSource(sources[..|sources| - 1]);
      var n := |sources[|sources| - 1].items|;
      if n > rest then n else rest
  }

  lemma {:induction false} LongestSourceBounds(sources: seq<Source>, c: nat)
    requires c < |sources|
    ensures |sources[c].items| <= LongestSource(sources)
  {
    if c < |sources| - 1 {
      LongestSourceBounds(sources[..|sources| - 1], c);
    }
  }

  /** Steps left for a worker with `asks` cache questions still allowed. */
  ghost function AskBudget(longest: nat, asks: int): nat {
    if asks <= 0 then 10 else AskBudget(longest, asks - 1) + longest + 10
  }

  ghost function Rank(cfg: Config, w: nat, pc: Pc): nat
    requires w < |cfg.extractors| && CacheInRange(cfg, pc)
  {
    var b, m := LongestSource(cfg.sources), cfg.extractors[w].maxAsks;
    match pc
    case Unborn => AskBudget(b, m) + 1
    case Thinking(h) => AskBudget(b, m - |h|)
    case Entering(h, _) => AskBudget(b, m - |h| - 1) + b + 8
    case Decoding(h, c, n) =>
      AskBudget(b, m - |h| - 1) + 5 + if n < |cfg.sources[c].items| then |cfg.sources[c].items| - n else 0
    case Closing(h, _) => AskBudget(b, m - |h| - 1) + 3
    case Reading(h, _) => AskBudget(b, m - |h| - 1) + 1
    case WantLock(_) => 6
    case Holding(_) => 5
    case Appending(_, _) => 4
    case Unlocking => 3
    case Exiting => 2
    case Finished => 0
  }

  ghost function RankSum(cfg: Config, pcs: seq<Pc>): nat
    requires |pcs| <= |cfg.extractors| && forall w | 0 <= w < |pcs| :: CacheInRange(cfg, pcs[w])
  {
    if pcs == [] then 0 else RankSum(cfg, pcs[..|pcs| - 1]) + Rank(cfg, |pcs| - 1, pcs[|pcs| - 1])
  }

  ghost function Measure(cfg: Config, s: State): nat
    requires Shape(cfg, s)
  {
    RankSum(cfg, s.pcs) +
    match s.main case Spawning(n) => |cfg.extractors| - n + 2 case Waiting => 1 case Returned => 0
  }

  lemma {:induction false} RankSumUpdate(cfg: Config, pcs: seq<Pc>, w: nat, pc: Pc)
    requires |pcs| <= |cfg.extractors| && (forall v | 0 <= v < |pcs| :: CacheInRange(cfg, pcs[v]))
    requires w < |pcs| && CacheInRange(cfg, pc)
    ensures RankSum(cfg, pcs[w := pc]) == RankSum(cfg, pcs) - Rank(cfg, w, pcs[w]) + Rank(cfg, w, pc)
  {
    var n := |pcs| - 1;
    if w < n {
      RankSumUpdate(cfg, pcs[..n], w, pc);
      assert pcs[w := pc][..n] == pcs[..n][w := pc];
    } else {
      assert pcs[w := pc][..n] == pcs[..n];
    }
  }

  lemma {:induction false} BudgetAtLeastTen(longest: nat, asks: int)
    ensures AskBudget(longest, asks) >= 10
  {
    if asks > 0 {
      BudgetAtLeastTen(longest, asks - 1);
    }
  }

  lemma ThinkingRankDecreases(cfg: Config, s: State, w: nat)
    requires cfg.Valid() && Inv(cfg, s) && Enabled(cfg, s, Worker(w)) && s.pcs[w].Thinking?
    ensures CacheInRange(cfg, WorkerStep(cfg, s, w).pcs[w])
    ensures Rank(cfg, w, WorkerStep(cfg, s, w).pcs[w]) < Rank(cfg, w, s.pcs[w])
  {
    var x := cfg.extractors[w];
    assert cfg.ValidExtractor(x);
    BudgetAtLeastTen(LongestSource(cfg.sources), x.maxAsks - |s.pcs[w].h|);
  }

  lemma CachingRankDecreases(cfg: Config, s: State, w: nat)
    requires cfg.Valid() && Shape(cfg, s) && Enabled(cfg, s, Worker(w)) && PcInv(cfg, s, w) && !s.pcs[w].Thinking?
    ensures CacheInRange(cfg, WorkerStep(cfg, s, w).pcs[w])
    ensures Rank(cfg, w, WorkerStep(cfg, s, w).pcs[w]) < Rank(cfg, w, s.pcs[w])
  {
    hide Solo, SoloWrite, WriteFor, SoloSlot, LongestSource;
    if s.pcs[w].Entering? {
      LongestSourceBounds(cfg.sources, s.pcs[w].cache);
    }
  }

  lemma WorkerRankDecreases(cfg: Config, s: State, w: nat)
    requires cfg.Valid() && Inv(cfg, s) && Enabled(cfg, s, Worker(w))
    ensures CacheInRange(cfg, WorkerStep(cfg, s, w).pcs[w])
    ensures Rank(cfg, w, WorkerStep(cfg, s, w).pcs[w]) < Rank(cfg, w, s.pcs[w])
  {
    if s.pcs[w].Thinking? {
      ThinkingRankDecreases(cfg, s, w);
    } else {
      assert PcInv(cfg, s, w);
      CachingRankDecreases(cfg, s, w);
    }
  }

  lemma MainDecreases(cfg: Config, s: State)
    requires cfg.Valid() && Inv(cfg, s) && Enabled(cfg, s, MainThread)
    ensures Shape(cfg, MainStep(cfg, s)) && Measure(cfg, MainStep(cfg, s)) < Measure(cfg, s)
  {
    hide LockInv, CellsInv, PcInv, SlotInv, TotalsInv, RankSum;
    if s.main.Spawning? && s.main.next < |s.pcs| {
      assert Born(s, s.main.next);
      SpawnRankDecreases(cfg, s);
    }
  }

  lemma SpawnRankDecreases(cfg: Config, s: State)
    requires Shape(cfg, s) && s.main.Spawning? && s.main.next < |s.pcs| && s.pcs[s.main.next].Unborn?
    ensures RankSum(cfg, s.pcs[s.main.next := Thinking([])]) < RankSum(cfg, s.pcs)
  {
    hide RankSum, AskBudget;
    RankSumUpdate(cfg, s.pcs, s.main.next, Thinking([]));
  }

  lemma WorkerDecreases(cfg: Config, s: State, w: nat)
    requires cfg.Valid() && Inv(cfg, s) && Enabled(cfg, s, Worker(w))
    ensures Shape(cfg, WorkerStep(cfg, s, w)) && Measure(cfg, WorkerStep(cfg, s, w)) < Measure(cfg, s)
  {
    assert PcInv(cfg, s, w);
    WorkerKeepsShape(cfg, s, w);
    WorkerRankDecreases(cfg, s, w);
    WorkerStepEffect(cfg, s, w);
    RankSumUpdate(cfg, s.pcs, w, WorkerStep(cfg, s, w).pcs[w]);
  }

  /** Every step decreases the measure. */
  lemma StepDecreases(cfg: Config, s: State, a: Actor)
    requires cfg.Valid() && Inv(cfg, s) && Enabled(cfg, s, a)
    ensures Shape(cfg, Next(cfg, s, a)) && Measure(cfg, Next(cfg, s, a)) < Measure(cfg, s)
  {
    match a
    case MainThread => MainDecreases(cfg, s);
    case Worker(w) => WorkerDecreases(cfg, s, w);
  }

  /** So no schedule is longer than the initial measure, whatever the scheduler does. */
  lemma {:induction false} SchedulesAreBounded(cfg: Config, schedule: seq<Actor>, s: State, t: State)
    requires cfg.Valid() && Inv(cfg, s) && Execution(cfg, schedule, s, t)
    ensures |schedule| <= Measure(cfg, s)
    decreases |schedule|
  {
    if schedule != [] {
      StepDecreases(cfg, s, schedule[0]);
      StepKeepsInv(cfg, s, schedule[0]);
      SchedulesAreBounded(cfg, schedule[1..], Next(cfg, s, schedule[0]), t);
    }
  }

  /** From every reachable state the end of Wait is reached, by any scheduler that keeps moving. */
  lemma {:induction false} WaitIsReached(cfg: Config, s: State) returns (schedule: seq<Actor>, t: State)
    requires cfg.Valid() && Inv(cfg, s)
    ensures Execution(cfg, schedule, s, t) && t.main.Returned?
    decreases Measure(cfg, s)
  {
    if s.main.Returned? {
      return [], s;
    }
    var a := SomeActorEnabled(cfg, s);
    StepKeepsInv(cfg, s, a);
    StepDecreases(cfg, s, a);
    var rest: seq<Actor>;
    rest, t := WaitIsReached(cfg, Next(cfg, s, a));
    schedule := [a] + rest;
    assert schedule[1..] == rest;
  }

  // The cache on its own, as one goroutine sees it.

  /** LedgerInput's cached decode: transactionsOnce, transactions and transactionsErr (or the changes trio). */
  class Cache {
    const source: Source
    var done: bool
    var items: seq<Row>
    var failure: Option<Error>
    var decodes: nat

    ghost predicate Valid()
      reads this
    {
      if done then items == source.items && failure == source.failure && decodes == 1
      else items == [] && failure.None? && decodes == 0
    }

    constructor (source: Source)
      ensures Valid() && !done && this.source == source
    {
      this.source := source;
      done, items, failure, decodes := false, [], None, 0;
    }

    /** Transactions, Changes: the same answer on every call, decoding on the first only. */
    method Get() returns (answer: Source)
      requires Valid()
      modifies this
      ensures Valid() && done && decodes == 1
      ensures answer == source
    {
      if !done {
        decodes := decodes + 1;
        for n := 0 to |source.items|
          invariant items == source.items[..n] && failure.None? && decodes == 1
        {
          items := items + [source.items[n]];
        }
        failure := source.failure;
        done := true;
      }
      answer := Source(items, failure);
    }
  }
}
