/** The reader-writer lock, one atomic operation at a time, under any number of threads and any interleaving. */
module SharedMutexes {
  import opened Options

  const MAX_READERS := 0x4000_0000

  newtype int32 = x: int | -0x8000_0000 <= x < 0x8000_0000

  /** The shared words: two counters, two semaphores and the mutex between writers. */
  datatype Cells = Cells(readerCount: int, readerWait: int, readerSem: int, writerSem: int, writerMu: Option<nat>)

  /** Where a thread is. Each value but `Idle` names the atomic operation that comes next. */
  datatype PC =
    | Idle
    | Trying(seen: int)
    | Blocked
    | Reading
    | Draining
    | Posting
    | Wanting
    | Announcing
    | TryAnnouncing
    | BackingOut
    | Adding(readers: int)
    | Waiting
    | Writing
    | Waking(queued: int)
    | Releasing

  datatype Call = LockShared | TryLockShared | Lock | TryLock

  /** `lucky` is false for an attempt that fails spuriously, as weak compare-and-swap and `try_lock` may. */
  datatype Action = Begin(call: Call, lucky: bool) | Continue(lucky: bool)

  predicate CanStep(c: Cells, pc: PC, a: Action) {
    match pc
    case Idle => a.Begin?
    case Blocked => a.Continue? && c.readerSem > 0
    case Wanting => a.Continue? && c.writerMu.None?
    case Waiting => a.Continue? && c.writerSem > 0
    case _ => a.Continue?
  }

  function Step(c: Cells, t: nat, pc: PC, a: Action): (Cells, PC)
    requires CanStep(c, pc, a)
  {
    match pc
    case Idle => (
      match a.call
      case LockShared => (c.(readerCount := c.readerCount + 1), if c.readerCount < 0 then Blocked else Reading)
      case TryLockShared => (c, if c.readerCount < 0 then Idle else Trying(c.readerCount))
      case Lock => (c, Wanting)
      case TryLock =>
        if c.writerMu.None? && a.lucky then (c.(writerMu := Some(t)), TryAnnouncing) else (c, Idle))
    case Trying(seen) =>
      if a.lucky && c.readerCount == seen then (c.(readerCount := seen + 1), Reading)
      else (c, if c.readerCount < 0 then Idle else Trying(c.readerCount))
    case Blocked => (c.(readerSem := c.readerSem - 1), Reading)
    case Reading => (c.(readerCount := c.readerCount - 1), if c.readerCount < 0 then Draining else Idle)
    case Draining => (c.(readerWait := c.readerWait - 1), if c.readerWait == 1 then Posting else Idle)
    case Posting => (c.(writerSem := c.writerSem + 1), Idle)
    case Wanting => (c.(writerMu := Some(t)), Announcing)
    case Announcing =>
      (c.(readerCount := c.readerCount - MAX_READERS), if c.readerCount == 0 then Writing else Adding(c.readerCount))
    case TryAnnouncing =>
      if c.readerCount == 0 then (c.(readerCount := -MAX_READERS), Writing) else (c, BackingOut)
    case BackingOut => (c.(writerMu := None), Idle)
    case Adding(readers) =>
      (c.(readerWait := c.readerWait + readers), if c.readerWait + readers != 0 then Waiting else Writing)
    case Waiting => (c.(writerSem := c.writerSem - 1), Writing)
    case Writing =>
      var queued := c.readerCount + MAX_READERS;
      (c.(readerCount := queued), if queued > 0 then Waking(queued) else Releasing)
    case Waking(queued) => (c.(readerSem := c.readerSem + queued), Releasing)
    case Releasing => (c.(writerMu := None), Idle)
  }

  /** The phases in which a thread owns the mutex between writers. */
  predicate Owns(pc: PC) {
    pc.Announcing? || pc.TryAnnouncing? || pc.BackingOut? || pc.Adding? || pc.Waiting? || pc.Writing? || pc.Waking?
    || pc.Releasing?
  }

  /** The phases in which readers see a negative count. */
  predicate Announced(pc: PC) {
    pc.Adding? || pc.Waiting? || pc.Writing?
  }

  datatype State = State(cells: Cells, pcs: seq<PC>)

  function Init(n: nat): State {
    State(Cells(0, 0, 0, 0, None), seq(n, i => Idle))
  }

  predicate Enabled(s: State, t: nat, a: Action) {
    t < |s.pcs| && CanStep(s.cells, s.pcs[t], a)
  }

  function Fire(s: State, t: nat, a: Action): State
    requires Enabled(s, t, a)
  {
    var (cells, pc) := Step(s.cells, t, s.pcs[t], a);
    State(cells, s.pcs[t := pc])
  }

  /** How many threads are reading, blocked, about to drain and about to post. */
  datatype Crowd = Crowd(reading: nat, blocked: nat, draining: nat, posting: nat)

  function One(pc: PC): Crowd {
    Crowd(if pc.Reading? then 1 else 0, if pc.Blocked? then 1 else 0,
          if pc.Draining? then 1 else 0, if pc.Posting? then 1 else 0)
  }

  function Tally(pcs: seq<PC>): (c: Crowd)
    ensures c.reading + c.blocked + c.draining + c.posting <= |pcs|
  {
    if pcs == [] then Crowd(0, 0, 0, 0) else
      var one, rest := One(pcs[0]), Tally(pcs[1..]);
      Crowd(one.reading + rest.reading, one.blocked + rest.blocked, one.draining + rest.draining, one.posting + rest.posting)
  }

  /** `a` and `b` differ by one thread having moved from `from` to `to`. */
  predicate Moved(a: Crowd, b: Crowd, from: PC, to: PC) {
    && a.reading + One(to).reading == b.reading + One(from).reading
    && a.blocked + One(to).blocked == b.blocked + One(from).blocked
    && a.draining + One(to).draining == b.draining + One(from).draining
    && a.posting + One(to).posting == b.posting + One(from).posting
  }

  lemma {:induction false} TallyUpdate(pcs: seq<PC>, t: nat, pc: PC)
    requires t < |pcs|
    ensures Moved(Tally(pcs), Tally(pcs[t := pc]), pcs[t], pc)
  {
    var moved := pcs[t := pc];
    if t == 0 {
      assert moved[1..] == pcs[1..];
    } else {
      TallyUpdate(pcs[1..], t - 1, pc);
      assert moved[1..] == pcs[1..][t - 1 := pc];
    }
  }

  lemma {:induction false} TallyCounts(pcs: seq<PC>, t: nat)
    requires t < |pcs|
    ensures pcs[t].Reading? ==> Tally(pcs).reading > 0
    ensures pcs[t].Blocked? ==> Tally(pcs).blocked > 0
    ensures pcs[t].Draining? ==> Tally(pcs).draining > 0
    ensures pcs[t].Posting? ==> Tally(pcs).posting > 0
  {
    if t > 0 {
      TallyCounts(pcs[1..], t - 1);
    }
  }

  lemma {:induction false} TallyWitness(pcs: seq<PC>)
    ensures Tally(pcs).reading > 0 ==> exists t :: 0 <= t < |pcs| && pcs[t].Reading?
    ensures Tally(pcs).blocked > 0 ==> exists t :: 0 <= t < |pcs| && pcs[t].Blocked?
    ensures Tally(pcs).draining > 0 ==> exists t :: 0 <= t < |pcs| && pcs[t].Draining?
    ensures Tally(pcs).posting > 0 ==> exists t :: 0 <= t < |pcs| && pcs[t].Posting?
  {
    if pcs != [] {
      var rest := pcs[1..];
      TallyWitness(rest);
      assert forall t :: 0 <= t < |rest| ==> rest[t] == pcs[t + 1];
    }
  }

  function Phase(s: State): PC {
    if s.cells.writerMu.Some? && s.cells.writerMu.value < |s.pcs| then s.pcs[s.cells.writerMu.value] else Idle
  }

  /** Tokens that blocked readers can count on: those posted, and those the leaving writer is about to post. */
  function Due(c: Cells, phase: PC): int {
    c.readerSem + if phase.Waking? then phase.queued else 0
  }

  /** The bookkeeping between the counters, the writer's phase and the crowd of anonymous readers. */
  predicate Balanced(c: Cells, phase: PC, n: Crowd) {
    var due := Due(c, phase);
    && c.readerSem >= 0
    && c.readerCount == n.reading + n.blocked - (if Announced(phase) then MAX_READERS else 0)
    && if phase.Adding? then
         && due <= n.blocked && n.posting == c.writerSem == 0 < phase.readers < MAX_READERS
         && c.readerWait <= 0 && n.reading + due + n.draining == phase.readers + c.readerWait
       else if phase.Waiting? then
         && due <= n.blocked && c.readerWait == n.reading + due + n.draining
         && c.writerSem >= 0 && c.writerSem + n.posting == if c.readerWait == 0 then 1 else 0
       else if phase.Writing? then
         n.reading == due == n.draining == n.posting == c.readerWait == c.writerSem == 0
       else
         && due == n.blocked && n.draining == n.posting == c.readerWait == c.writerSem == 0
         && (phase.Waking? ==> phase.queued > 0)
  }

  ghost predicate Invariant(s: State) {
    && |s.pcs| < MAX_READERS
    && (forall t :: 0 <= t < |s.pcs| ==> (Owns(s.pcs[t]) <==> s.cells.writerMu == Some(t)))
    && (forall t :: 0 <= t < |s.pcs| && s.pcs[t].Trying? ==> s.pcs[t].seen >= 0)
    && (s.cells.writerMu.Some? ==> s.cells.writerMu.value < |s.pcs|)
    && Balanced(s.cells, Phase(s), Tally(s.pcs))
  }

  lemma {:induction false} TallyIdle(n: nat)
    ensures Tally(seq(n, i => Idle)) == Crowd(0, 0, 0, 0)
  {
    if n > 0 {
      TallyIdle(n - 1);
      assert seq(n, i => Idle)[1..] == seq(n - 1, i => Idle);
    }
  }

  lemma {:induction false} InitInvariant(n: nat)
    requires n < MAX_READERS
    ensures Invariant(Init(n))
  {
    TallyIdle(n);
  }

  /** A thread that may take a step is counted in the crowd it is in. */
  predicate Present(n: Crowd, pc: PC) {
    && (pc.Reading? ==> n.reading > 0) && (pc.Blocked? ==> n.blocked > 0)
    && (pc.Draining? ==> n.draining > 0) && (pc.Posting? ==> n.posting > 0)
    && (pc.Trying? ==> pc.seen >= 0) && n.reading + n.blocked + n.draining + n.posting < MAX_READERS
  }

  lemma {:induction false} ReaderEntryBalances(c: Cells, phase: PC, n: Crowd, t: nat, pc: PC, a: Action, n': Crowd)
    requires CanStep(c, pc, a) && Balanced(c, phase, n) && Present(n, pc)
    requires pc.Idle? || pc.Trying? || pc.Blocked? || pc.Wanting?
    requires !Owns(Step(c, t, pc, a).1) && Moved(n, n', pc, Step(c, t, pc, a).1)
    ensures Balanced(Step(c, t, pc, a).0, phase, n')
  {
    assert n' == n.(reading := n'.reading, blocked := n'.blocked);
  }

  lemma {:induction false} ReaderExitBalances(c: Cells, phase: PC, n: Crowd, t: nat, pc: PC, a: Action, n': Crowd)
    requires CanStep(c, pc, a) && Balanced(c, phase, n) && Present(n, pc)
    requires pc.Reading? || pc.Draining? || pc.Posting?
    requires Moved(n, n', pc, Step(c, t, pc, a).1)
    ensures Balanced(Step(c, t, pc, a).0, phase, n')
  {
    match pc
    case Reading => assert n' == n.(reading := n.reading - 1, draining := n.draining + if c.readerCount < 0 then 1 else 0);
    case Draining => assert n' == n.(draining := n.draining - 1, posting := n.posting + if c.readerWait == 1 then 1 else 0);
    case Posting => assert n' == n.(posting := n.posting - 1);
  }

  lemma {:induction false} WriterStepBalances(c: Cells, n: Crowd, t: nat, pc: PC, a: Action)
    requires CanStep(c, pc, a) && n.reading + n.blocked < MAX_READERS
    requires Balanced(c, if Owns(pc) then pc else Idle, n)
    requires Owns(pc) || Owns(Step(c, t, pc, a).1)
    ensures var (c', pc') := Step(c, t, pc, a);
            Balanced(c', if Owns(pc') then pc' else Idle, n) && One(pc) == One(pc')
  {
  }

  /** A step takes the writer mutex, keeps it or gives it back as its phases say. */
  lemma {:induction false} StepOwnership(c: Cells, t: nat, pc: PC, a: Action)
    requires CanStep(c, pc, a) && (Owns(pc) <==> c.writerMu == Some(t))
    ensures var (c', pc') := Step(c, t, pc, a);
            && (Owns(pc') <==> c'.writerMu == Some(t))
            && (Owns(pc) || Owns(pc') ==> c.writerMu == None || c.writerMu == Some(t))
            && (c'.writerMu == if Owns(pc') then Some(t) else if Owns(pc) then None else c.writerMu)
            && (pc'.Trying? ==> pc'.seen >= 0)
  {
  }

  lemma {:induction false} InvariantAfter(s: State, t: nat, c': Cells, pc': PC)
    requires Invariant(s) && t < |s.pcs| && (pc'.Trying? ==> pc'.seen >= 0)
    requires c'.writerMu == if Owns(pc') then Some(t) else if Owns(s.pcs[t]) then None else s.cells.writerMu
    requires Owns(pc') ==> s.cells.writerMu == None || s.cells.writerMu == Some(t)
    requires
      var phase' := if Owns(pc') then pc' else if Owns(s.pcs[t]) then Idle else Phase(s);
      Balanced(c', phase', Tally(s.pcs[t := pc']))
    ensures Invariant(State(c', s.pcs[t := pc']))
  {
  }

  lemma {:induction false} BalancedAfter(s: State, t: nat, a: Action)
    requires Invariant(s) && Enabled(s, t, a)
    ensures
      var (c', pc') := Step(s.cells, t, s.pcs[t], a);
      var phase' := if Owns(pc') then pc' else if Owns(s.pcs[t]) then Idle else Phase(s);
      Balanced(c', phase', Tally(s.pcs[t := pc']))
  {
    var pc, pc' := s.pcs[t], Step(s.cells, t, s.pcs[t], a).1;
    var n, n' := Tally(s.pcs), Tally(s.pcs[t := pc']);
    TallyUpdate(s.pcs, t, pc');
    TallyCounts(s.pcs, t);
    if Owns(pc) || Owns(pc') {
      StepOwnership(s.cells, t, pc, a);
      WriterStepBalances(s.cells, n, t, pc, a);
      assert n == n';
    } else if pc.Reading? || pc.Draining? || pc.Posting? {
      ReaderExitBalances(s.cells, Phase(s), n, t, pc, a, n');
    } else {
      ReaderEntryBalances(s.cells, Phase(s), n, t, pc, a, n');
    }
  }

  lemma {:induction false} FireKeeps(s: State, t: nat, a: Action)
    requires Invariant(s) && Enabled(s, t, a)
    ensures Invariant(Fire(s, t, a))
  {
    var (c', pc') := Step(s.cells, t, s.pcs[t], a);
    StepOwnership(s.cells, t, s.pcs[t], a);
    BalancedAfter(s, t, a);
    InvariantAfter(s, t, c', pc');
  }

  /** The counters never leave their machine width, no semaphore over-counts, and the assertions of the code hold. */
  lemma {:induction false} CountersFit(s: State)
    requires Invariant(s)
    ensures -MAX_READERS <= s.cells.readerCount <= |s.pcs|
    ensures -MAX_READERS < s.cells.readerWait <= |s.pcs|
    ensures 0 <= s.cells.readerSem <= Due(s.cells, Phase(s)) <= Tally(s.pcs).blocked <= |s.pcs|
    ensures 0 <= s.cells.writerSem + Tally(s.pcs).posting <= 1 && s.cells.writerSem >= 0
    ensures forall t :: 0 <= t < |s.pcs| && s.pcs[t].Reading? ==> s.cells.readerCount != -MAX_READERS && s.cells.readerCount != 0
    ensures forall t :: 0 <= t < |s.pcs| && s.pcs[t].Announcing? ==> 0 <= s.cells.readerCount < MAX_READERS
    ensures forall t :: 0 <= t < |s.pcs| && s.pcs[t].Writing? ==> 0 <= s.cells.readerCount + MAX_READERS < MAX_READERS
  {
    if t: nat :| t < |s.pcs| && s.pcs[t].Reading? {
      TallyCounts(s.pcs, t);
    }
  }

  /** A writer excludes readers and other writers. */
  lemma {:induction false} Exclusion(s: State, t: nat, u: nat)
    requires Invariant(s) && t < |s.pcs| && u < |s.pcs| && t != u && s.pcs[t].Writing?
    ensures !s.pcs[u].Writing? && !s.pcs[u].Reading?
  {
    TallyCounts(s.pcs, u);
  }

  predicate Quiet(s: State) {
    forall t :: 0 <= t < |s.pcs| ==> s.pcs[t].Idle?
  }

  lemma {:induction false} TallyQuiet(pcs: seq<PC>)
    requires forall t :: 0 <= t < |pcs| ==> pcs[t].Idle?
    ensures Tally(pcs) == Crowd(0, 0, 0, 0)
  {
    if pcs != [] {
      TallyQuiet(pcs[1..]);
    }
  }

  /** With no thread inside an operation or holding the lock, every word is back to its initial value. */
  lemma {:induction false} QuietIsReset(s: State)
    requires Invariant(s) && Quiet(s)
    ensures s == Init(|s.pcs|)
  {
    TallyQuiet(s.pcs);
    assert s.pcs == seq(|s.pcs|, i => Idle);
  }

  /** No wake-up is lost: while some thread is not idle, one that is not idle can move. When nobody holds the lock,
      that thread is one waiting to get in or on its way out. */
  lemma {:induction false} SomeoneCanMove(s: State) returns (t: nat)
    requires Invariant(s) && !Quiet(s)
    ensures t < |s.pcs| && !s.pcs[t].Idle? && Enabled(s, t, Continue(true))
  {
    TallyWitness(s.pcs);
    if u: nat :| u < |s.pcs| && !s.pcs[u].Idle? && CanStep(s.cells, s.pcs[u], Continue(true)) {
      t := u;
    } else {
      t :| 0 <= t < |s.pcs| && !s.pcs[t].Idle?;
      TallyCounts(s.pcs, t);
    }
  }

  /** A bound on the operations a thread still performs before it is idle again. */
  function Rank(pc: PC): nat {
    match pc
    case Idle => 0
    case Posting => 1
    case Draining => 2
    case Reading => 3
    case Blocked => 4
    case Trying(_) => 4
    case Releasing => 1
    case BackingOut => 1
    case Waking(_) => 2
    case Writing => 3
    case Waiting => 4
    case TryAnnouncing => 4
    case Adding(_) => 5
    case Announcing => 6
    case Wanting => 7
  }

  function Work(pcs: seq<PC>): nat {
    if pcs == [] then 0 else Rank(pcs[0]) + Work(pcs[1..])
  }

  lemma {:induction false} WorkUpdate(pcs: seq<PC>, t: nat, pc: PC)
    requires t < |pcs|
    ensures Work(pcs[t := pc]) + Rank(pcs[t]) == Work(pcs) + Rank(pc)
  {
    var moved := pcs[t := pc];
    if t == 0 {
      assert moved[1..] == pcs[1..];
    } else {
      WorkUpdate(pcs[1..], t - 1, pc);
      assert moved[1..] == pcs[1..][t - 1 := pc];
    }
  }

  datatype Event = Event(thread: nat, action: Action)

  /** `events` can happen in this order, and lead from `s` to `r`. */
  ghost predicate Leads(s: State, events: seq<Event>, r: State)
    decreases |events|
  {
    if events == [] then s == r else
      var e := events[0];
      Enabled(s, e.thread, e.action) && Leads(Fire(s, e.thread, e.action), events[1..], r)
  }

  /** Safety over every interleaving of any number of threads below the reader limit. */
  lemma {:induction false} EveryInterleavingKeeps(s: State, events: seq<Event>, r: State)
    requires Invariant(s) && Leads(s, events, r)
    ensures Invariant(r) && |r.pcs| == |s.pcs|
    decreases |events|
  {
    if events != [] {
      var e := events[0];
      FireKeeps(s, e.thread, e.action);
      EveryInterleavingKeeps(Fire(s, e.thread, e.action), events[1..], r);
    }
  }

  lemma {:induction false} EveryInterleavingExcludes(n: nat, events: seq<Event>, r: State, t: nat, u: nat)
    requires n < MAX_READERS && Leads(Init(n), events, r) && t < n && u < n && t != u
    ensures |r.pcs| == n && !(r.pcs[t].Writing? && (r.pcs[u].Writing? || r.pcs[u].Reading?))
  {
    InitInvariant(n);
    EveryInterleavingKeeps(Init(n), events, r);
    if r.pcs[t].Writing? {
      Exclusion(r, t, u);
    }
  }

  // ----- how each operation ends, in terms of the other threads -----

  /** Some thread holds the lock for reading, or waits to. */
  ghost predicate SomeReader(s: State) {
    exists u :: 0 <= u < |s.pcs| && (s.pcs[u].Reading? || s.pcs[u].Blocked?)
  }

  /** Some writer has announced itself: it waits for readers to leave, or holds the lock. */
  ghost predicate SomeWriter(s: State) {
    exists u :: 0 <= u < |s.pcs| && (s.pcs[u].Adding? || s.pcs[u].Waiting? || s.pcs[u].Writing?)
  }

  /** Some thread is between taking the mutex of the writers and giving it back. */
  ghost predicate MutexTaken(s: State) {
    exists u :: 0 <= u < |s.pcs| && s.cells.writerMu == Some(u)
  }

  lemma {:induction false} CountTells(s: State)
    requires Invariant(s)
    ensures s.cells.readerCount < 0 <==> SomeWriter(s)
    ensures SomeReader(s) <==> Tally(s.pcs).reading + Tally(s.pcs).blocked > 0
    ensures !SomeWriter(s) ==> (s.cells.readerCount == 0 <==> !SomeReader(s))
  {
    TallyWitness(s.pcs);
    if u :| 0 <= u < |s.pcs| && (s.pcs[u].Reading? || s.pcs[u].Blocked?) {
      TallyCounts(s.pcs, u);
    }
    if u :| 0 <= u < |s.pcs| && (s.pcs[u].Adding? || s.pcs[u].Waiting? || s.pcs[u].Writing?) {
      assert Owns(s.pcs[u]);
    }
  }

  lemma {:induction false} OneAnnounces(s: State, t: nat)
    requires Invariant(s) && t < |s.pcs| && Owns(s.pcs[t]) && !Announced(s.pcs[t])
    ensures !SomeWriter(s)
  {
    assert forall u :: 0 <= u < |s.pcs| && Owns(s.pcs[u]) ==> u == t;
  }

  /** A reader gets in at once exactly when no writer has announced itself; a try that is repeated until the count is seen
      unchanged gives up exactly when one has. */
  lemma {:induction false} ReaderOutcomes(s: State, t: nat)
    requires Invariant(s) && t < |s.pcs|
    ensures s.pcs[t].Idle? ==> Fire(s, t, Begin(LockShared, true)).pcs[t] == if SomeWriter(s) then Blocked else Reading
    ensures s.pcs[t].Idle? && SomeWriter(s) ==> Fire(s, t, Begin(TryLockShared, true)) == s
    ensures s.pcs[t].Idle? && !SomeWriter(s) ==> Fire(Fire(s, t, Begin(TryLockShared, true)), t, Continue(true)).pcs[t] == Reading
    ensures s.pcs[t].Trying? && SomeWriter(s) ==> forall lucky :: Fire(s, t, Continue(lucky)).pcs[t] == Idle
    ensures s.pcs[t].Trying? && !SomeWriter(s) ==> Fire(Fire(s, t, Continue(false)), t, Continue(true)).pcs[t] == Reading
    ensures s.pcs[t].Reading? ==> Fire(s, t, Continue(true)).pcs[t] == if SomeWriter(s) then Draining else Idle
  {
    CountTells(s);
  }

  /** A try gives up at once exactly when the mutex of the writers is taken. */
  lemma {:induction false} TryBegins(s: State, t: nat)
    requires Invariant(s) && t < |s.pcs| && s.pcs[t].Idle?
    ensures Fire(s, t, Begin(TryLock, true)).pcs[t] == if MutexTaken(s) then Idle else TryAnnouncing
    ensures MutexTaken(s) ==> Fire(s, t, Begin(TryLock, true)) == s
  {
    MutexTells(s);
    assert s.pcs[t := Idle] == s.pcs;
  }

  lemma {:induction false} MutexTells(s: State)
    requires Invariant(s)
    ensures s.cells.writerMu.Some? <==> MutexTaken(s)
  {
    if s.cells.writerMu.Some? {
      var u := s.cells.writerMu.value;
      assert u < |s.pcs| && s.cells.writerMu == Some(u);
    }
  }

  /** A writer with the mutex gets the lock at once exactly when no reader holds it or waits for it; otherwise a try backs out,
      and a writer that does not merely try waits for them. */
  lemma {:induction false} WriterOutcomes(s: State, t: nat)
    requires Invariant(s) && t < |s.pcs| && (s.pcs[t].TryAnnouncing? || s.pcs[t].Announcing?)
    ensures
      var pc := Fire(s, t, Continue(true)).pcs[t];
      if !SomeReader(s) then pc.Writing? else if s.pcs[t].TryAnnouncing? then pc.BackingOut? else pc.Adding?
  {
    OneAnnounces(s, t);
    CountTells(s);
    assert s.cells.readerCount == 0 <==> !SomeReader(s);
  }

  /** A try that does not succeed leaves everything as it was before. */
  lemma {:induction false} TryLeavesNoTrace(s: State, t: nat)
    requires Invariant(s) && t < |s.pcs| && s.pcs[t].Idle? && !MutexTaken(s) && SomeReader(s)
    ensures
      var s1 := Fire(s, t, Begin(TryLock, true));
      var s2 := Fire(s1, t, Continue(true));
      s1.pcs[t].TryAnnouncing? && s2.pcs[t].BackingOut? && Fire(s2, t, Continue(true)) == s
  {
    CountTells(s);
    MutexTells(s);
    MutexFree(s);
    var s1 := Fire(s, t, Begin(TryLock, true));
    assert s1.pcs == s.pcs[t := TryAnnouncing] && s1.cells == s.cells.(writerMu := Some(t));
    var s2 := Fire(s1, t, Continue(true));
    assert s2.cells == s1.cells && s2.pcs == s.pcs[t := BackingOut];
    assert s.pcs[t := BackingOut][t := Idle] == s.pcs;
  }

  lemma {:induction false} MutexFree(s: State)
    requires Invariant(s) && s.cells.writerMu.None?
    ensures !SomeWriter(s)
  {
    assert forall u :: 0 <= u < |s.pcs| ==> !Owns(s.pcs[u]);
  }

  /** On a lock that nobody holds or waits for, each of the four operations gets in, with nobody else moving. */
  lemma {:induction false} FreeLockIsTaken(s: State, t: nat)
    requires Invariant(s) && t < |s.pcs| && s.pcs[t].Idle? && !SomeReader(s) && !MutexTaken(s)
    ensures var trying := Fire(s, t, Begin(TryLock, true)); Fire(trying, t, Continue(true)).pcs[t].Writing?
    ensures var locking := Fire(s, t, Begin(Lock, true));
            Enabled(locking, t, Continue(true)) && Fire(Fire(locking, t, Continue(true)), t, Continue(true)).pcs[t].Writing?
    ensures Fire(s, t, Begin(LockShared, true)).pcs[t].Reading?
    ensures Fire(Fire(s, t, Begin(TryLockShared, true)), t, Continue(true)).pcs[t].Reading?
  {
    CountTells(s);
    MutexTells(s);
    MutexFree(s);
  }

  /** A leaving writer posts one token for each blocked reader, and none when there is none. */
  lemma {:induction false} UnlockWakes(s: State, t: nat)
    requires Invariant(s) && t < |s.pcs| && s.pcs[t].Writing?
    ensures
      var n, s1 := Tally(s.pcs).blocked, Fire(s, t, Continue(true));
      var s2 := if n > 0 then Fire(s1, t, Continue(true)) else s1;
      && s.cells.readerSem == 0 && s2.cells == s.cells.(readerCount := n, readerSem := n) && s2.pcs == s.pcs[t := Releasing]
  {
    assert Owns(s.pcs[t]);
    assert s.pcs[t := Waking(Tally(s.pcs).blocked)][t := Releasing] == s.pcs[t := Releasing];
  }

  /** The begun operations, and the compare-and-swap attempts that have to be repeated. */
  function Extra(s: State, events: seq<Event>): nat
    decreases |events|
  {
    if events == [] || !Enabled(s, events[0].thread, events[0].action) then 0 else
      var e := events[0];
      var s' := Fire(s, e.thread, e.action);
      Extra(s', events[1..]) +
      if e.action.Begin? then 8 else if s.pcs[e.thread].Trying? && s'.pcs[e.thread].Trying? then 1 else 0
  }

  /** Apart from begun operations and repeated attempts the lock settles: it runs out of steps, and then all is reset. */
  lemma {:induction false} EveryInterleavingSettles(s: State, events: seq<Event>, r: State)
    requires Invariant(s) && Leads(s, events, r)
    ensures Work(r.pcs) + |events| <= Work(s.pcs) + Extra(s, events)
    ensures (forall t :: 0 <= t < |r.pcs| ==> !Enabled(r, t, Continue(true))) ==> r == Init(|s.pcs|)
    decreases |events|
  {
    if events != [] {
      var e := events[0];
      var s' := Fire(s, e.thread, e.action);
      FireKeeps(s, e.thread, e.action);
      WorkUpdate(s.pcs, e.thread, s'.pcs[e.thread]);
      RankShrinks(s.cells, e.thread, s.pcs[e.thread], e.action);
      EveryInterleavingSettles(s', events[1..], r);
    } else if Quiet(s) {
      QuietIsReset(s);
    } else {
      var t := SomeoneCanMove(s);
    }
  }

  lemma {:induction false} RankShrinks(c: Cells, t: nat, pc: PC, a: Action)
    requires CanStep(c, pc, a)
    ensures var pc' := Step(c, t, pc, a).1;
            Rank(pc') + 1 <= Rank(pc) + if a.Begin? then 8 else if pc.Trying? && pc'.Trying? then 1 else 0
  {
  }

  /** Thread `t` of the crowd `pcs` has performed `a`: the words and its phase are as `Step` says. */
  ghost predicate Stepped(c: Cells, c': Cells, pcs: seq<PC>, t: nat, a: Action, pc': PC) {
    && t < |pcs| && CanStep(c, pcs[t], a) && (c', pc') == Step(c, t, pcs[t], a)
    && Invariant(State(c', pcs[t := pc']))
  }

  predicate Fits(c: Cells) {
    && -MAX_READERS <= c.readerCount < MAX_READERS && -MAX_READERS <= c.readerWait < MAX_READERS
    && 0 <= c.readerSem < MAX_READERS && 0 <= c.writerSem <= 1
  }

  lemma {:induction false} SteppedKeeps(c: Cells, pcs: seq<PC>, t: nat, a: Action)
    requires Invariant(State(c, pcs)) && t < |pcs| && CanStep(c, pcs[t], a)
    ensures Stepped(c, Step(c, t, pcs[t], a).0, pcs, t, a, Step(c, t, pcs[t], a).1)
    ensures Fits(c) && Fits(Step(c, t, pcs[t], a).0)
  {
    FireKeeps(State(c, pcs), t, a);
    CountersFit(State(c, pcs));
    CountersFit(Fire(State(c, pcs), t, a));
  }

  /** The lock itself. Each method is one atomic operation of thread `t`, on 32-bit words; the crowd is ghost. */
  class SharedMutex {
    var readerCount: int32
    var readerWait: int32
    var readerSem: int32
    var writerSem: int32
    var writerMu: Option<nat>

    ghost function Words(): Cells
      reads this
    {
      Cells(readerCount as int, readerWait as int, readerSem as int, writerSem as int, writerMu)
    }

    ghost predicate Valid(pcs: seq<PC>)
      reads this
    {
      Invariant(State(Words(), pcs))
    }

    constructor (ghost threads: nat)
      requires threads < MAX_READERS
      ensures Words() == Init(threads).cells && Valid(Init(threads).pcs)
    {
      readerCount, readerWait, readerSem, writerSem, writerMu := 0, 0, 0, 0, None;
      InitInvariant(threads);
    }

    method LockShared(ghost pcs: seq<PC>, t: nat) returns (pc: PC)
      requires Valid(pcs) && t < |pcs| && pcs[t].Idle?
      modifies this
      ensures Stepped(old(Words()), Words(), pcs, t, Begin(Call.LockShared, true), pc)
      ensures Words() == old(Words()).(readerCount := old(readerCount) as int + 1) && pc == if old(readerCount) < 0 then Blocked else Reading
    {
      SteppedKeeps(Words(), pcs, t, Begin(Call.LockShared, true));
      var before := readerCount;
      readerCount := readerCount + 1;
      pc := if before < 0 then Blocked else Reading;
    }

    method AcquireReaderSem(ghost pcs: seq<PC>, t: nat) returns (pc: PC)
      requires Valid(pcs) && t < |pcs| && pcs[t].Blocked? && readerSem > 0
      modifies this
      ensures Stepped(old(Words()), Words(), pcs, t, Continue(true), pc)
      ensures Words() == old(Words()).(readerSem := old(readerSem) as int - 1) && pc == Reading
    {
      SteppedKeeps(Words(), pcs, t, Continue(true));
      readerSem := readerSem - 1;
      pc := Reading;
    }

    method TryLockShared(ghost pcs: seq<PC>, t: nat) returns (pc: PC)
      requires Valid(pcs) && t < |pcs| && pcs[t].Idle?
      ensures Stepped(Words(), Words(), pcs, t, Begin(Call.TryLockShared, true), pc)
      ensures pc == if readerCount < 0 then Idle else Trying(readerCount as int)
    {
      SteppedKeeps(Words(), pcs, t, Begin(Call.TryLockShared, true));
      pc := if readerCount < 0 then Idle else Trying(readerCount as int);
    }

    method CompareExchangeReader(ghost pcs: seq<PC>, t: nat, seen: int32, lucky: bool) returns (pc: PC)
      requires Valid(pcs) && t < |pcs| && pcs[t] == Trying(seen as int)
      modifies this
      ensures Stepped(old(Words()), Words(), pcs, t, Continue(lucky), pc)
      ensures pc.Reading? <==> lucky && old(readerCount) == seen
      ensures Words() == old(Words()).(readerCount := old(readerCount) as int + if pc.Reading? then 1 else 0)
      ensures !pc.Reading? ==> pc == if old(readerCount) < 0 then Idle else Trying(old(readerCount) as int)
    {
      SteppedKeeps(Words(), pcs, t, Continue(lucky));
      if lucky && readerCount == seen {
        readerCount := seen + 1;
        pc := Reading;
      } else {
        pc := if readerCount < 0 then Idle else Trying(readerCount as int);
      }
    }

    method UnlockShared(ghost pcs: seq<PC>, t: nat) returns (pc: PC)
      requires Valid(pcs) && t < |pcs| && pcs[t].Reading?
      modifies this
      ensures Stepped(old(Words()), Words(), pcs, t, Continue(true), pc)
      ensures Words() == old(Words()).(readerCount := old(readerCount) as int - 1) && pc == if old(readerCount) < 0 then Draining else Idle
    {
      CountersFit(State(Words(), pcs));
      SteppedKeeps(Words(), pcs, t, Continue(true));
      var r := readerCount;
      readerCount := readerCount - 1;
      if r < 0 {
        assert r != 0 && r as int != -MAX_READERS;
        pc := Draining;
      } else {
        pc := Idle;
      }
    }

    method Drain(ghost pcs: seq<PC>, t: nat) returns (pc: PC)
      requires Valid(pcs) && t < |pcs| && pcs[t].Draining?
      modifies this
      ensures Stepped(old(Words()), Words(), pcs, t, Continue(true), pc)
      ensures Words() == old(Words()).(readerWait := old(readerWait) as int - 1) && pc == if old(readerWait) == 1 then Posting else Idle
    {
      SteppedKeeps(Words(), pcs, t, Continue(true));
      var before := readerWait;
      readerWait := readerWait - 1;
      pc := if before == 1 then Posting else Idle;
    }

    method ReleaseWriterSem(ghost pcs: seq<PC>, t: nat) returns (pc: PC)
      requires Valid(pcs) && t < |pcs| && pcs[t].Posting?
      modifies this
      ensures Stepped(old(Words()), Words(), pcs, t, Continue(true), pc)
      ensures Words() == old(Words()).(writerSem := 1) && old(writerSem) == 0 && pc == Idle
    {
      SteppedKeeps(Words(), pcs, t, Continue(true));
      writerSem := writerSem + 1;
      pc := Idle;
    }

    method LockWriterMu(ghost pcs: seq<PC>, t: nat) returns (pc: PC)
      requires Valid(pcs) && t < |pcs| && pcs[t].Wanting? && writerMu.None?
      modifies this
      ensures Stepped(old(Words()), Words(), pcs, t, Continue(true), pc)
      ensures Words() == old(Words()).(writerMu := Some(t)) && pc == Announcing
    {
      SteppedKeeps(Words(), pcs, t, Continue(true));
      writerMu := Some(t);
      pc := Announcing;
    }

    method Announce(ghost pcs: seq<PC>, t: nat) returns (pc: PC)
      requires Valid(pcs) && t < |pcs| && pcs[t].Announcing?
      modifies this
      ensures Stepped(old(Words()), Words(), pcs, t, Continue(true), pc)
      ensures Words() == old(Words()).(readerCount := old(readerCount) as int - MAX_READERS)
      ensures pc == if old(readerCount) == 0 then Writing else Adding(old(readerCount) as int)
    {
      SteppedKeeps(Words(), pcs, t, Continue(true));
      var r := readerCount;
      readerCount := readerCount - 0x4000_0000;
      assert r < 0x4000_0000;
      pc := if r != 0 then Adding(r as int) else Writing;
    }

    method AddReaderWait(ghost pcs: seq<PC>, t: nat, r: int32) returns (pc: PC)
      requires Valid(pcs) && t < |pcs| && pcs[t] == Adding(r as int)
      modifies this
      ensures Stepped(old(Words()), Words(), pcs, t, Continue(true), pc)
      ensures Words() == old(Words()).(readerWait := old(readerWait) as int + r as int) && pc == if old(readerWait) == -r then Writing else Waiting
    {
      SteppedKeeps(Words(), pcs, t, Continue(true));
      readerWait := readerWait + r;
      pc := if readerWait != 0 then Waiting else Writing;
    }

    method AcquireWriterSem(ghost pcs: seq<PC>, t: nat) returns (pc: PC)
      requires Valid(pcs) && t < |pcs| && pcs[t].Waiting? && writerSem > 0
      modifies this
      ensures Stepped(old(Words()), Words(), pcs, t, Continue(true), pc)
      ensures Words() == old(Words()).(writerSem := 0) && pc == Writing
    {
      SteppedKeeps(Words(), pcs, t, Continue(true));
      writerSem := writerSem - 1;
      pc := Writing;
    }

    method TryLock(ghost pcs: seq<PC>, t: nat, lucky: bool) returns (pc: PC)
      requires Valid(pcs) && t < |pcs| && pcs[t].Idle?
      modifies this
      ensures Stepped(old(Words()), Words(), pcs, t, Begin(Call.TryLock, lucky), pc)
      ensures pc == if old(writerMu).None? && lucky then TryAnnouncing else Idle
      ensures Words() == old(Words()).(writerMu := if pc.Idle? then old(writerMu) else Some(t))
    {
      SteppedKeeps(Words(), pcs, t, Begin(Call.TryLock, lucky));
      if writerMu.None? && lucky {
        writerMu := Some(t);
        pc := TryAnnouncing;
      } else {
        pc := Idle;
      }
    }

    method TryAnnounce(ghost pcs: seq<PC>, t: nat) returns (pc: PC)
      requires Valid(pcs) && t < |pcs| && pcs[t].TryAnnouncing?
      modifies this
      ensures Stepped(old(Words()), Words(), pcs, t, Continue(true), pc)
      ensures pc == if old(readerCount) == 0 then Writing else BackingOut
      ensures Words() == old(Words()).(readerCount := if pc.Writing? then -0x4000_0000 else old(readerCount) as int)
    {
      SteppedKeeps(Words(), pcs, t, Continue(true));
      if readerCount == 0 {
        readerCount := -0x4000_0000;
        pc := Writing;
      } else {
        pc := BackingOut;
      }
    }

    method Unannounce(ghost pcs: seq<PC>, t: nat) returns (pc: PC)
      requires Valid(pcs) && t < |pcs| && pcs[t].Writing?
      modifies this
      ensures Stepped(old(Words()), Words(), pcs, t, Continue(true), pc)
      ensures Words() == old(Words()).(readerCount := old(readerCount) as int + MAX_READERS)
      ensures pc == if readerCount > 0 then Waking(readerCount as int) else Releasing
    {
      SteppedKeeps(Words(), pcs, t, Continue(true));
      readerCount := readerCount + 0x4000_0000;
      assert readerCount < 0x4000_0000;
      pc := if readerCount > 0 then Waking(readerCount as int) else Releasing;
    }

    method ReleaseReaderSem(ghost pcs: seq<PC>, t: nat, r: int32) returns (pc: PC)
      requires Valid(pcs) && t < |pcs| && pcs[t] == Waking(r as int)
      modifies this
      ensures Stepped(old(Words()), Words(), pcs, t, Continue(true), pc)
      ensures Words() == old(Words()).(readerSem := old(readerSem) as int + r as int) && pc == Releasing
    {
      SteppedKeeps(Words(), pcs, t, Continue(true));
      readerSem := readerSem + r;
      pc := Releasing;
    }

    method UnlockWriterMu(ghost pcs: seq<PC>, t: nat) returns (pc: PC)
      requires Valid(pcs) && t < |pcs| && (pcs[t].Releasing? || pcs[t].BackingOut?)
      modifies this
      ensures Stepped(old(Words()), Words(), pcs, t, Continue(true), pc)
      ensures Words() == old(Words()).(writerMu := None) && pc == Idle
    {
      SteppedKeeps(Words(), pcs, t, Continue(true));
      writerMu := None;
      pc := Idle;
    }
  }
}
