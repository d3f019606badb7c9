/** The reader-writer lock of buflock.go as interleaved atomic steps.

Every access to the atomic word `readers` is a step of its own, because the fast paths
touch it without the mutex. What a thread does to mutex-guarded fields between two such
accesses is one step. Parking in the condition variable releases the mutex in the same
step; a broadcast turns every parked thread into a woken one, which still has to take
the mutex and test its predicate again. */
module BufferLock {
  import opened Counting
  import opened Options

  /** The writer bias (bufMaxReaders). */
  const BIAS: int := 0x4000_0000

  /** atomic.Int32.Add: two's-complement addition of two 32-bit operands. */
  function Add32(a: int, b: int): int {
    var sum := a + b;
    if sum >= 0x8000_0000 then sum - 0x1_0000_0000
    else if sum < -0x8000_0000 then sum + 0x1_0000_0000
    else sum
  }

  /** What an idle thread may start. */
  datatype Op = RLock | Lock | TryLock

  /** Where a thread is. The comment names the action it takes next. */
  datatype Pc =
    | Idle         // start an operation
    | Bounced      // rLock counted itself while a writer is in play: take mu
    | RUndo        // holds mu: undo the optimistic increment
    | RNotify      // holds mu: the undo drained the lock, broadcast
    | RTest        // holds mu: test the wait predicate, park or go on
    | RParked      // in cond.Wait
    | RWoken       // was broadcast to: take mu again
    | RAdmit       // holds mu: enrol
    | ROut         // holds mu: enrolled, release mu
    | Reading      // holds the shared lock: rUnlock
    | DrainWait    // rUnlock was the last reader: take mu
    | DrainNotify  // holds mu: broadcast and release mu
    | WInstall     // holds mu: install the bias
    | WTest        // holds mu: test the wait predicate
    | WPark        // holds mu: the predicate was true, park
    | WParked      // in cond.Wait
    | WWoken       // was broadcast to: take mu again
    | WTake        // holds mu: become the active writer and release mu
    | Writing      // holds the exclusive lock: unlock
    | ULift        // holds mu: lift the bias
    | UNotify      // holds mu: broadcast and release mu
    | TCas         // holds mu: compare-and-swap the empty word for the bias
    | TTake        // holds mu: the swap succeeded, become the active writer
    | TOut         // holds mu: refused, release mu

  /** The fields of the lock. */
  datatype Fields = Fields(readers: int, writersWaiting: int, writerActive: bool, readersWaiting: int)

  datatype State = State(f: Fields, mu: Option<nat>, pcs: seq<Pc>)

  function Init(threads: nat): State {
    State(Fields(0, 0, false, 0), None, seq(threads, _ => Idle))
  }

  /** The control points inside a mutex-guarded section. */
  predicate HoldsMu(p: Pc) {
    || p.RUndo? || p.RNotify? || p.RTest? || p.RAdmit? || p.ROut? || p.DrainNotify?
    || p.WInstall? || p.WTest? || p.WPark? || p.WTake? || p.ULift? || p.UNotify?
    || p.TCas? || p.TTake? || p.TOut?
  }

  predicate Parked(p: Pc) { p.RParked? || p.WParked? }

  /** The control points whose step is a broadcast. */
  predicate Notifies(p: Pc) { p.RNotify? || p.DrainNotify? || p.UNotify? }

  /** What one atomic step does to the fields, and where it leaves the thread; `op` is
      read only when the thread is idle. */
  function Act(f: Fields, p: Pc, op: Op): (Fields, Pc) {
    match p
    case Idle =>
      (match op
       case RLock =>
         var r := Add32(f.readers, 1);
         (f.(readers := r), if r > 0 then Reading else Bounced)
       case Lock =>
         var w := f.writersWaiting + 1;
         (f.(writersWaiting := w), if w == 1 && !f.writerActive then WInstall else WTest)
       case TryLock =>
         (f, if f.writerActive || f.writersWaiting > 0 then TOut else TCas))
    // rLockSlow
    case Bounced => (f, RUndo)
    case RUndo =>
      var r := Add32(f.readers, -1);
      if r == -BIAS then (f.(readers := r), RNotify)
      else (f.(readers := r, readersWaiting := f.readersWaiting + 1), RTest)
    case RNotify => (f.(readersWaiting := f.readersWaiting + 1), RTest)
    case RTest =>
      if f.writerActive || f.writersWaiting > 0 then (f, RParked)
      else (f.(readersWaiting := f.readersWaiting - 1), RAdmit)
    case RParked => (f, RParked)
    case RWoken => (f, RTest)
    case RAdmit => (f.(readers := Add32(f.readers, 1)), ROut)
    case ROut => (f, Reading)
    // rUnlock
    case Reading =>
      var r := Add32(f.readers, -1);
      (f.(readers := r), if r < 0 && r == -BIAS then DrainWait else Idle)
    case DrainWait => (f, DrainNotify)
    case DrainNotify => (f, Idle)
    // lock
    case WInstall => (f.(readers := Add32(f.readers, -BIAS)), WTest)
    case WTest => (f, if f.writerActive || f.readers != -BIAS then WPark else WTake)
    case WPark => (f, WParked)
    case WParked => (f, WParked)
    case WWoken => (f, WTest)
    case WTake => (f.(writersWaiting := f.writersWaiting - 1, writerActive := true), Writing)
    // unlock
    case Writing => (f.(writerActive := false), if f.writersWaiting == 0 then ULift else UNotify)
    case ULift => (f.(readers := Add32(f.readers, BIAS)), UNotify)
    case UNotify => (f, Idle)
    // tryLock
    case TCas => if f.readers == 0 then (f.(readers := -BIAS), TTake) else (f, TOut)
    case TTake => (f.(writerActive := true), Writing)
    case TOut => (f, Idle)
  }

  /** A thread can step unless it is parked, or its step takes a mutex that is held. */
  predicate Enabled(s: State, t: nat, op: Op) {
    && t < |s.pcs|
    && !Parked(s.pcs[t])
    && (!HoldsMu(s.pcs[t]) && HoldsMu(Act(s.f, s.pcs[t], op).1) ==> s.mu == None)
  }

  function Wake(p: Pc): Pc {
    match p
    case RParked => RWoken
    case WParked => WWoken
    case _ => p
  }

  function Broadcast(pcs: seq<Pc>): seq<Pc> {
    seq(|pcs|, i requires 0 <= i < |pcs| => Wake(pcs[i]))
  }

  /** One atomic step of thread `t`. The mutex is taken and released with the control points. */
  function Next(s: State, t: nat, op: Op): State
    requires Enabled(s, t, op)
  {
    var p := s.pcs[t];
    var (f', q) := Act(s.f, p, op);
    State(f',
          if HoldsMu(q) then Some(t) else if HoldsMu(p) then None else s.mu,
          (if Notifies(p) then Broadcast(s.pcs) else s.pcs)[t := q])
  }

  /** The state after a schedule; an entry that names a blocked thread does nothing. */
  function Run(s: State, schedule: seq<(nat, Op)>): State
    decreases |schedule|
  {
    if schedule == [] then s
    else
      var (t, op) := schedule[0];
      Run(if Enabled(s, t, op) then Next(s, t, op) else s, schedule[1..])
  }

  // ---------------------------------------------------------------------------
  // Weights
  // ---------------------------------------------------------------------------

  /** Holds the shared lock. */
  function Enrolled(p: Pc): nat { if p.ROut? || p.Reading? then 1 else 0 }
  /** Contributes one to `readers`: an enrolled reader, or a phantom not yet undone. */
  function Counted(p: Pc): nat { if p.Bounced? || p.RUndo? || p.ROut? || p.Reading? then 1 else 0 }
  /** Between the increment and the decrement of writersWaiting. */
  function Queued(p: Pc): nat {
    if p.WInstall? || p.WTest? || p.WPark? || p.WParked? || p.WWoken? || p.WTake? then 1 else 0
  }
  /** Holds the exclusive lock. */
  function Owner(p: Pc): nat { if p.Writing? then 1 else 0 }
  /** Between the increment and the decrement of readersWaiting. */
  function InReaderWait(p: Pc): nat { if p.RTest? || p.RParked? || p.RWoken? then 1 else 0 }
  /** Will broadcast before it does anything else to the lock. */
  function Committed(p: Pc): nat {
    if p.RNotify? || p.DrainWait? || p.DrainNotify? || p.ULift? || p.UNotify? then 1 else 0
  }
  /** A writer that is parked, or has already decided to park. */
  function SleepingWriter(p: Pc): nat { if p.WPark? || p.WParked? then 1 else 0 }
  /** A parked reader. */
  function SleepingReader(p: Pc): nat { if p.RParked? then 1 else 0 }

  /** All the sums the invariant speaks of. */
  datatype Sums = Sums(counted: int, enrolled: int, queued: int, owners: int, inWait: int,
                       committed: int, sleepingW: int, sleepingR: int)

  ghost function SumsOf(pcs: seq<Pc>): Sums {
    Sums(Total(pcs, Counted), Total(pcs, Enrolled), Total(pcs, Queued), Total(pcs, Owner),
         Total(pcs, InReaderWait), Total(pcs, Committed), Total(pcs, SleepingWriter), Total(pcs, SleepingReader))
  }

  /** The sums after one thread has gone from `p` to `q`. */
  ghost function Shift(m: Sums, p: Pc, q: Pc): Sums {
    Sums(m.counted - Counted(p) + Counted(q),
         m.enrolled - Enrolled(p) + Enrolled(q),
         m.queued - Queued(p) + Queued(q),
         m.owners - Owner(p) + Owner(q),
         m.inWait - InReaderWait(p) + InReaderWait(q),
         m.committed - Committed(p) + Committed(q),
         m.sleepingW - SleepingWriter(p) + SleepingWriter(q),
         m.sleepingR - SleepingReader(p) + SleepingReader(q))
  }

  // ---------------------------------------------------------------------------
  // The invariant
  // ---------------------------------------------------------------------------

  /** The control point of the mutex holder; Idle when the mutex is free. */
  ghost function Holder(s: State): Pc {
    if s.mu.Some? && s.mu.value < |s.pcs| then s.pcs[s.mu.value] else Idle
  }

  /** The bias is in the word. It lags the flags in three windows, each inside one
      thread's hold on the mutex: before it is installed, after it has been swapped in,
      and before it is lifted. */
  ghost predicate Biased(f: Fields, holder: Pc) {
    !holder.WInstall? && (f.writerActive || f.writersWaiting > 0 || holder.TTake? || holder.ULift?)
  }

  ghost predicate MutexInv(s: State) {
    && (s.mu.Some? ==> s.mu.value < |s.pcs|)
    && forall t :: 0 <= t < |s.pcs| ==> (HoldsMu(s.pcs[t]) <==> s.mu == Some(t))
  }

  /** What ties the fields, the mutex holder and the sums together. */
  ghost predicate Balanced(f: Fields, holder: Pc, m: Sums) {
    // The word counts enrolled and phantom readers, less the bias.
    && f.readers == m.counted - (if Biased(f, holder) then BIAS else 0)
    && f.writersWaiting == m.queued
    && m.owners == (if f.writerActive then 1 else 0)
    && f.readersWaiting == m.inWait
    // A writer that owns the lock, or is about to, has no reader beside it.
    && (f.writerActive || holder.WTake? || holder.TTake? ==> m.enrolled == 0)
    // What the holder has established under the mutex.
    && (holder.RAdmit? || holder.TCas? || holder.TTake? || holder.ULift? ==> !f.writerActive && f.writersWaiting == 0)
    && (holder.WInstall? ==> !f.writerActive && f.writersWaiting == 1)
    && (holder.WTake? ==> !f.writerActive && f.writersWaiting > 0)
    // A sleeper whose wait predicate has turned false has a broadcast coming.
    && (m.sleepingW > 0 && !f.writerActive && f.readers == -BIAS ==> m.committed > 0)
    && (m.sleepingR > 0 && !f.writerActive && f.writersWaiting == 0 ==> m.committed > 0)
  }

  ghost predicate Inv(s: State) {
    && |s.pcs| < BIAS
    && MutexInv(s)
    && Balanced(s.f, Holder(s), SumsOf(s.pcs))
  }

  // ---------------------------------------------------------------------------
  // Preservation
  // ---------------------------------------------------------------------------

  lemma Moved(pcs: seq<Pc>, t: nat, q: Pc)
    requires t < |pcs|
    ensures SumsOf(pcs[t := q]) == Shift(SumsOf(pcs), pcs[t], q)
  {
    TotalMove(pcs, t, q, Counted);
    TotalMove(pcs, t, q, Enrolled);
    TotalMove(pcs, t, q, Queued);
    TotalMove(pcs, t, q, Owner);
    TotalMove(pcs, t, q, InReaderWait);
    TotalMove(pcs, t, q, Committed);
    TotalMove(pcs, t, q, SleepingWriter);
    TotalMove(pcs, t, q, SleepingReader);
  }

  /** How the sums relate to each other, to a member thread and to the number of threads. */
  ghost predicate Sane(m: Sums, p: Pc) {
    && 0 <= m.enrolled <= m.counted < BIAS
    && 0 <= m.sleepingW <= m.queued < BIAS
    && 0 <= m.committed && 0 <= m.sleepingR
    && Queued(p) <= m.queued
    && Queued(p) + m.sleepingW <= m.queued + SleepingWriter(p)
    && Owner(p) <= m.owners
    && Enrolled(p) <= m.enrolled
  }

  lemma SumsSane(pcs: seq<Pc>, t: nat)
    requires t < |pcs| < BIAS
    ensures Sane(SumsOf(pcs), pcs[t])
  {
    TotalMonotone(pcs, pcs, Enrolled, Counted);
    TotalMonotone(pcs, pcs, SleepingWriter, Queued);
    TotalMonotone(pcs[t := Idle], pcs[t := Idle], SleepingWriter, Queued);
    TotalMove(pcs, t, Idle, SleepingWriter);
    TotalMove(pcs, t, Idle, Queued);
    TotalBounded(pcs, Counted);
    TotalBounded(pcs, Queued);
    TotalCovers(pcs, t, Queued);
    TotalCovers(pcs, t, Owner);
    TotalCovers(pcs, t, Enrolled);
  }

  lemma SameTotal(pcs: seq<Pc>, weight: Pc -> nat)
    requires weight(RParked) == weight(RWoken) && weight(WParked) == weight(WWoken)
    ensures Total(Broadcast(pcs), weight) == Total(pcs, weight)
  {
    TotalMonotone(pcs, Broadcast(pcs), weight, weight);
    TotalMonotone(Broadcast(pcs), pcs, weight, weight);
  }

  /** A broadcast leaves every sum alone except that nobody sleeps any more. */
  lemma Awoken(s: State)
    requires MutexInv(s) && s.mu.Some? && !Holder(s).WPark?
    ensures SumsOf(Broadcast(s.pcs)) == SumsOf(s.pcs).(sleepingW := 0, sleepingR := 0)
  {
    NobodySleeps(s);
    AwokenReaders(s.pcs);
    AwokenWriters(s.pcs);
  }

  lemma AwokenReaders(pcs: seq<Pc>)
    ensures Total(Broadcast(pcs), Counted) == Total(pcs, Counted)
    ensures Total(Broadcast(pcs), Enrolled) == Total(pcs, Enrolled)
    ensures Total(Broadcast(pcs), InReaderWait) == Total(pcs, InReaderWait)
  {
    SameTotal(pcs, Counted);
    SameTotal(pcs, Enrolled);
    SameTotal(pcs, InReaderWait);
  }

  lemma AwokenWriters(pcs: seq<Pc>)
    ensures Total(Broadcast(pcs), Queued) == Total(pcs, Queued)
    ensures Total(Broadcast(pcs), Owner) == Total(pcs, Owner)
    ensures Total(Broadcast(pcs), Committed) == Total(pcs, Committed)
  {
    SameTotal(pcs, Queued);
    SameTotal(pcs, Owner);
    SameTotal(pcs, Committed);
  }

  lemma NobodySleeps(s: State)
    requires MutexInv(s) && s.mu.Some? && !Holder(s).WPark?
    ensures Total(Broadcast(s.pcs), SleepingWriter) == 0
    ensures Total(Broadcast(s.pcs), SleepingReader) == 0
  {
    var woken := Broadcast(s.pcs);
    forall t | 0 <= t < |woken|
      ensures SleepingWriter(woken[t]) == 0 && SleepingReader(woken[t]) == 0
    {
      assert HoldsMu(s.pcs[t]) <==> s.mu == Some(t);
    }
    TotalNone(woken, SleepingWriter);
    TotalNone(woken, SleepingReader);
  }

  lemma InitInv(threads: nat)
    requires threads < BIAS
    ensures Inv(Init(threads))
  {
    var pcs := Init(threads).pcs;
    TotalNone(pcs, Counted);
    TotalNone(pcs, Enrolled);
    TotalNone(pcs, Queued);
    TotalNone(pcs, Owner);
    TotalNone(pcs, InReaderWait);
    TotalNone(pcs, SleepingWriter);
    TotalNone(pcs, SleepingReader);
  }

  /** How the holder changes when the mover goes from `p` to `q`. */
  ghost predicate Handover(h: Pc, h': Pc, p: Pc, q: Pc) {
    && (HoldsMu(p) ==> h == p)
    && (HoldsMu(q) ==> h' == q)
    && (!HoldsMu(p) && HoldsMu(q) ==> h == Idle)
    && (HoldsMu(p) && !HoldsMu(q) ==> h' == Idle)
    && (!HoldsMu(p) && !HoldsMu(q) ==> h' == h)
  }

  lemma StepMutex(s: State, t: nat, op: Op)
    requires MutexInv(s) && Enabled(s, t, op)
    ensures MutexInv(Next(s, t, op))
    ensures Handover(Holder(s), Holder(Next(s, t, op)), s.pcs[t], Act(s.f, s.pcs[t], op).1)
  {
    var s' := Next(s, t, op);
    assert HoldsMu(s.pcs[t]) <==> s.mu == Some(t);
    forall u | 0 <= u < |s.pcs|
      ensures HoldsMu(s'.pcs[u]) <==> s'.mu == Some(u)
    {
      assert HoldsMu(s.pcs[u]) <==> s.mu == Some(u);
    }
  }

  /** The sums after a step: a broadcast empties the condition, then the mover shifts. */
  ghost function After(m: Sums, p: Pc, q: Pc): Sums {
    Shift(if Notifies(p) then m.(sleepingW := 0, sleepingR := 0) else m, p, q)
  }

  lemma StepSums(s: State, t: nat, op: Op)
    requires MutexInv(s) && Enabled(s, t, op)
    ensures SumsOf(Next(s, t, op).pcs) == After(SumsOf(s.pcs), s.pcs[t], Act(s.f, s.pcs[t], op).1)
  {
    var p := s.pcs[t];
    if Notifies(p) {
      assert HoldsMu(p) <==> s.mu == Some(t);
      Awoken(s);
      Moved(Broadcast(s.pcs), t, Act(s.f, p, op).1);
    } else {
      Moved(s.pcs, t, Act(s.f, p, op).1);
    }
  }

  // The arithmetic of one step, over the mover's control point.

  lemma StartBalance(f: Fields, p: Pc, op: Op, h: Pc, h': Pc, m: Sums)
    requires p.Idle? && op.RLock?
    requires Sane(m, p) && Balanced(f, h, m)
    requires Handover(h, h', p, Act(f, p, op).1)
    ensures Balanced(Act(f, p, op).0, h', After(m, p, Act(f, p, op).1))
  {
  }

  lemma QueueBalance(f: Fields, p: Pc, op: Op, h: Pc, h': Pc, m: Sums)
    requires p.Idle? && !op.RLock?
    requires Sane(m, p) && Balanced(f, h, m)
    requires Handover(h, h', p, Act(f, p, op).1)
    ensures Balanced(Act(f, p, op).0, h', After(m, p, Act(f, p, op).1))
  {
  }

  lemma UndoBalance(f: Fields, p: Pc, op: Op, h: Pc, h': Pc, m: Sums)
    requires p.Bounced? || p.RUndo? || p.RNotify?
    requires Sane(m, p) && Balanced(f, h, m)
    requires Handover(h, h', p, Act(f, p, op).1)
    ensures Balanced(Act(f, p, op).0, h', After(m, p, Act(f, p, op).1))
  {
  }

  lemma RetestBalance(f: Fields, p: Pc, op: Op, h: Pc, h': Pc, m: Sums)
    requires p.RTest? || p.RWoken?
    requires Sane(m, p) && Balanced(f, h, m)
    requires Handover(h, h', p, Act(f, p, op).1)
    ensures Balanced(Act(f, p, op).0, h', After(m, p, Act(f, p, op).1))
  {
  }

  lemma AdmitBalance(f: Fields, p: Pc, op: Op, h: Pc, h': Pc, m: Sums)
    requires p.RAdmit? || p.ROut?
    requires Sane(m, p) && Balanced(f, h, m)
    requires Handover(h, h', p, Act(f, p, op).1)
    ensures Balanced(Act(f, p, op).0, h', After(m, p, Act(f, p, op).1))
  {
  }

  lemma LeaveBalance(f: Fields, p: Pc, op: Op, h: Pc, h': Pc, m: Sums)
    requires p.Reading? || p.DrainWait? || p.DrainNotify?
    requires Sane(m, p) && Balanced(f, h, m)
    requires Handover(h, h', p, Act(f, p, op).1)
    ensures Balanced(Act(f, p, op).0, h', After(m, p, Act(f, p, op).1))
  {
  }

  lemma InstallBalance(f: Fields, p: Pc, op: Op, h: Pc, h': Pc, m: Sums)
    requires p.WInstall? || p.WTest? || p.WPark?
    requires Sane(m, p) && Balanced(f, h, m)
    requires Handover(h, h', p, Act(f, p, op).1)
    ensures Balanced(Act(f, p, op).0, h', After(m, p, Act(f, p, op).1))
  {
  }

  lemma TakeBalance(f: Fields, p: Pc, op: Op, h: Pc, h': Pc, m: Sums)
    requires p.WWoken? || p.WTake?
    requires Sane(m, p) && Balanced(f, h, m)
    requires Handover(h, h', p, Act(f, p, op).1)
    ensures Balanced(Act(f, p, op).0, h', After(m, p, Act(f, p, op).1))
  {
  }

  lemma UnlockBalance(f: Fields, p: Pc, op: Op, h: Pc, h': Pc, m: Sums)
    requires p.Writing? || p.ULift? || p.UNotify?
    requires Sane(m, p) && Balanced(f, h, m)
    requires Handover(h, h', p, Act(f, p, op).1)
    ensures Balanced(Act(f, p, op).0, h', After(m, p, Act(f, p, op).1))
  {
  }

  lemma TryBalance(f: Fields, p: Pc, op: Op, h: Pc, h': Pc, m: Sums)
    requires p.TCas? || p.TTake? || p.TOut?
    requires Sane(m, p) && Balanced(f, h, m)
    requires Handover(h, h', p, Act(f, p, op).1)
    ensures Balanced(Act(f, p, op).0, h', After(m, p, Act(f, p, op).1))
  {
  }

  lemma StepBalance(f: Fields, p: Pc, op: Op, h: Pc, h': Pc, m: Sums)
    requires !Parked(p) && Sane(m, p) && Balanced(f, h, m)
    requires Handover(h, h', p, Act(f, p, op).1)
    ensures Balanced(Act(f, p, op).0, h', After(m, p, Act(f, p, op).1))
  {
    hide Sane, Balanced, Handover, Act, After;
    if p.Idle? && op.RLock? {
      StartBalance(f, p, op, h, h', m);
    } else if p.Idle? {
      QueueBalance(f, p, op, h, h', m);
    } else if p.Bounced? || p.RUndo? || p.RNotify? {
      UndoBalance(f, p, op, h, h', m);
    } else if p.RTest? || p.RWoken? {
      RetestBalance(f, p, op, h, h', m);
    } else if p.RAdmit? || p.ROut? {
      AdmitBalance(f, p, op, h, h', m);
    } else if p.Reading? || p.DrainWait? || p.DrainNotify? {
      LeaveBalance(f, p, op, h, h', m);
    } else if p.WInstall? || p.WTest? || p.WPark? {
      InstallBalance(f, p, op, h, h', m);
    } else if p.WWoken? || p.WTake? {
      TakeBalance(f, p, op, h, h', m);
    } else if p.Writing? || p.ULift? || p.UNotify? {
      UnlockBalance(f, p, op, h, h', m);
    } else {
      TryBalance(f, p, op, h, h', m);
    }
  }

  lemma StepInv(s: State, t: nat, op: Op)
    requires Inv(s) && Enabled(s, t, op)
    ensures Inv(Next(s, t, op))
  {
    SumsSane(s.pcs, t);
    StepMutex(s, t, op);
    StepSums(s, t, op);
    StepBalance(s.f, s.pcs[t], op, Holder(s), Holder(Next(s, t, op)), SumsOf(s.pcs));
  }

  lemma {:induction false} RunInv(s: State, schedule: seq<(nat, Op)>)
    requires Inv(s)
    ensures Inv(Run(s, schedule))
    decreases |schedule|
  {
    if schedule == [] {
    } else {
      var (t, op) := schedule[0];
      if Enabled(s, t, op) {
        StepInv(s, t, op);
        RunInv(Next(s, t, op), schedule[1..]);
      } else {
        RunInv(s, schedule[1..]);
      }
    }
  }

  // ---------------------------------------------------------------------------
  // What every interleaving of fewer than 2^30 threads guarantees
  // ---------------------------------------------------------------------------

  ghost predicate Reachable(s: State) {
    exists threads: nat, schedule :: threads < BIAS && s == Run(Init(threads), schedule)
  }

  lemma ReachableInv(s: State)
    requires Reachable(s)
    ensures Inv(s)
  {
    var threads: nat, schedule :| threads < BIAS && s == Run(Init(threads), schedule);
    InitInv(threads);
    RunInv(Init(threads), schedule);
  }

  /** A reader that has counted itself but will undo it. */
  function Phantom(p: Pc): nat { if p.Bounced? || p.RUndo? then 1 else 0 }

  /** The word is the enrolled readers plus the phantoms, less the bias, and never wraps. */
  lemma WordExact(s: State)
    requires Reachable(s)
    ensures s.f.readers == Total(s.pcs, Enrolled) + Total(s.pcs, Phantom) - (if Biased(s.f, Holder(s)) then BIAS else 0)
    ensures -BIAS <= s.f.readers < BIAS
    ensures s.f.readers < 0 <==> Biased(s.f, Holder(s))
  {
    ReachableInv(s);
    TotalSum(s.pcs, Enrolled, Phantom, Counted);
    TotalBounded(s.pcs, Counted);
  }

  /** A writer shares the lock with nobody. */
  lemma Exclusion(s: State, t: nat, u: nat)
    requires Reachable(s) && t < |s.pcs| && u < |s.pcs| && t != u
    requires s.pcs[t].Writing?
    ensures Enrolled(s.pcs[u]) == 0 && !s.pcs[u].Writing?
  {
    ReachableInv(s);
    TotalCovers(s.pcs, t, Owner);
    TotalCovers(s.pcs, u, Enrolled);
    if t < u {
      TotalCoversTwo(s.pcs, t, u, Owner);
    } else {
      TotalCoversTwo(s.pcs, u, t, Owner);
    }
  }

  /** While the bias is in the word, no step lets a further reader in. */
  lemma NoReaderOvertakes(s: State, t: nat, op: Op, u: nat)
    requires Inv(s) && Biased(s.f, Holder(s)) && Enabled(s, t, op) && u < |s.pcs|
    ensures Enrolled(Next(s, t, op).pcs[u]) <= Enrolled(s.pcs[u])
  {
    SumsSane(s.pcs, t);
    assert HoldsMu(s.pcs[t]) <==> s.mu == Some(t);
  }

  /** The bias stays until the last writer leaves: only unlock lifts it, with no writer
      queued and none active. */
  lemma BiasLifted(s: State, t: nat, op: Op)
    requires Inv(s) && Enabled(s, t, op)
    requires Biased(s.f, Holder(s)) && !Biased(Next(s, t, op).f, Holder(Next(s, t, op)))
    ensures s.pcs[t].ULift? && Total(s.pcs, Queued) == 0 && Total(s.pcs, Owner) == 0
  {
    SumsSane(s.pcs, t);
    StepMutex(s, t, op);
    assert HoldsMu(s.pcs[t]) <==> s.mu == Some(t);
  }

  /** Every state of the run has the bias in the word. */
  ghost predicate StaysBiased(s: State, schedule: seq<(nat, Op)>)
    decreases |schedule|
  {
    && Biased(s.f, Holder(s))
    && (schedule != [] ==>
          var (t, op) := schedule[0];
          StaysBiased(if Enabled(s, t, op) then Next(s, t, op) else s, schedule[1..]))
  }

  /** Writer preference over whole runs: from the moment the bias is installed until it
      is lifted, the readers inside are among those that were inside at the start. */
  lemma {:induction false} WriterPreference(s: State, schedule: seq<(nat, Op)>, u: nat)
    requires Inv(s) && StaysBiased(s, schedule) && u < |s.pcs|
    ensures |Run(s, schedule).pcs| == |s.pcs|
    ensures Enrolled(Run(s, schedule).pcs[u]) <= Enrolled(s.pcs[u])
    decreases |schedule|
  {
    if schedule == [] {
    } else {
      var (t, op) := schedule[0];
      if Enabled(s, t, op) {
        NoReaderOvertakes(s, t, op, u);
        StepInv(s, t, op);
        WriterPreference(Next(s, t, op), schedule[1..], u);
      } else {
        WriterPreference(s, schedule[1..], u);
      }
    }
  }

  /** The predicate the thread tests before it goes back to sleep. */
  predicate MustWait(f: Fields, p: Pc) {
    if p.RParked? then f.writerActive || f.writersWaiting > 0
    else f.writerActive || f.readers != -BIAS
  }

  /** No lost wakeup: a parked thread that could go on has a broadcast on its way. */
  lemma NoLostWakeup(s: State, t: nat) returns (c: nat)
    requires Reachable(s) && t < |s.pcs|
    requires Parked(s.pcs[t]) && !MustWait(s.f, s.pcs[t])
    ensures c < |s.pcs| && Committed(s.pcs[c]) == 1
  {
    ReachableInv(s);
    TotalCovers(s.pcs, t, SleepingWriter);
    TotalCovers(s.pcs, t, SleepingReader);
    TotalCovers(s.pcs, t, Queued);
    c := TotalWitness(s.pcs, Committed);
  }

  /** A committed thread stays committed, whatever the others do, until its own step
      wakes every parked thread. */
  lemma CommitmentKept(s: State, c: nat, t: nat, op: Op)
    requires Inv(s) && c < |s.pcs| && Committed(s.pcs[c]) == 1 && Enabled(s, t, op)
    ensures var s' := Next(s, t, op);
      || Committed(s'.pcs[c]) == 1
      || (t == c && forall u :: 0 <= u < |s'.pcs| ==> !Parked(s'.pcs[u]))
  {
  }

  /** The lock never wedges: with a thread parked, either somebody is inside the lock and
      has yet to leave, or a thread that is inside an operation can step. */
  lemma NoDeadlock(s: State, t: nat) returns (u: nat)
    requires Reachable(s) && t < |s.pcs| && Parked(s.pcs[t])
    ensures u < |s.pcs| && !s.pcs[u].Idle?
    ensures s.pcs[u].Reading? || s.pcs[u].Writing? || forall op :: Enabled(s, u, op)
  {
    ReachableInv(s);
    if s.mu.Some? {
      u := s.mu.value;
      assert HoldsMu(s.pcs[u]);
    } else if Total(s.pcs, Owner) > 0 {
      u := TotalWitness(s.pcs, Owner);
    } else if Total(s.pcs, Counted) > 0 {
      u := TotalWitness(s.pcs, Counted);
      assert !HoldsMu(s.pcs[u]);
    } else if Total(s.pcs, Committed) > 0 {
      u := TotalWitness(s.pcs, Committed);
      assert !HoldsMu(s.pcs[u]);
    } else if s.pcs[t].WParked? {
      TotalCovers(s.pcs, t, SleepingWriter);
      TotalCovers(s.pcs, t, Queued);
      assert false;
    } else {
      TotalCovers(s.pcs, t, SleepingReader);
      u := AwakeWriter(s);
    }
  }

  /** A queued writer that is not asleep can step when the mutex is free. */
  lemma AwakeWriter(s: State) returns (u: nat)
    requires Inv(s) && s.mu.None? && Total(s.pcs, Queued) > 0
    requires Total(s.pcs, Counted) == 0 && Total(s.pcs, Owner) == 0 && Total(s.pcs, Committed) == 0
    ensures u < |s.pcs| && !s.pcs[u].Idle? && forall op :: Enabled(s, u, op)
  {
    u := TotalWitness(s.pcs, Queued);
    assert !HoldsMu(s.pcs[u]);
    TotalCovers(s.pcs, u, SleepingWriter);
  }

  // ---------------------------------------------------------------------------
  // What each call does on its own
  // ---------------------------------------------------------------------------

  /** `n` steps of one thread, nobody else moving. */
  function Alone(t: nat, op: Op, n: nat): seq<(nat, Op)> { seq(n, _ => (t, op)) }

  lemma AloneStep(s: State, t: nat, op: Op, n: nat)
    requires n > 0 && Enabled(s, t, op)
    ensures Run(s, Alone(t, op, n)) == Run(Next(s, t, op), Alone(t, op, n - 1))
  {
    hide Enabled, Next;
    assert Alone(t, op, n)[1..] == Alone(t, op, n - 1);
  }

  lemma AloneDone(s: State, t: nat, op: Op)
    ensures Run(s, Alone(t, op, 0)) == s
  {
  }

  /** One more step, from fields and a control point to the next. */
  lemma Forward(s: State, t: nat, op: Op, n: nat) returns (s': State)
    requires n > 0 && t < |s.pcs| && !Parked(s.pcs[t]) && (!HoldsMu(s.pcs[t]) ==> s.mu == None)
    ensures Enabled(s, t, op) && s' == Next(s, t, op)
    ensures Run(s, Alone(t, op, n)) == Run(s', Alone(t, op, n - 1)) && Run(s', Alone(t, op, 0)) == s'
  {
    hide Act;
    s' := Next(s, t, op);
    AloneStep(s, t, op, n);
    AloneDone(s', t, op);
  }

  /** No reader, no writer and none waiting. */
  predicate Free(f: Fields) { f.readers == 0 && !f.writerActive && f.writersWaiting == 0 }

  /** With the mutex free, that is what the fields say exactly when no thread is counted, queued or writing. */
  lemma FreeExactly(s: State)
    requires Reachable(s) && s.mu == None
    ensures Free(s.f) <==> forall u :: 0 <= u < |s.pcs| ==> Counted(s.pcs[u]) == Queued(s.pcs[u]) == Owner(s.pcs[u]) == 0
  {
    hide Total, Counted, Queued, Owner;
    ReachableInv(s);
    if Free(s.f) {
      forall u | 0 <= u < |s.pcs|
        ensures Counted(s.pcs[u]) == Queued(s.pcs[u]) == Owner(s.pcs[u]) == 0
      {
        TotalCovers(s.pcs, u, Counted);
        TotalCovers(s.pcs, u, Queued);
        TotalCovers(s.pcs, u, Owner);
      }
    }
    if forall u :: 0 <= u < |s.pcs| ==> Counted(s.pcs[u]) == Queued(s.pcs[u]) == Owner(s.pcs[u]) == 0 {
      TotalNone(s.pcs, Counted);
      TotalNone(s.pcs, Queued);
      TotalNone(s.pcs, Owner);
    }
  }

  /** tryLock on a free lock takes it; on any other it answers at once and changes nothing. */
  lemma TryLockExactly(s: State, t: nat)
    requires t < |s.pcs| && s.pcs[t] == Idle && s.mu == None
    ensures Free(s.f) ==>
      Run(s, Alone(t, TryLock, 3)) == State(s.f.(readers := -BIAS, writerActive := true), None, s.pcs[t := Writing])
    ensures s.f.writerActive || s.f.writersWaiting > 0 ==> Run(s, Alone(t, TryLock, 2)) == s
    ensures !s.f.writerActive && s.f.writersWaiting <= 0 && s.f.readers != 0 ==> Run(s, Alone(t, TryLock, 3)) == s
  {
    hide Run, Alone, Act;
    TryActs(s.f);
    if s.f.writerActive || s.f.writersWaiting > 0 {
      var s1 := Forward(s, t, TryLock, 2);
      var s2 := Forward(s1, t, TryLock, 1);
      assert s.pcs[t := TOut][t := Idle] == s.pcs;
    } else {
      var s1 := Forward(s, t, TryLock, 3);
      var s2 := Forward(s1, t, TryLock, 2);
      var s3 := Forward(s2, t, TryLock, 1);
      assert s.pcs[t := TCas][t := TOut][t := Idle] == s.pcs;
      assert s.pcs[t := TCas][t := TTake][t := Writing] == s.pcs[t := Writing];
    }
  }

  /** lock on a free lock takes it without parking. */
  lemma LockTakes(s: State, t: nat)
    requires t < |s.pcs| && s.pcs[t] == Idle && s.mu == None && Free(s.f)
    ensures Run(s, Alone(t, Lock, 4)) == State(s.f.(readers := -BIAS, writerActive := true), None, s.pcs[t := Writing])
  {
    hide Run, Alone, Act;
    LockActs(s.f);
    var s1 := Forward(s, t, Lock, 4);
    assert s1.pcs == s.pcs[t := WInstall];
    var s2 := Forward(s1, t, Lock, 3);
    var s3 := Forward(s2, t, Lock, 2);
    var s4 := Forward(s3, t, Lock, 1);
    assert s.pcs[t := WInstall][t := WTest][t := WTake][t := Writing] == s.pcs[t := Writing];
  }

  lemma LockActs(f: Fields)
    requires Free(f)
    ensures var f1 := f.(writersWaiting := 1); var f2 := f1.(readers := -BIAS);
      && Act(f, Idle, Lock) == (f1, WInstall) && Act(f1, WInstall, Lock) == (f2, WTest) && Act(f2, WTest, Lock) == (f2, WTake)
      && Act(f2, WTake, Lock) == (f.(readers := -BIAS, writerActive := true), Writing)
  {
  }

  lemma TryActs(f: Fields)
    ensures Act(f, TOut, TryLock) == (f, Idle)
    ensures f.writerActive || f.writersWaiting > 0 ==> Act(f, Idle, TryLock) == (f, TOut)
    ensures !f.writerActive && f.writersWaiting <= 0 ==>
      && Act(f, Idle, TryLock) == (f, TCas)
      && (f.readers != 0 ==> Act(f, TCas, TryLock) == (f, TOut))
      && (f.readers == 0 ==>
            && Act(f, TCas, TryLock) == (f.(readers := -BIAS), TTake)
            && Act(f.(readers := -BIAS), TTake, TryLock) == (f.(readers := -BIAS, writerActive := true), Writing))
  {
  }

  lemma UnlockActs(f: Fields, op: Op)
    requires -BIAS <= f.readers < BIAS
    ensures var f1 := f.(writerActive := false); var f2 := f1.(readers := f.readers + BIAS);
      && Act(f, Writing, op) == (f1, if f.writersWaiting == 0 then ULift else UNotify)
      && Act(f1, ULift, op) == (f2, UNotify) && Act(f2, UNotify, op) == (f2, Idle) && Act(f1, UNotify, op) == (f1, Idle)
  {
  }

  /** unlock gives the lock up and wakes every sleeper; the bias goes with the last writer. */
  lemma UnlockFrees(s: State, t: nat, op: Op)
    requires Reachable(s) && t < |s.pcs| && s.pcs[t] == Writing && s.mu == None
    ensures s.f.writersWaiting == 0 ==>
      Run(s, Alone(t, op, 3)) ==
        State(s.f.(readers := s.f.readers + BIAS, writerActive := false), None, Broadcast(s.pcs)[t := Idle])
    ensures s.f.writersWaiting != 0 ==>
      Run(s, Alone(t, op, 2)) == State(s.f.(writerActive := false), None, Broadcast(s.pcs)[t := Idle])
  {
    hide Run, Alone, Reachable, Inv, Act;
    BiasFits(s, t);
    UnlockActs(s.f, op);
    if s.f.writersWaiting == 0 {
      var s1 := Forward(s, t, op, 3);
      var s2 := Forward(s1, t, op, 2);
      var s3 := Forward(s2, t, op, 1);
      assert Broadcast(s2.pcs)[t := Idle] == Broadcast(s.pcs)[t := Idle];
    } else {
      var s1 := Forward(s, t, op, 2);
      var s2 := Forward(s1, t, op, 1);
      assert Broadcast(s1.pcs)[t := Idle] == Broadcast(s.pcs)[t := Idle];
    }
  }

  /** The word under the bias is far from wrapping. */
  lemma BiasFits(s: State, t: nat)
    requires Reachable(s) && t < |s.pcs| && s.pcs[t] == Writing
    ensures -BIAS <= s.f.readers < BIAS && s.f.writerActive
  {
    hide Total;
    ReachableInv(s);
    SumsSane(s.pcs, t);
    TotalCovers(s.pcs, t, Owner);
  }

  /** rLock is admitted by its one atomic increment exactly when no bias is in the word. */
  lemma RLockFast(s: State, t: nat)
    requires Reachable(s) && t < |s.pcs| && s.pcs[t] == Idle
    ensures Enabled(s, t, RLock)
    ensures var s' := Next(s, t, RLock);
      && s'.f == s.f.(readers := s.f.readers + 1) && s'.mu == s.mu
      && s'.pcs == s.pcs[t := if s.f.readers >= 0 then Reading else Bounced]
  {
    hide Total;
    ReachableInv(s);
    SumsSane(s.pcs, t);
  }

  /** rUnlock takes its count back; the last reader out under a bias goes on to wake the writer. */
  lemma RUnlockFast(s: State, t: nat, op: Op)
    requires Reachable(s) && t < |s.pcs| && s.pcs[t] == Reading
    ensures Enabled(s, t, op)
    ensures var s' := Next(s, t, op);
      && s'.f == s.f.(readers := s.f.readers - 1) && s'.mu == s.mu
      && s'.pcs == s.pcs[t := if s.f.readers == 1 - BIAS then DrainWait else Idle]
  {
    hide Total;
    ReachableInv(s);
    SumsSane(s.pcs, t);
  }

  // ---------------------------------------------------------------------------
  // The lock as an object updated in place
  // ---------------------------------------------------------------------------

  /** buflock.go's bufferRWLock, with the mutex and the threads' control points beside it. */
  class BufferRWLock {
    var readers: int
    var writersWaiting: int
    var writerActive: bool
    var readersWaiting: int
    var mu: Option<nat>
    var pcs: seq<Pc>

    ghost function View(): State
      reads this
    {
      State(Fields(readers, writersWaiting, writerActive, readersWaiting), mu, pcs)
    }

    constructor (threads: nat)
      ensures View() == Init(threads)
    {
      readers, writersWaiting, writerActive, readersWaiting := 0, 0, false, 0;
      mu := None;
      pcs := seq(threads, _ => Idle);
    }

    /** cond.Broadcast. */
    method WakeAll()
      modifies this`pcs
      ensures pcs == Broadcast(old(pcs))
    {
      var i := 0;
      while i < |pcs|
        invariant 0 <= i <= |pcs| == |old(pcs)|
        invariant forall k :: 0 <= k < i ==> pcs[k] == Wake(old(pcs)[k])
        invariant forall k :: i <= k < |pcs| ==> pcs[k] == old(pcs)[k]
      {
        if pcs[i].RParked? {
          pcs := pcs[i := RWoken];
        } else if pcs[i].WParked? {
          pcs := pcs[i := WWoken];
        }
        i := i + 1;
      }
    }

    /** One scheduled step, in place; the invariant carries over. */
    method Step(t: nat, op: Op)
      requires Inv(View()) && Enabled(View(), t, op)
      modifies this
      ensures View() == Next(old(View()), t, op) && Inv(View())
    {
      StepInv(View(), t, op);
      var p := pcs[t];
      var (f, q) := Act(Fields(readers, writersWaiting, writerActive, readersWaiting), p, op);
      readers, writersWaiting, writerActive, readersWaiting := f.readers, f.writersWaiting, f.writerActive, f.readersWaiting;
      if Notifies(p) {
        WakeAll();
      }
      pcs := pcs[t := q];
      mu := if HoldsMu(q) then Some(t) else if HoldsMu(p) then None else mu;
    }
  }
}
