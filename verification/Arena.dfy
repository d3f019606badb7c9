/** The slot lifecycle of securearena.go as interleaved atomic steps.

A step is one atomic load or compare-and-swap, one whole critical section of the
allocation mutex, or what a thread does under the region lock between two of those.
The region lock itself is what BufferLock proves it to be: shared holders together, or
one exclusive holder alone. Any number of threads may hold copies of one handle and
release it at the same time. */
module Arena {
  import opened Counting
  import opened Numbers
  import opened SlotIndex

  /** What Acquire hands out: a slot and the odd generation it was acquired under. */
  datatype Handle = Handle(idx: nat, gen: nat)

  datatype Choice =
    | Acquire | Borrow(h: Handle) | Release(h: Handle) | Destroy | Protect(readOnly: bool) | EmergencyWipe
    | Go                       // take the next step; a system call in it succeeds
    | Fail                     // take the next step; the system call in it fails
    | Store(bytes: seq<int>)   // a borrowing callback writes its window

  /** Where a thread is. The comment names the action it takes next. */
  datatype Pc =
    | Idle
    | AcqPop                            // holds alloc, flags tested: pop the free list
    | BorrowWait(h: Handle)             // take the region lock shared
    | BorrowTest(h: Handle)             // shared: test region, wiped flag, generation
    | Borrowing(h: Handle)              // shared: the callback runs on the slot's window
    | RelWait(h: Handle)                // passed the early check: take the region lock shared
    | RelTest(h: Handle)                // shared: refuse while read-only
    | RelClaim(h: Handle, live: bool)   // shared: compare-and-swap the generation
    | RelWipe(h: Handle, live: bool)    // shared: claimed, wipe the window, release the lock
    | RelAppend(h: Handle)              // claimed and wiped: append to the free list under alloc
    | DestroyWait | DestroyIn           // exclusive: wipe, unmap
    | ProtectWait(readOnly: bool) | ProtectIn(readOnly: bool)  // exclusive: mprotect the slab
    | WipeWait | WipeIn                 // exclusive: the emergency wipe

  datatype State = State(
    gens: seq<nat>,            // slotMeta.generation
    links: Links,              // slotMeta.next, freeHead and freeTail
    live: int,
    data: seq<seq<int>>,       // the slots' windows
    destroyed: bool,           // the flag Destroy sets before it waits for the lock
    mapped: bool,              // region.inner != nil
    readOnly: bool,
    wiped: bool,
    free: seq<nat>,            // history: the free slots in the order in which they were freed
    issued: set<Handle>,       // history: every handle ever handed out
    claims: multiset<Handle>,  // history: the successful compare-and-swaps of Release
    pcs: seq<Pc>)

  /** What is left of a queue when its head is taken. */
  function Rest(q: seq<nat>): seq<nat> { if q == [] then [] else q[1..] }

  function Init(count: nat, slotSize: nat, threads: nat): State {
    State(seq(count, _ => 0), Seeded(count), 0, seq(count, _ => Zeros(slotSize)),
          false, true, false, false, seq(count, i => i), {}, multiset{}, seq(threads, _ => Idle))
  }

  predicate Shared(p: Pc) {
    p.BorrowTest? || p.Borrowing? || p.RelTest? || p.RelClaim? || p.RelWipe?
  }

  predicate Exclusive(p: Pc) { p.DestroyIn? || p.ProtectIn? || p.WipeIn? }

  predicate HasHandle(p: Pc) {
    || p.BorrowWait? || p.BorrowTest? || p.Borrowing? || p.RelWait? || p.RelTest?
    || p.RelClaim? || p.RelWipe? || p.RelAppend?
  }

  predicate NoneExclusive(s: State) {
    forall u :: 0 <= u < |s.pcs| ==> !Exclusive(s.pcs[u])
  }

  predicate NoneInside(s: State) {
    forall u :: 0 <= u < |s.pcs| ==> !Exclusive(s.pcs[u]) && !Shared(s.pcs[u])
  }

  /** Indices are in range, so that every lookup of a step is. */
  predicate Shape(s: State) {
    && |s.gens| == |s.data| == |s.links.next| && s.links.InRange()
    && (forall k :: 0 <= k < |s.free| ==> s.free[k] < |s.gens|)
    && (forall h :: h in s.issued ==> h.idx < |s.gens|)
    && (forall u :: 0 <= u < |s.pcs| && HasHandle(s.pcs[u]) ==> s.pcs[u].h in s.issued)
  }

  /** Whether thread `t` can take the step `c`: the choice fits its control point, and the
      region lock is free for it. */
  predicate Enabled(s: State, t: nat, c: Choice) {
    && Shape(s)
    && t < |s.pcs|
    && match s.pcs[t]
       case Idle =>
         (match c
          case Acquire => true
          case Borrow(h) => h in s.issued
          case Release(h) => h in s.issued
          case Destroy => true
          case Protect(_) => true
          case EmergencyWipe => true
          case _ => false)
       case BorrowWait(_) => c.Go? && NoneExclusive(s)
       case RelWait(_) => c.Go? && NoneExclusive(s)
       case DestroyWait => c.Go? && NoneInside(s)
       case ProtectWait(_) => c.Go? && NoneInside(s)
       case WipeWait => c.Go? && NoneInside(s)
       // A store into a read-only slab faults instead of landing.
       case Borrowing(h) => c.Go? || (c.Store? && !s.readOnly && |c.bytes| == |s.data[h.idx]|)
       case DestroyIn => c.Go? || c.Fail?
       case ProtectIn(_) => c.Go? || c.Fail?
       case WipeIn => c.Go? || c.Fail?
       case _ => c.Go?
  }

  /** All windows zeroed. */
  function Cleared(data: seq<seq<int>>): seq<seq<int>> {
    seq(|data|, i requires 0 <= i < |data| => Zeros(|data[i]|))
  }

  /** What a step does to everything but the threads, and where it leaves thread `t`. */
  function Act(s: State, t: nat, c: Choice): (State, Pc)
    requires Enabled(s, t, c)
  {
    match s.pcs[t]
    case Idle =>
      (match c
       case Acquire => (s, if s.destroyed || s.wiped then Idle else AcqPop)
       case Borrow(h) => (s, if s.destroyed then Idle else BorrowWait(h))
       case Release(h) => (s, if s.gens[h.idx] != h.gen then Idle else RelWait(h))
       case Destroy => (s.(destroyed := true), DestroyWait)
       case Protect(ro) => (s, ProtectWait(ro))
       case EmergencyWipe => (s, WipeWait)
       case _ => (s, Idle))
    case AcqPop =>
      if s.links.head < 0 then (s, Idle)
      else
        var i := s.links.head;
        var gen := s.gens[i] + 1;
        (s.(links := s.links.Popped(), free := Rest(s.free), gens := s.gens[i := gen], live := s.live + 1,
            issued := s.issued + {Handle(i, gen)}), Idle)
    case BorrowWait(h) => (s, BorrowTest(h))
    case BorrowTest(h) => (s, if !s.mapped || s.wiped || s.gens[h.idx] != h.gen then Idle else Borrowing(h))
    case Borrowing(h) =>
      if c.Store? then (s.(data := s.data[h.idx := c.bytes]), Borrowing(h)) else (s, Idle)
    case RelWait(h) => (s, RelTest(h))
    case RelTest(h) => (s, if s.mapped && s.readOnly && !s.wiped then Idle else RelClaim(h, s.mapped))
    case RelClaim(h, live) =>
      if s.gens[h.idx] != h.gen then (s, Idle)
      else (s.(gens := s.gens[h.idx := h.gen + 1], claims := s.claims + multiset{h}), RelWipe(h, live))
    case RelWipe(h, live) =>
      (if live then s.(data := s.data[h.idx := Zeros(|s.data[h.idx]|)]) else s, RelAppend(h))
    case RelAppend(h) => (s.(links := s.links.Appended(h.idx), free := s.free + [h.idx], live := s.live - 1), Idle)
    case DestroyWait => (s, DestroyIn)
    case DestroyIn =>
      if !s.mapped then (s, Idle)
      else (s.(data := if c.Go? then Cleared(s.data) else s.data, mapped := false), Idle)
    case ProtectWait(ro) => (s, ProtectIn(ro))
    case ProtectIn(ro) =>
      (if s.mapped && !s.wiped && c.Go? then s.(readOnly := ro) else s, Idle)
    case WipeWait => (s, WipeIn)
    case WipeIn =>
      (if s.mapped && c.Go? then s.(data := Cleared(s.data), wiped := true) else s, Idle)
  }

  /** One atomic step of thread `t`. */
  function Next(s: State, t: nat, c: Choice): State
    requires Enabled(s, t, c)
  {
    var (s', q) := Act(s, t, c);
    s'.(pcs := s.pcs[t := q])
  }

  /** The state after a schedule; an entry that cannot be taken does nothing. */
  function Run(s: State, schedule: seq<(nat, Choice)>): State
    decreases |schedule|
  {
    if schedule == [] then s
    else
      var (t, c) := schedule[0];
      Run(if Enabled(s, t, c) then Next(s, t, c) else s, schedule[1..])
  }

  // ---------------------------------------------------------------------------
  // The invariant
  // ---------------------------------------------------------------------------

  predicate InFlight(p: Pc) { p.RelWipe? || p.RelAppend? }

  /** Weight of a Release of slot `i` between its claim and its append. */
  function FlightOf(i: nat): Pc -> nat {
    p => if InFlight(p) && p.h.idx == i then 1 else 0
  }

  predicate Distinct(q: seq<nat>) {
    forall i, j :: 0 <= i < j < |q| ==> q[i] != q[j]
  }

  ghost predicate LockInv(s: State) {
    forall t, u :: 0 <= t < |s.pcs| && 0 <= u < |s.pcs| && t != u && Exclusive(s.pcs[t])
      ==> !Exclusive(s.pcs[u]) && !Shared(s.pcs[u])
  }

  /** A slot has an even generation exactly when it is on the free list or one Release of
      it is in flight, and never both. */
  ghost predicate FreeInv(s: State) {
    && Linked(s.links.next, s.links.head, s.links.tail, s.free)
    && s.live == |s.gens| - |s.free|
    && forall i :: 0 <= i < |s.gens| ==> SlotInv(s, i)
  }

  ghost predicate SlotInv(s: State, i: nat)
    requires i < |s.gens|
  {
    (if s.gens[i] % 2 == 0 then 1 else 0) == (if i in s.free then 1 else 0) + Total(s.pcs, FlightOf(i))
  }

  /** A handle has been claimed once if its slot has moved past its generation, and not
      at all before. */
  ghost predicate HandleInv(s: State) {
    && (forall h :: h in s.issued ==>
          h.idx < |s.gens| && h.gen % 2 == 1 && h.gen <= s.gens[h.idx] && s.claims[h] == (if h.gen < s.gens[h.idx] then 1 else 0))
    && (forall h :: h in s.claims ==> h in s.issued)
  }

  ghost predicate RegionInv(s: State) {
    forall t :: 0 <= t < |s.pcs| ==>
      match s.pcs[t]
      case RelClaim(_, live) => live == s.mapped && (live && s.readOnly ==> s.wiped)
      case RelWipe(_, live) => live == s.mapped && (live && s.readOnly ==> s.wiped)
      case Borrowing(_) => s.mapped && !s.wiped
      case _ => true
  }

  ghost predicate Inv(s: State) {
    Shape(s) && LockInv(s) && FreeInv(s) && HandleInv(s) && RegionInv(s)
  }

  predicate Zeroed(bytes: seq<int>) { forall k :: 0 <= k < |bytes| ==> bytes[k] == 0 }

  /** While the slab is mapped: a slot that can be popped, or is about to be, holds zeros;
      after the emergency wipe every slot does. */
  ghost predicate ZeroInv(s: State) {
    Shape(s) && (s.mapped ==>
      && (forall k :: 0 <= k < |s.free| ==> Zeroed(s.data[s.free[k]]))
      && (forall t :: 0 <= t < |s.pcs| && s.pcs[t].RelAppend? ==> Zeroed(s.data[s.pcs[t].h.idx]))
      && (s.wiped ==> forall i :: 0 <= i < |s.data| ==> Zeroed(s.data[i])))
  }

  /** The single-owner rule: no callback runs on a handle that a Release has claimed. */
  ghost predicate SingleOwner(s: State) {
    Shape(s) && forall t :: 0 <= t < |s.pcs| && s.pcs[t].Borrowing? ==>
      s.gens[s.pcs[t].h.idx] == s.pcs[t].h.gen
  }

  // ---------------------------------------------------------------------------
  // Preservation
  // ---------------------------------------------------------------------------

  lemma InitInv(count: nat, slotSize: nat, threads: nat)
    ensures Inv(Init(count, slotSize, threads)) && ZeroInv(Init(count, slotSize, threads))
  {
    hide Seeded, Linked;
    var s := Init(count, slotSize, threads);
    SeededLinked(count);
    forall i | 0 <= i < |s.gens|
      ensures SlotInv(s, i)
    {
      assert s.free[i] == i;
      TotalNone(s.pcs, FlightOf(i));
    }
  }

  /** The steps that touch the generations, the free list or the histories. */
  predicate Bookkeeping(p: Pc) { p.AcqPop? || p.RelClaim? || p.RelAppend? }

  /** A step of thread `t` that leaves all of that alone. */
  ghost predicate QuietStep(s: State, t: nat, s': State) {
    && t < |s.pcs| == |s'.pcs|
    && s'.pcs == s.pcs[t := s'.pcs[t]]
    && s'.gens == s.gens && s'.links == s.links && s'.free == s.free && s'.live == s.live
    && s'.issued == s.issued && s'.claims == s.claims && |s'.data| == |s.data|
    && (InFlight(s.pcs[t]) <==> InFlight(s'.pcs[t]))
    && (InFlight(s'.pcs[t]) ==> s'.pcs[t].h == s.pcs[t].h)
    && (HasHandle(s'.pcs[t]) ==> s'.pcs[t].h in s.issued)
  }

  lemma Quiet(s: State, t: nat, c: Choice)
    requires Enabled(s, t, c) && !Bookkeeping(s.pcs[t])
    ensures QuietStep(s, t, Next(s, t, c))
  {
    hide Next, QuietStep;
    if s.pcs[t].Idle? {
      QuietStart(s, t, c);
    } else if HasHandle(s.pcs[t]) {
      QuietUse(s, t, c);
    } else {
      QuietAlone(s, t, c);
    }
  }

  lemma QuietStart(s: State, t: nat, c: Choice)
    requires Enabled(s, t, c) && s.pcs[t].Idle?
    ensures QuietStep(s, t, Next(s, t, c))
  {
  }

  lemma QuietUse(s: State, t: nat, c: Choice)
    requires Enabled(s, t, c) && !Bookkeeping(s.pcs[t]) && HasHandle(s.pcs[t])
    ensures QuietStep(s, t, Next(s, t, c))
  {
  }

  lemma QuietAlone(s: State, t: nat, c: Choice)
    requires Enabled(s, t, c) && !Bookkeeping(s.pcs[t]) && !HasHandle(s.pcs[t]) && !s.pcs[t].Idle?
    ensures QuietStep(s, t, Next(s, t, c))
  {
  }

  // The three bookkeeping steps, written out.

  function PopState(s: State, t: nat): State
    requires Shape(s) && t < |s.pcs|
  {
    if s.links.head < 0 then s.(pcs := s.pcs[t := Idle])
    else
      var i := s.links.head;
      var gen := s.gens[i] + 1;
      s.(links := s.links.Popped(), free := Rest(s.free), gens := s.gens[i := gen], live := s.live + 1,
         issued := s.issued + {Handle(i, gen)}, pcs := s.pcs[t := Idle])
  }

  function ClaimState(s: State, t: nat): State
    requires Shape(s) && t < |s.pcs| && s.pcs[t].RelClaim?
  {
    var h := s.pcs[t].h;
    if s.gens[h.idx] != h.gen then s.(pcs := s.pcs[t := Idle])
    else s.(gens := s.gens[h.idx := h.gen + 1], claims := s.claims + multiset{h}, pcs := s.pcs[t := RelWipe(h, s.pcs[t].live)])
  }

  function AppendState(s: State, t: nat): State
    requires Shape(s) && t < |s.pcs| && s.pcs[t].RelAppend?
  {
    s.(links := s.links.Appended(s.pcs[t].h.idx), free := s.free + [s.pcs[t].h.idx], live := s.live - 1, pcs := s.pcs[t := Idle])
  }

  lemma BookkeptPop(s: State, t: nat, c: Choice)
    requires Enabled(s, t, c) && s.pcs[t].AcqPop?
    ensures Next(s, t, c) == PopState(s, t)
  {
  }

  lemma BookkeptClaim(s: State, t: nat, c: Choice)
    requires Enabled(s, t, c) && s.pcs[t].RelClaim?
    ensures Next(s, t, c) == ClaimState(s, t)
  {
  }

  lemma BookkeptAppend(s: State, t: nat, c: Choice)
    requires Enabled(s, t, c) && s.pcs[t].RelAppend?
    ensures Next(s, t, c) == AppendState(s, t)
  {
  }

  lemma Bookkept(s: State, t: nat, c: Choice)
    requires Enabled(s, t, c) && Bookkeeping(s.pcs[t])
    ensures Shape(s) && t < |s.pcs|
    ensures Next(s, t, c) ==
      if s.pcs[t].AcqPop? then PopState(s, t) else if s.pcs[t].RelClaim? then ClaimState(s, t) else AppendState(s, t)
  {
    hide Next, PopState, ClaimState, AppendState;
    if s.pcs[t].AcqPop? {
      BookkeptPop(s, t, c);
    } else if s.pcs[t].RelClaim? {
      BookkeptClaim(s, t, c);
    } else {
      BookkeptAppend(s, t, c);
    }
  }

  lemma QuietShape(s: State, t: nat, s': State)
    requires Shape(s) && QuietStep(s, t, s')
    ensures Shape(s')
  {
  }

  lemma PopShape(s: State, t: nat)
    requires Shape(s) && t < |s.pcs| && s.pcs[t].AcqPop?
    ensures Shape(PopState(s, t))
  {
    hide Links.Popped;
  }

  lemma ClaimShape(s: State, t: nat)
    requires Shape(s) && t < |s.pcs| && s.pcs[t].RelClaim?
    ensures Shape(ClaimState(s, t))
  {
  }

  lemma AppendShape(s: State, t: nat)
    requires Shape(s) && t < |s.pcs| && s.pcs[t].RelAppend?
    ensures Shape(AppendState(s, t))
  {
  }

  lemma StepShape(s: State, t: nat, c: Choice)
    requires Enabled(s, t, c)
    ensures Shape(Next(s, t, c))
  {
    hide Act, Next, QuietStep, PopState, ClaimState, AppendState;
    if !Bookkeeping(s.pcs[t]) {
      Quiet(s, t, c);
      QuietShape(s, t, Next(s, t, c));
    } else {
      Bookkept(s, t, c);
      if s.pcs[t].AcqPop? {
        PopShape(s, t);
      } else if s.pcs[t].RelClaim? {
        ClaimShape(s, t);
      } else {
        AppendShape(s, t);
      }
    }
  }

  lemma StepLock(s: State, t: nat, c: Choice)
    requires LockInv(s) && Enabled(s, t, c)
    ensures LockInv(Next(s, t, c))
  {
    hide Shape, Cleared, Zeros, HasHandle;
  }

  lemma StepRegion(s: State, t: nat, c: Choice)
    requires Inv(s) && Enabled(s, t, c)
    ensures RegionInv(Next(s, t, c))
  {
    hide Shape, Cleared, Zeros, HasHandle, FreeInv, HandleInv;
  }

  lemma QuietHandle(s: State, t: nat, s': State)
    requires HandleInv(s) && QuietStep(s, t, s')
    ensures HandleInv(s')
  {
  }

  lemma StepHandle(s: State, t: nat, c: Choice)
    requires Inv(s) && Enabled(s, t, c)
    ensures HandleInv(Next(s, t, c))
  {
    hide Act, Next, QuietStep, PopState, ClaimState, AppendState, LockInv, RegionInv;
    if !Bookkeeping(s.pcs[t]) {
      Quiet(s, t, c);
      QuietHandle(s, t, Next(s, t, c));
    } else {
      Bookkept(s, t, c);
      if s.pcs[t].AcqPop? {
        PopHandle(s, t);
      } else if s.pcs[t].RelClaim? {
        ClaimHandle(s, t);
      } else {
        AppendHandle(s, t);
      }
    }
  }

  lemma AppendHandle(s: State, t: nat)
    requires Shape(s) && HandleInv(s) && t < |s.pcs| && s.pcs[t].RelAppend?
    ensures HandleInv(AppendState(s, t))
  {
  }

  /** A claim that succeeds is the first one of its handle. */
  lemma ClaimHandle(s: State, t: nat)
    requires Shape(s) && HandleInv(s) && t < |s.pcs| && s.pcs[t].RelClaim?
    ensures HandleInv(ClaimState(s, t))
  {
    var x, s' := s.pcs[t].h, ClaimState(s, t);
    forall h | h in s'.issued
      ensures h.idx < |s'.gens| && h.gen % 2 == 1 && h.gen <= s'.gens[h.idx]
      ensures s'.claims[h] == if h.gen < s'.gens[h.idx] then 1 else 0
    {
      if h != x {
        assert s'.claims[h] == s.claims[h];
      }
    }
  }

  /** The popped slot's new handle is new: every older one of that slot is behind it. */
  lemma PopHandle(s: State, t: nat)
    requires Shape(s) && FreeInv(s) && HandleInv(s) && t < |s.pcs| && s.pcs[t].AcqPop?
    ensures s.links.head >= 0 ==> Handle(s.links.head, s.gens[s.links.head] + 1) !in s.issued
    ensures HandleInv(PopState(s, t))
  {
    hide FreeInv;
    if s.links.head >= 0 {
      HeadIsFree(s);
      FreeIsEven(s, s.links.head);
      IssueNext(s, t);
    }
  }

  lemma IssueNext(s: State, t: nat)
    requires Shape(s) && HandleInv(s) && t < |s.pcs| && s.links.head >= 0 && s.gens[s.links.head] % 2 == 0
    ensures HandleInv(PopState(s, t))
  {
    var i := s.links.head;
    var s' := PopState(s, t);
    var issue := Handle(i, s.gens[i] + 1);
    assert issue !in s.issued;
    assert issue !in s.claims;
    forall h | h in s'.issued
      ensures h.idx < |s'.gens| && h.gen % 2 == 1 && h.gen <= s'.gens[h.idx]
      ensures s'.claims[h] == if h.gen < s'.gens[h.idx] then 1 else 0
    {
      assert h in s.issued || h == issue;
    }
  }

  /** The head of the chain is the first free slot, and there is none when it is -1. */
  lemma HeadIsFree(s: State)
    requires Shape(s) && FreeInv(s)
    ensures if s.links.head < 0 then s.free == [] else s.free != [] && s.links.head == s.free[0] && s.links.head in s.free
  {
  }

  lemma FreeIsEven(s: State, i: nat)
    requires FreeInv(s) && i < |s.gens| && i in s.free
    ensures s.gens[i] % 2 == 0 && Total(s.pcs, FlightOf(i)) == 0
  {
    assert SlotInv(s, i);
  }

  lemma QuietFree(s: State, t: nat, s': State)
    requires FreeInv(s) && QuietStep(s, t, s')
    ensures FreeInv(s')
  {
    forall i | 0 <= i < |s.gens|
      ensures SlotInv(s', i)
    {
      assert SlotInv(s, i);
      TotalMove(s.pcs, t, s'.pcs[t], FlightOf(i));
    }
  }

  lemma StepFree(s: State, t: nat, c: Choice)
    requires Inv(s) && Enabled(s, t, c)
    ensures FreeInv(Next(s, t, c))
  {
    hide Act, Next, QuietStep, PopState, ClaimState, AppendState, LockInv, RegionInv, FreeInv, HandleInv;
    if !Bookkeeping(s.pcs[t]) {
      Quiet(s, t, c);
      QuietFree(s, t, Next(s, t, c));
    } else {
      Bookkept(s, t, c);
      if s.pcs[t].AcqPop? {
        PopFree(s, t);
      } else if s.pcs[t].RelClaim? {
        ClaimFree(s, t);
      } else {
        AppendFree(s, t);
      }
    }
  }

  lemma PopFree(s: State, t: nat)
    requires Shape(s) && FreeInv(s) && t < |s.pcs| && s.pcs[t].AcqPop?
    ensures FreeInv(PopState(s, t))
  {
    hide SlotInv;
    if s.links.head >= 0 {
      PopLinked(s.links, s.free);
    }
    forall i | 0 <= i < |s.gens|
      ensures SlotInv(PopState(s, t), i)
    {
      PopSlot(s, t, i);
    }
  }

  lemma PopSlot(s: State, t: nat, i: nat)
    requires Shape(s) && FreeInv(s) && t < |s.pcs| && s.pcs[t].AcqPop? && i < |s.gens|
    ensures SlotInv(PopState(s, t), i)
  {
    hide Total, FreeInv, Links.Popped;
    FreeSlot(s, i);
    TotalMove(s.pcs, t, Idle, FlightOf(i));
    HeadIsFree(s);
    if s.free != [] {
      HeadOnce(s, i);
    }
  }

  lemma HeadOnce(s: State, i: nat)
    requires FreeInv(s) && s.free != []
    ensures i in s.free[1..] <==> i in s.free && i != s.free[0]
  {
    hide SlotInv;
    assert s.free == [s.free[0]] + s.free[1..];
    assert s.free[0] !in s.free[1..];
  }

  lemma ClaimFree(s: State, t: nat)
    requires Shape(s) && FreeInv(s) && HandleInv(s) && t < |s.pcs| && s.pcs[t].RelClaim?
    ensures FreeInv(ClaimState(s, t))
  {
    hide SlotInv, HandleInv;
    forall i | 0 <= i < |s.gens|
      ensures SlotInv(ClaimState(s, t), i)
    {
      ClaimSlot(s, t, i);
    }
  }

  lemma ClaimSlot(s: State, t: nat, i: nat)
    requires Shape(s) && FreeInv(s) && HandleInv(s) && t < |s.pcs| && s.pcs[t].RelClaim? && i < |s.gens|
    ensures SlotInv(ClaimState(s, t), i)
  {
    hide Total, HandleInv, FreeInv, SlotInv, ClaimState;
    FreeSlot(s, i);
    HandleIsOdd(s, s.pcs[t].h);
    if s.gens[s.pcs[t].h.idx] != s.pcs[t].h.gen {
      ClaimMiss(s, t, i);
    } else {
      ClaimHit(s, t, i);
    }
  }

  lemma ClaimMiss(s: State, t: nat, i: nat)
    requires Shape(s) && i < |s.gens| && SlotInv(s, i) && t < |s.pcs| && s.pcs[t].RelClaim?
    requires s.gens[s.pcs[t].h.idx] != s.pcs[t].h.gen
    ensures SlotInv(ClaimState(s, t), i)
  {
    hide Total;
    TotalMove(s.pcs, t, Idle, FlightOf(i));
  }

  lemma ClaimHit(s: State, t: nat, i: nat)
    requires Shape(s) && i < |s.gens| && SlotInv(s, i) && t < |s.pcs| && s.pcs[t].RelClaim?
    requires s.gens[s.pcs[t].h.idx] == s.pcs[t].h.gen && s.pcs[t].h.gen % 2 == 1
    ensures SlotInv(ClaimState(s, t), i)
  {
    hide Total;
    var q := RelWipe(s.pcs[t].h, s.pcs[t].live);
    TotalMove(s.pcs, t, q, FlightOf(i));
    assert FlightOf(i)(q) == if s.pcs[t].h.idx == i then 1 else 0;
  }

  lemma FreeSlot(s: State, i: nat)
    requires FreeInv(s) && i < |s.gens|
    ensures SlotInv(s, i)
  {
  }

  lemma HandleIsOdd(s: State, h: Handle)
    requires HandleInv(s) && h in s.issued
    ensures h.gen % 2 == 1
  {
  }

  lemma AppendFree(s: State, t: nat)
    requires Shape(s) && FreeInv(s) && t < |s.pcs| && s.pcs[t].RelAppend?
    ensures FreeInv(AppendState(s, t))
  {
    hide SlotInv, Total;
    AppendDistinct(s, t);
    AppendLinked(s.links, s.free, s.pcs[t].h.idx);
    forall i | 0 <= i < |s.gens|
      ensures SlotInv(AppendState(s, t), i)
    {
      AppendSlot(s, t, i);
    }
  }

  lemma AppendSlot(s: State, t: nat, i: nat)
    requires Shape(s) && FreeInv(s) && t < |s.pcs| && s.pcs[t].RelAppend? && i < |s.gens|
    ensures SlotInv(AppendState(s, t), i)
  {
    hide Total, Distinct;
    assert SlotInv(s, i);
    TotalMove(s.pcs, t, Idle, FlightOf(i));
    TotalCovers(s.pcs, t, FlightOf(i));
  }

  /** The slot a Release appends is not on the list already. */
  lemma AppendDistinct(s: State, t: nat)
    requires Shape(s) && FreeInv(s) && t < |s.pcs| && s.pcs[t].RelAppend?
    ensures s.pcs[t].h.idx !in s.free
  {
    hide Total;
    var i := s.pcs[t].h.idx;
    assert i < |s.gens|;
    assert SlotInv(s, i);
    TotalCovers(s.pcs, t, FlightOf(i));
  }

  lemma StepInv(s: State, t: nat, c: Choice)
    requires Inv(s) && Enabled(s, t, c)
    ensures Inv(Next(s, t, c))
  {
    hide Act, Next, Enabled, Shape, LockInv, FreeInv, HandleInv, RegionInv;
    StepShape(s, t, c);
    StepLock(s, t, c);
    StepRegion(s, t, c);
    StepHandle(s, t, c);
    StepFree(s, t, c);
  }

  /** A slot a callback may write is live, so it is neither free nor being released. */
  lemma BorrowedSlotIsLive(s: State, t: nat, i: nat)
    requires Inv(s) && SingleOwner(s) && t < |s.pcs| && s.pcs[t].Borrowing?
    requires i in s.free || exists u :: 0 <= u < |s.pcs| && s.pcs[u].RelAppend? && s.pcs[u].h.idx == i
    ensures s.pcs[t].h.idx != i
  {
    if s.pcs[t].h.idx == i {
      assert s.pcs[t].h in s.issued;
      assert SlotInv(s, i);
      if i !in s.free {
        var u :| 0 <= u < |s.pcs| && s.pcs[u].RelAppend? && s.pcs[u].h.idx == i;
        TotalCovers(s.pcs, u, FlightOf(i));
      }
      assert false;
    }
  }

  lemma StoreZero(s: State, t: nat, c: Choice)
    requires Inv(s) && ZeroInv(s) && SingleOwner(s) && Enabled(s, t, c)
    requires s.pcs[t].Borrowing? && c.Store?
    ensures ZeroInv(Next(s, t, c))
  {
    StepShape(s, t, c);
    var s' := Next(s, t, c);
    forall k | 0 <= k < |s.free|
      ensures Zeroed(s'.data[s.free[k]])
    {
      BorrowedSlotIsLive(s, t, s.free[k]);
    }
    forall u | 0 <= u < |s'.pcs| && s'.pcs[u].RelAppend?
      ensures Zeroed(s'.data[s'.pcs[u].h.idx])
    {
      assert s.pcs[u].RelAppend?;
      BorrowedSlotIsLive(s, t, s.pcs[u].h.idx);
    }
  }

  lemma ReleaseZero(s: State, t: nat, c: Choice)
    requires ZeroInv(s) && RegionInv(s) && Enabled(s, t, c) && Shape(Next(s, t, c))
    requires s.pcs[t].RelWipe? || s.pcs[t].RelAppend? || s.pcs[t].AcqPop?
    ensures ZeroInv(Next(s, t, c))
  {
    hide Next, Act, ZeroInv, RegionInv, PopState, AppendState;
    if s.pcs[t].RelWipe? {
      WipeZero(s, t, c);
    } else if s.pcs[t].RelAppend? {
      BookkeptAppend(s, t, c);
      AppendZero(s, t);
    } else {
      BookkeptPop(s, t, c);
      PopZero(s, t);
    }
  }

  lemma WipeZero(s: State, t: nat, c: Choice)
    requires ZeroInv(s) && RegionInv(s) && Enabled(s, t, c) && Shape(Next(s, t, c)) && s.pcs[t].RelWipe?
    ensures ZeroInv(Next(s, t, c))
  {
  }

  lemma AppendZero(s: State, t: nat)
    requires ZeroInv(s) && t < |s.pcs| && s.pcs[t].RelAppend? && Shape(AppendState(s, t))
    ensures ZeroInv(AppendState(s, t))
  {
  }

  lemma PopZero(s: State, t: nat)
    requires ZeroInv(s) && t < |s.pcs| && s.pcs[t].AcqPop? && Shape(PopState(s, t))
    ensures ZeroInv(PopState(s, t))
  {
  }

  /** A step that writes no window, appends no slot and finishes no wipe. */
  ghost predicate CalmStep(s: State, t: nat, s': State) {
    && t < |s.pcs| == |s'.pcs| && s'.pcs == s.pcs[t := s'.pcs[t]] && !s'.pcs[t].RelAppend?
    && s'.data == s.data && s'.free == s.free && s'.mapped == s.mapped && s'.wiped == s.wiped
  }

  lemma Calm(s: State, t: nat, c: Choice)
    requires Enabled(s, t, c)
    requires !(s.pcs[t].Borrowing? && c.Store?)
    requires !(s.pcs[t].RelWipe? || s.pcs[t].RelAppend? || s.pcs[t].AcqPop?)
    requires !(s.pcs[t].WipeIn? || s.pcs[t].DestroyIn?)
    ensures CalmStep(s, t, Next(s, t, c))
  {
  }

  lemma CalmZero(s: State, t: nat, s': State)
    requires ZeroInv(s) && CalmStep(s, t, s') && Shape(s')
    ensures ZeroInv(s')
  {
  }

  lemma ClearZero(s: State, t: nat, c: Choice)
    requires ZeroInv(s) && Enabled(s, t, c) && Shape(Next(s, t, c)) && (s.pcs[t].WipeIn? || s.pcs[t].DestroyIn?)
    ensures ZeroInv(Next(s, t, c))
  {
  }

  lemma StepZero(s: State, t: nat, c: Choice)
    requires Inv(s) && ZeroInv(s) && SingleOwner(s) && Enabled(s, t, c)
    ensures ZeroInv(Next(s, t, c))
  {
    hide Next, Act, LockInv, FreeInv, HandleInv, RegionInv, ZeroInv, SingleOwner;
    StepShape(s, t, c);
    if s.pcs[t].Borrowing? && c.Store? {
      StoreZero(s, t, c);
    } else if s.pcs[t].RelWipe? || s.pcs[t].RelAppend? || s.pcs[t].AcqPop? {
      ReleaseZero(s, t, c);
    } else if s.pcs[t].WipeIn? || s.pcs[t].DestroyIn? {
      ClearZero(s, t, c);
    } else {
      Calm(s, t, c);
      CalmZero(s, t, Next(s, t, c));
    }
  }

  lemma {:induction false} RunInv(s: State, schedule: seq<(nat, Choice)>)
    requires Inv(s)
    ensures Inv(Run(s, schedule))
    decreases |schedule|
  {
    if schedule == [] {
    } else {
      var (t, c) := schedule[0];
      if Enabled(s, t, c) {
        StepInv(s, t, c);
        RunInv(Next(s, t, c), schedule[1..]);
      } else {
        RunInv(s, schedule[1..]);
      }
    }
  }

  // ---------------------------------------------------------------------------
  // What every interleaving guarantees
  // ---------------------------------------------------------------------------

  ghost predicate Reachable(s: State) {
    exists count, slotSize, threads, schedule :: s == Run(Init(count, slotSize, threads), schedule)
  }

  lemma ReachableInv(s: State)
    requires Reachable(s)
    ensures Inv(s)
  {
    var count, slotSize, threads, schedule :| s == Run(Init(count, slotSize, threads), schedule);
    InitInv(count, slotSize, threads);
    RunInv(Init(count, slotSize, threads), schedule);
  }

  /** The free list holds, once each, exactly the even-generation slots that no Release
      has claimed and not yet appended; at most one Release is in that window per slot,
      and the live counter is what the list leaves over. */
  lemma FreeListExact(s: State, i: nat)
    requires Reachable(s) && i < |s.gens|
    ensures Distinct(s.free) && s.live == |s.gens| - |s.free|
    ensures i in s.free <==> s.gens[i] % 2 == 0 && forall t :: 0 <= t < |s.pcs| ==> !(InFlight(s.pcs[t]) && s.pcs[t].h.idx == i)
    ensures forall t, u :: 0 <= t < u < |s.pcs| && InFlight(s.pcs[t]) && InFlight(s.pcs[u]) && s.pcs[t].h.idx == i
              ==> s.pcs[u].h.idx != i
  {
    ReachableInv(s);
    assert SlotInv(s, i);
    if Total(s.pcs, FlightOf(i)) > 0 {
      var w := TotalWitness(s.pcs, FlightOf(i));
      assert InFlight(s.pcs[w]) && s.pcs[w].h.idx == i;
    }
    forall t | 0 <= t < |s.pcs| && InFlight(s.pcs[t]) && s.pcs[t].h.idx == i
      ensures i !in s.free
    {
      TotalCovers(s.pcs, t, FlightOf(i));
    }
    forall t, u | 0 <= t < u < |s.pcs| && InFlight(s.pcs[t]) && InFlight(s.pcs[u]) && s.pcs[t].h.idx == i
      ensures s.pcs[u].h.idx != i
    {
      TotalCoversTwo(s.pcs, t, u, FlightOf(i));
    }
  }

  /** However many threads release one handle, one claim succeeds, and only after the
      handle has been issued. */
  lemma ClaimedAtMostOnce(s: State, h: Handle)
    requires Reachable(s)
    ensures s.claims[h] <= 1 && (h in s.claims ==> h in s.issued && h.idx < |s.gens| && h.gen < s.gens[h.idx])
  {
    ReachableInv(s);
  }

  /** A callback starts only on a handle that no Release has claimed, on a mapped and
      unwiped slab, and the slab stays so while it runs. */
  lemma BorrowOnlyUnclaimed(s: State, t: nat, c: Choice)
    requires Reachable(s) && Enabled(s, t, c)
    ensures Next(s, t, c).pcs[t].Borrowing? && !s.pcs[t].Borrowing? ==> s.claims[Next(s, t, c).pcs[t].h] == 0
    ensures forall u :: 0 <= u < |s.pcs| && s.pcs[u].Borrowing? ==> s.mapped && !s.wiped
  {
    ReachableInv(s);
  }

  /** The slot a step hands out, if any. */
  ghost function PoppedBy(s: State, t: nat, c: Choice): seq<nat>
    requires Enabled(s, t, c)
  {
    if s.pcs[t].AcqPop? && s.links.head >= 0 then [s.links.head] else []
  }

  /** The slot a step puts back, if any. */
  ghost function AppendedBy(s: State, t: nat, c: Choice): seq<nat>
    requires Enabled(s, t, c)
  {
    if s.pcs[t].RelAppend? then [s.pcs[t].h.idx] else []
  }

  /** The slots handed out over a run, in order. */
  ghost function Popped(s: State, schedule: seq<(nat, Choice)>): seq<nat>
    decreases |schedule|
  {
    if schedule == [] then []
    else
      var (t, c) := schedule[0];
      if Enabled(s, t, c) then PoppedBy(s, t, c) + Popped(Next(s, t, c), schedule[1..])
      else Popped(s, schedule[1..])
  }

  /** The slots put back over a run, in order. */
  ghost function Appended(s: State, schedule: seq<(nat, Choice)>): seq<nat>
    decreases |schedule|
  {
    if schedule == [] then []
    else
      var (t, c) := schedule[0];
      if Enabled(s, t, c) then AppendedBy(s, t, c) + Appended(Next(s, t, c), schedule[1..])
      else Appended(s, schedule[1..])
  }

  lemma QueueStep(s: State, t: nat, c: Choice)
    requires Inv(s) && Enabled(s, t, c)
    ensures s.free + AppendedBy(s, t, c) == PoppedBy(s, t, c) + Next(s, t, c).free
  {
    hide Act, Next, Enabled, PopState, AppendState, ClaimState, FreeInv, Shape, HandleInv, LockInv, RegionInv;
    InRange(s, t, c);
    HeadIsFree(s);
    if !Bookkeeping(s.pcs[t]) {
      Quiet(s, t, c);
    } else {
      Bookkept(s, t, c);
      BookkeptFree(s, t);
    }
    assert s.free + [] == [] + s.free;
    if s.free != [] {
      assert s.free + [] == [s.free[0]] + s.free[1..];
    }
  }

  lemma BookkeptFree(s: State, t: nat)
    requires Shape(s) && t < |s.pcs| && Bookkeeping(s.pcs[t])
    ensures s.pcs[t].AcqPop? ==> PopState(s, t).free == if s.links.head < 0 then s.free else Rest(s.free)
    ensures s.pcs[t].RelClaim? ==> ClaimState(s, t).free == s.free
    ensures s.pcs[t].RelAppend? ==> AppendState(s, t).free == s.free + [s.pcs[t].h.idx]
  {
  }

  lemma InRange(s: State, t: nat, c: Choice)
    requires Enabled(s, t, c)
    ensures Shape(s) && t < |s.pcs|
  {
  }

  lemma Regroup(front: seq<nat>, a: seq<nat>, a': seq<nat>, p: seq<nat>, p': seq<nat>, mid: seq<nat>, back: seq<nat>)
    requires front + a == p + mid && mid + a' == p' + back
    ensures front + (a + a') == (p + p') + back
  {
    assert front + (a + a') == (front + a) + a';
    assert (p + mid) + a' == p + (mid + a');
    assert p + (p' + back) == (p + p') + back;
  }

  lemma {:induction false} FifoFrom(s: State, schedule: seq<(nat, Choice)>)
    requires Inv(s)
    ensures s.free + Appended(s, schedule) == Popped(s, schedule) + Run(s, schedule).free
    decreases |schedule|
  {
    hide Inv;
    if schedule == [] {
      assert s.free + [] == [] + s.free;
    } else {
      var (t, c) := schedule[0];
      var rest := schedule[1..];
      if Enabled(s, t, c) {
        var s' := Next(s, t, c);
        QueueStep(s, t, c);
        StepInv(s, t, c);
        FifoFrom(s', rest);
        Regroup(s.free, AppendedBy(s, t, c), Appended(s', rest), PoppedBy(s, t, c), Popped(s', rest),
                s'.free, Run(s', rest).free);
      } else {
        FifoFrom(s, rest);
      }
    }
  }

  /** Reuse is first-in, first-out over every run: all slots in order, followed by what
      was released, is what was handed out, followed by what is free at the end. */
  lemma FifoReuse(count: nat, slotSize: nat, threads: nat, schedule: seq<(nat, Choice)>)
    ensures var s := Init(count, slotSize, threads);
      seq(count, i => i) + Appended(s, schedule) == Popped(s, schedule) + Run(s, schedule).free
  {
    InitInv(count, slotSize, threads);
    FifoFrom(Init(count, slotSize, threads), schedule);
  }

  /** In every reachable state the links from freeHead visit the free slots, oldest first
      and each once, and then stop: no cycle, and freeTail is the last slot reached. */
  lemma ChainVisitsFree(s: State, steps: nat)
    requires Reachable(s)
    ensures Follow(s.links.next, s.links.head, steps) == (if steps < |s.free| then s.free[steps] else -1)
    ensures if s.free == [] then s.links.head == -1 && s.links.tail == -1
            else Follow(s.links.next, s.links.head, |s.free| - 1) == s.links.tail
  {
    ReachableInv(s);
    WalkVisitsFree(s.links.next, s.links.head, s.links.tail, s.free, steps);
  }

  lemma {:induction false} RunThen(s: State, schedule: seq<(nat, Choice)>, t: nat, c: Choice)
    requires Enabled(Run(s, schedule), t, c)
    ensures Run(s, schedule + [(t, c)]) == Next(Run(s, schedule), t, c)
    decreases |schedule|
  {
    hide Enabled, Next;
    if schedule == [] {
      assert Run(s, [(t, c)]) == Run(Next(s, t, c), [(t, c)][1..]);
    } else {
      var (u, d) := schedule[0];
      RunThen(if Enabled(s, u, d) then Next(s, u, d) else s, schedule[1..], t, c);
      assert (schedule + [(t, c)])[1..] == schedule[1..] + [(t, c)];
    }
  }

  lemma ReachableNext(s: State, t: nat, c: Choice)
    requires Reachable(s) && Enabled(s, t, c)
    ensures Reachable(Next(s, t, c))
  {
    hide Enabled, Next, Run, Init;
    var count, slotSize, threads, schedule :| s == Run(Init(count, slotSize, threads), schedule);
    RunThen(Init(count, slotSize, threads), schedule, t, c);
  }

  /** A step of a thread in a reachable state. */
  lemma Advance(s: State, t: nat, c: Choice) returns (s': State)
    requires Reachable(s) && Enabled(s, t, c)
    ensures s' == Next(s, t, c) && Reachable(s') && Shape(s')
  {
    hide Next, Inv;
    s' := Next(s, t, c);
    ReachableNext(s, t, c);
    ReachableInv(s');
    InvShape(s');
  }

  lemma InvShape(s: State)
    requires Inv(s)
    ensures Shape(s)
  {
  }

  /** Only thread 0 has moved, and slot 0 is off the free list. */
  ghost predicate Alone(s: State, count: nat, p: Pc, gen: nat) {
    && Reachable(s) && Shape(s) && |s.gens| == count > 0 && |s.pcs| > 0
    && s.pcs[0] == p && (forall u :: 1 <= u < |s.pcs| ==> s.pcs[u] == Idle)
    && s.mapped && !s.readOnly && !s.wiped && !s.destroyed
    && s.gens[0] == gen && 0 !in s.free && Handle(0, 1) in s.issued
  }

  lemma FirstAcquired(count: nat, slotSize: nat, threads: nat) returns (s: State)
    requires count > 0 && threads > 0
    ensures Alone(s, count, Idle, 1)
  {
    s := Init(count, slotSize, threads);
    assert s == Run(s, []);
    ReachableInv(s);
    s := Advance(s, 0, Acquire);
    s := Advance(s, 0, Go);
  }

  lemma Alongside(s: State, count: nat, p: Pc, gen: nat, c: Choice) returns (s': State)
    requires Alone(s, count, p, gen) && Enabled(s, 0, c) && (p.Idle? ==> c.Release?)
    requires p.Idle? || p.RelWait? || p.RelTest? || p.RelClaim?
    ensures s' == Next(s, 0, c)
    ensures Alone(s', count, Act(s, 0, c).1, Act(s, 0, c).0.gens[0])
  {
    hide Reachable;
    s' := Advance(s, 0, c);
  }

  /** An even generation alone does not put a slot on the free list: one thread acquires a
      slot and releases it, and between the compare-and-swap and the append the slot is
      even and off the list. */
  lemma EvenButNotFree(count: nat, slotSize: nat, threads: nat) returns (s: State)
    requires count > 0 && threads > 0
    ensures Reachable(s) && |s.gens| == count && s.gens[0] % 2 == 0 && 0 !in s.free
  {
    hide Reachable;
    var h := Handle(0, 1);
    s := FirstAcquired(count, slotSize, threads);
    s := Alongside(s, count, Idle, 1, Release(h));
    s := Alongside(s, count, RelWait(h), 1, Go);
    s := Alongside(s, count, RelTest(h), 1, Go);
    s := Alongside(s, count, RelClaim(h, true), 1, Go);
  }

  /** The single-owner rule holds in every state of the run. */
  ghost predicate OwnedThroughout(s: State, schedule: seq<(nat, Choice)>)
    decreases |schedule|
  {
    && SingleOwner(s)
    && (schedule != [] ==>
          var (t, c) := schedule[0];
          OwnedThroughout(if Enabled(s, t, c) then Next(s, t, c) else s, schedule[1..]))
  }

  lemma {:induction false} RunZero(s: State, schedule: seq<(nat, Choice)>)
    requires Inv(s) && ZeroInv(s) && OwnedThroughout(s, schedule)
    ensures ZeroInv(Run(s, schedule))
    decreases |schedule|
  {
    if schedule == [] {
    } else {
      var (t, c) := schedule[0];
      if Enabled(s, t, c) {
        StepInv(s, t, c);
        StepZero(s, t, c);
        RunZero(Next(s, t, c), schedule[1..]);
      } else {
        RunZero(s, schedule[1..]);
      }
    }
  }

  /** Under the single-owner rule, Acquire hands out zeros and the emergency wipe stays
      wiped: in every run, while the slab is mapped, the slot at the head of the free
      list is all zeros, and so is every slot once the wiped flag is set. */
  lemma AcquiredSlotIsZero(count: nat, slotSize: nat, threads: nat, schedule: seq<(nat, Choice)>)
    requires OwnedThroughout(Init(count, slotSize, threads), schedule)
    ensures var s := Run(Init(count, slotSize, threads), schedule);
      Shape(s) && (s.mapped ==>
        && (s.links.head >= 0 ==> Zeroed(s.data[s.links.head]))
        && (s.wiped ==> forall i :: 0 <= i < |s.data| ==> Zeroed(s.data[i])))
  {
    InitInv(count, slotSize, threads);
    RunZero(Init(count, slotSize, threads), schedule);
    RunInv(Init(count, slotSize, threads), schedule);
    HeadIsFree(Run(Init(count, slotSize, threads), schedule));
  }

  // ---------------------------------------------------------------------------
  // What each call does on its own
  // ---------------------------------------------------------------------------

  /** One thread's choices, in order and with nobody else moving. */
  function By(t: nat, choices: seq<Choice>): seq<(nat, Choice)> {
    seq(|choices|, i requires 0 <= i < |choices| => (t, choices[i]))
  }

  /** Its first choice, if it can be taken; then the rest. */
  lemma Turn(s: State, t: nat, c: Choice, rest: seq<Choice>) returns (s': State)
    ensures s' == (if Enabled(s, t, c) then Next(s, t, c) else s)
    ensures Run(s, By(t, [c] + rest)) == Run(s', By(t, rest)) && Run(s', By(t, [])) == s'
  {
    hide Enabled, Next;
    assert By(t, [c] + rest)[1..] == By(t, rest);
    s' := if Enabled(s, t, c) then Next(s, t, c) else s;
  }

  /** Three choices in a row. */
  lemma Turns(s: State, t: nat, c: Choice, d: Choice, e: Choice)
    ensures var s1 := if Enabled(s, t, c) then Next(s, t, c) else s;
      var s2 := if Enabled(s1, t, d) then Next(s1, t, d) else s1;
      Run(s, By(t, [c, d, e])) == if Enabled(s2, t, e) then Next(s2, t, e) else s2
  {
    hide Run, By, Enabled, Next;
    assert [c] + [d, e] == [c, d, e] && [d] + [e] == [d, e] && [e] + [] == [e];
    var s1 := Turn(s, t, c, [d, e]);
    var s2 := Turn(s1, t, d, [e]);
    var s3 := Turn(s2, t, e, []);
  }

  /** The same arena with thread `t` elsewhere. */
  function At(s: State, t: nat, p: Pc): State
    requires t < |s.pcs|
  {
    s.(pcs := s.pcs[t := p])
  }

  /** An idle thread does not go on by itself. */
  lemma IdleStays(s: State, t: nat, c: Choice)
    requires t < |s.pcs| && s.pcs[t] == Idle && (c == Go || c == Fail)
    ensures !Enabled(s, t, c) && At(s, t, Idle) == s
  {
  }

  /** In a reachable state a handle is current exactly when no Release has claimed it. */
  lemma CurrentIsUnclaimed(s: State, h: Handle)
    requires Reachable(s) && h in s.issued
    ensures Shape(s) && h.idx < |s.gens| && h.gen <= s.gens[h.idx] && (s.gens[h.idx] == h.gen <==> s.claims[h] == 0)
  {
    hide FreeInv, LockInv, RegionInv;
    ReachableInv(s);
  }

  /** Exactly when the callback starts, at the moment of the test: the slab mapped and not wiped, the handle unclaimed. */
  lemma BorrowExactly(s: State, t: nat)
    requires Reachable(s) && t < |s.pcs| && s.pcs[t].BorrowTest?
    ensures Enabled(s, t, Go)
    ensures var h := s.pcs[t].h; var s' := Next(s, t, Go);
      && (s'.pcs[t] == Borrowing(h) <==> s.mapped && !s.wiped && s.claims[h] == 0)
      && (s'.pcs[t] == Borrowing(h) || s'.pcs[t] == Idle)
      && s' == s.(pcs := s'.pcs)
  {
    hide Reachable;
    ReachableInv(s);
    CurrentIsUnclaimed(s, s.pcs[t].h);
  }

  /** A borrow that nothing stands against runs its callback; any other changes nothing. */
  lemma BorrowRuns(s: State, t: nat, h: Handle)
    requires Reachable(s) && t < |s.pcs| && s.pcs[t] == Idle && h in s.issued && NoneExclusive(s)
    ensures Run(s, By(t, [Borrow(h), Go, Go])) ==
      if !s.destroyed && s.mapped && !s.wiped && s.claims[h] == 0 then s.(pcs := s.pcs[t := Borrowing(h)]) else s
  {
    hide Run, Reachable, By, Enabled, Next, Shape, NoneExclusive;
    CurrentIsUnclaimed(s, h);
    BorrowSteps(s, t, h);
    Turns(s, t, Borrow(h), Go, Go);
    IdleStays(s, t, Go);
  }

  lemma BorrowSteps(s: State, t: nat, h: Handle)
    requires Shape(s) && t < |s.pcs| && s.pcs[t] == Idle && h in s.issued && NoneExclusive(s)
    ensures Enabled(s, t, Borrow(h)) && Next(s, t, Borrow(h)) == At(s, t, if s.destroyed then Idle else BorrowWait(h))
    ensures var s1 := At(s, t, BorrowWait(h)); Enabled(s1, t, Go) && Next(s1, t, Go) == At(s, t, BorrowTest(h))
    ensures var s2 := At(s, t, BorrowTest(h));
      && Enabled(s2, t, Go)
      && Next(s2, t, Go) == At(s, t, if !s.mapped || s.wiped || s.gens[h.idx] != h.gen then Idle else Borrowing(h))
  {
    BorrowStarts(s, t, h);
    BorrowEnters(s, t, h);
    BorrowTests(s, t, h);
  }

  lemma BorrowStarts(s: State, t: nat, h: Handle)
    requires Shape(s) && t < |s.pcs| && s.pcs[t] == Idle && h in s.issued
    ensures Enabled(s, t, Borrow(h)) && Next(s, t, Borrow(h)) == At(s, t, if s.destroyed then Idle else BorrowWait(h))
  {
  }

  lemma BorrowEnters(s: State, t: nat, h: Handle)
    requires Shape(s) && t < |s.pcs| && h in s.issued && NoneExclusive(s)
    ensures var s1 := At(s, t, BorrowWait(h)); Enabled(s1, t, Go) && Next(s1, t, Go) == At(s, t, BorrowTest(h))
  {
  }

  lemma BorrowTests(s: State, t: nat, h: Handle)
    requires Shape(s) && t < |s.pcs| && h in s.issued
    ensures var s2 := At(s, t, BorrowTest(h));
      && Enabled(s2, t, Go)
      && Next(s2, t, Go) == At(s, t, if !s.mapped || s.wiped || s.gens[h.idx] != h.gen then Idle else Borrowing(h))
  {
  }

  /** What the callback stores is the slot's window and no other; on a read-only slab it faults instead. */
  lemma StoreLands(s: State, t: nat, bytes: seq<int>)
    requires Reachable(s) && t < |s.pcs| && s.pcs[t].Borrowing?
    ensures Shape(s)
    ensures Enabled(s, t, Store(bytes)) <==> !s.readOnly && |bytes| == |s.data[s.pcs[t].h.idx]|
    ensures Enabled(s, t, Store(bytes)) ==> var s' := Next(s, t, Store(bytes));
      && |s'.data| == |s.data| && s'.data[s.pcs[t].h.idx] == bytes
      && (forall i :: 0 <= i < |s.data| && i != s.pcs[t].h.idx ==> s'.data[i] == s.data[i])
      && s' == s.(data := s'.data)
  {
    hide Reachable, Inv;
    ReachableInv(s);
    InvShape(s);
  }

  /** Acquire hands out the oldest free slot under the next generation, which nobody has had; a dead or empty arena hands
      out nothing. */
  lemma AcquireTakes(s: State, t: nat)
    requires Reachable(s) && t < |s.pcs| && s.pcs[t] == Idle
    ensures Shape(s)
    ensures var u := Run(s, By(t, [Acquire, Go]));
      if s.destroyed || s.wiped || s.free == [] then u == s
      else
        var i := s.free[0]; var h := Handle(i, s.gens[i] + 1);
        && h !in s.issued && s.claims[h] == 0 && h.gen % 2 == 1
        && u == s.(issued := s.issued + {h}, gens := s.gens[i := h.gen], free := s.free[1..], live := s.live + 1, links := u.links)
  {
    hide Run, Reachable, By, Inv, Enabled, Next, Shape;
    ReachableInv(s);
    InvShape(s);
    HeadIsNew(s);
    assert [Acquire] + [Go] == [Acquire, Go] && [Go] + [] == [Go];
    var s1 := Turn(s, t, Acquire, [Go]);
    var s2 := Turn(s1, t, Go, []);
    AcquireSteps(s, t);
    IdleStays(s, t, Go);
  }

  /** The head of the chain is the oldest free slot, and its next generation is odd and new. */
  lemma HeadIsNew(s: State)
    requires Inv(s)
    ensures if s.links.head < 0 then s.free == []
      else
        && s.free != [] && s.links.head == s.free[0] && s.links.head < |s.gens|
        && var h := Handle(s.links.head, s.gens[s.links.head] + 1);
           h !in s.issued && s.claims[h] == 0 && h.gen % 2 == 1
  {
    hide HandleInv, FreeInv, LockInv, RegionInv;
    HeadIsFree(s);
    if s.free != [] {
      FreeIsEven(s, s.free[0]);
      NextIsNew(s, s.free[0]);
    }
  }

  lemma AcquireSteps(s: State, t: nat)
    requires Shape(s) && t < |s.pcs| && s.pcs[t] == Idle
    ensures Enabled(s, t, Acquire) && Next(s, t, Acquire) == At(s, t, if s.destroyed || s.wiped then Idle else AcqPop)
    ensures var s1 := At(s, t, AcqPop);
      && Enabled(s1, t, Go)
      && (s.links.head < 0 ==> Next(s1, t, Go) == s)
      && (s.links.head >= 0 ==>
            var i := s.links.head; var s2 := Next(s1, t, Go);
            s2 == s.(links := s2.links, free := Rest(s.free), gens := s.gens[i := s.gens[i] + 1], live := s.live + 1,
                     issued := s.issued + {Handle(i, s.gens[i] + 1)}))
  {
    hide Links.Popped;
    assert s.pcs[t := AcqPop][t := Idle] == s.pcs;
  }

  lemma NextIsNew(s: State, i: nat)
    requires HandleInv(s) && i < |s.gens|
    ensures Handle(i, s.gens[i] + 1) !in s.issued && s.claims[Handle(i, s.gens[i] + 1)] == 0
  {
    var h := Handle(i, s.gens[i] + 1);
    assert h !in s.issued;
    assert h !in s.claims;
  }

  /** The state in which a Release that wins its claim leaves the arena. */
  ghost predicate Released(s: State, u: State, h: Handle)
    requires Shape(s) && h in s.issued
  {
    && u == s.(gens := s.gens[h.idx := h.gen + 1], claims := s.claims + multiset{h}, free := s.free + [h.idx],
               live := s.live - 1, data := u.data, links := u.links)
    && u.data == if s.mapped then s.data[h.idx := Zeros(|s.data[h.idx]|)] else s.data
  }

  /** Release of a current handle retires it, zeroes its window and puts the slot last in the queue; it is refused, with
      nothing changed, exactly when the handle was claimed before or the slab is read-only and not wiped. */
  lemma ReleaseReturns(s: State, t: nat, h: Handle)
    requires Reachable(s) && t < |s.pcs| && s.pcs[t] == Idle && h in s.issued && NoneExclusive(s)
    ensures Shape(s)
    ensures var u := Run(s, By(t, [Release(h), Go, Go, Go, Go, Go]));
      if s.claims[h] > 0 || (s.mapped && s.readOnly && !s.wiped) then u == s else Released(s, u, h)
  {
    hide Run, Reachable, By, Enabled, Next, Shape, NoneExclusive, Released;
    CurrentIsUnclaimed(s, h);
    assert [Release(h)] + [Go, Go, Go, Go, Go] == [Release(h), Go, Go, Go, Go, Go];
    assert [Go] + [Go, Go, Go, Go] == [Go, Go, Go, Go, Go] && [Go] + [Go, Go, Go] == [Go, Go, Go, Go];
    var s1 := Turn(s, t, Release(h), [Go, Go, Go, Go, Go]);
    var s2 := Turn(s1, t, Go, [Go, Go, Go, Go]);
    var s3 := Turn(s2, t, Go, [Go, Go, Go]);
    Turns(s3, t, Go, Go, Go);
    ReleaseTests(s, t, h);
    IdleStays(s, t, Go);
    if !(s.claims[h] > 0 || (s.mapped && s.readOnly && !s.wiped)) {
      ReleaseClaims(s, t, h);
      IdleStays(s, t, Go);
    }
  }

  lemma ReleaseTests(s: State, t: nat, h: Handle)
    requires Shape(s) && t < |s.pcs| && s.pcs[t] == Idle && h in s.issued && NoneExclusive(s)
    ensures Enabled(s, t, Release(h)) && Next(s, t, Release(h)) == At(s, t, if s.gens[h.idx] != h.gen then Idle else RelWait(h))
    ensures var s1 := At(s, t, RelWait(h)); Enabled(s1, t, Go) && Next(s1, t, Go) == At(s, t, RelTest(h))
    ensures var s2 := At(s, t, RelTest(h));
      && Enabled(s2, t, Go)
      && Next(s2, t, Go) == At(s, t, if s.mapped && s.readOnly && !s.wiped then Idle else RelClaim(h, s.mapped))
  {
    ReleaseStarts(s, t, h);
    ReleaseEnters(s, t, h);
    ReleaseLooks(s, t, h);
  }

  lemma ReleaseStarts(s: State, t: nat, h: Handle)
    requires Shape(s) && t < |s.pcs| && s.pcs[t] == Idle && h in s.issued
    ensures Enabled(s, t, Release(h)) && Next(s, t, Release(h)) == At(s, t, if s.gens[h.idx] != h.gen then Idle else RelWait(h))
  {
  }

  lemma ReleaseEnters(s: State, t: nat, h: Handle)
    requires Shape(s) && t < |s.pcs| && h in s.issued && NoneExclusive(s)
    ensures var s1 := At(s, t, RelWait(h)); Enabled(s1, t, Go) && Next(s1, t, Go) == At(s, t, RelTest(h))
  {
  }

  lemma ReleaseLooks(s: State, t: nat, h: Handle)
    requires Shape(s) && t < |s.pcs| && h in s.issued
    ensures var s2 := At(s, t, RelTest(h));
      && Enabled(s2, t, Go)
      && Next(s2, t, Go) == At(s, t, if s.mapped && s.readOnly && !s.wiped then Idle else RelClaim(h, s.mapped))
  {
  }

  /** The claim, the wipe and the append. */
  lemma ReleaseClaims(s: State, t: nat, h: Handle)
    requires Shape(s) && t < |s.pcs| && s.pcs[t] == Idle && h in s.issued && s.gens[h.idx] == h.gen
    ensures var s3 := At(s, t, RelClaim(h, s.mapped));
      && Enabled(s3, t, Go)
      && var s4 := Next(s3, t, Go);
         && Enabled(s4, t, Go)
         && var s5 := Next(s4, t, Go);
            Enabled(s5, t, Go) && Released(s, Next(s5, t, Go), h)
  {
    hide Enabled, Next, Shape, Links.Appended;
    var s3 := At(s, t, RelClaim(h, s.mapped));
    AtShape(s, t, RelClaim(h, s.mapped));
    GoOn(s3, t);
    BookkeptClaim(s3, t, Go);
    var s4 := Next(s3, t, Go);
    StepShape(s3, t, Go);
    GoOn(s4, t);
    WipeStep(s4, t);
    var s5 := Next(s4, t, Go);
    StepShape(s4, t, Go);
    GoOn(s5, t);
    BookkeptAppend(s5, t, Go);
    ThereAndBack(s.pcs, t, RelClaim(h, s.mapped), RelWipe(h, s.mapped), RelAppend(h), Idle);
  }

  lemma ThereAndBack(pcs: seq<Pc>, t: nat, p: Pc, q: Pc, r: Pc, last: Pc)
    requires t < |pcs| && pcs[t] == last
    ensures pcs[t := p][t := q][t := r][t := last] == pcs
  {
  }

  lemma AtShape(s: State, t: nat, p: Pc)
    requires Shape(s) && t < |s.pcs| && (HasHandle(p) ==> p.h in s.issued)
    ensures Shape(At(s, t, p))
  {
  }

  lemma GoOn(s: State, t: nat)
    requires Shape(s) && t < |s.pcs| && (s.pcs[t].RelClaim? || s.pcs[t].RelWipe? || s.pcs[t].RelAppend?)
    ensures Enabled(s, t, Go) && s.pcs[t].h in s.issued && s.pcs[t].h.idx < |s.gens| == |s.data|
  {
  }

  lemma WipeStep(s: State, t: nat)
    requires Enabled(s, t, Go) && s.pcs[t].RelWipe?
    ensures Shape(s) && s.pcs[t].h in s.issued
    ensures var h := s.pcs[t].h;
      Next(s, t, Go) ==
        At(s, t, RelAppend(h)).(data := if s.pcs[t].live then s.data[h.idx := Zeros(|s.data[h.idx]|)] else s.data)
  {
  }

  /** Every window is zeros of its old length. */
  ghost predicate AllZero(data: seq<seq<int>>, data': seq<seq<int>>) {
    |data'| == |data| && forall i :: 0 <= i < |data| ==> |data'[i]| == |data[i]| && Zeroed(data'[i])
  }

  /** Destroy marks the arena, wipes every window if its call goes through, and unmaps the slab in either case; a second
      one changes nothing. */
  lemma DestroyUnmaps(s: State, t: nat, c: Choice)
    requires Reachable(s) && t < |s.pcs| && s.pcs[t] == Idle && NoneInside(s) && (c == Go || c == Fail)
    ensures var u := Run(s, By(t, [Destroy, Go, c]));
      && u == s.(destroyed := true, mapped := false, data := u.data)
      && (if s.mapped && c == Go then AllZero(s.data, u.data) else u.data == s.data)
  {
    hide Run, Reachable, By, Inv, Enabled, Next, Shape, NoneInside;
    ReachableInv(s);
    InvShape(s);
    DestroySteps(s, t, c);
    Turns(s, t, Destroy, Go, c);
    IdleStays(s, t, c);
  }

  lemma DestroySteps(s: State, t: nat, c: Choice)
    requires Shape(s) && t < |s.pcs| && s.pcs[t] == Idle && NoneInside(s) && (c == Go || c == Fail)
    ensures Enabled(s, t, Destroy) && Next(s, t, Destroy) == At(s, t, DestroyWait).(destroyed := true)
    ensures var s1 := At(s, t, DestroyWait).(destroyed := true);
      Enabled(s1, t, Go) && Next(s1, t, Go) == At(s, t, DestroyIn).(destroyed := true)
    ensures var s2 := At(s, t, DestroyIn).(destroyed := true);
      && Enabled(s2, t, c)
      && var u := Next(s2, t, c);
         && u == s.(destroyed := true, mapped := false, data := u.data)
         && (if s.mapped && c == Go then AllZero(s.data, u.data) else u.data == s.data)
  {
    DestroyEnters(s, t);
    DestroyActs(s, t, c);
  }

  lemma DestroyEnters(s: State, t: nat)
    requires Shape(s) && t < |s.pcs| && s.pcs[t] == Idle && NoneInside(s)
    ensures Enabled(s, t, Destroy) && Next(s, t, Destroy) == At(s, t, DestroyWait).(destroyed := true)
    ensures var s1 := At(s, t, DestroyWait).(destroyed := true);
      Enabled(s1, t, Go) && Next(s1, t, Go) == At(s, t, DestroyIn).(destroyed := true)
  {
    assert s.pcs[t := DestroyWait][t := DestroyIn] == s.pcs[t := DestroyIn];
  }

  lemma DestroyActs(s: State, t: nat, c: Choice)
    requires Shape(s) && t < |s.pcs| && s.pcs[t] == Idle && (c == Go || c == Fail)
    ensures var s2 := At(s, t, DestroyIn).(destroyed := true);
      && Enabled(s2, t, c)
      && var u := Next(s2, t, c);
         && u == s.(destroyed := true, mapped := false, data := u.data)
         && (if s.mapped && c == Go then AllZero(s.data, u.data) else u.data == s.data)
  {
    assert s.pcs[t := DestroyIn][t := Idle] == s.pcs;
  }

  /** ReadOnly and ReadWrite set the protection they name, unless the slab is gone or wiped or their call fails. */
  lemma ProtectSets(s: State, t: nat, ro: bool, c: Choice)
    requires Reachable(s) && t < |s.pcs| && s.pcs[t] == Idle && NoneInside(s) && (c == Go || c == Fail)
    ensures Run(s, By(t, [Protect(ro), Go, c])) == if s.mapped && !s.wiped && c == Go then s.(readOnly := ro) else s
  {
    hide Run, Reachable, By, Inv, Enabled, Next, Shape, NoneInside;
    ReachableInv(s);
    InvShape(s);
    ProtectSteps(s, t, ro, c);
    Turns(s, t, Protect(ro), Go, c);
    IdleStays(s, t, c);
  }

  lemma ProtectSteps(s: State, t: nat, ro: bool, c: Choice)
    requires Shape(s) && t < |s.pcs| && s.pcs[t] == Idle && NoneInside(s) && (c == Go || c == Fail)
    ensures Enabled(s, t, Protect(ro)) && Next(s, t, Protect(ro)) == At(s, t, ProtectWait(ro))
    ensures var s1 := At(s, t, ProtectWait(ro)); Enabled(s1, t, Go) && Next(s1, t, Go) == At(s, t, ProtectIn(ro))
    ensures var s2 := At(s, t, ProtectIn(ro));
      && Enabled(s2, t, c)
      && Next(s2, t, c) == if s.mapped && !s.wiped && c == Go then s.(readOnly := ro) else s
  {
    ProtectEnters(s, t, ro);
    ProtectActs(s, t, ro, c);
  }

  lemma ProtectEnters(s: State, t: nat, ro: bool)
    requires Shape(s) && t < |s.pcs| && s.pcs[t] == Idle && NoneInside(s)
    ensures Enabled(s, t, Protect(ro)) && Next(s, t, Protect(ro)) == At(s, t, ProtectWait(ro))
    ensures var s1 := At(s, t, ProtectWait(ro)); Enabled(s1, t, Go) && Next(s1, t, Go) == At(s, t, ProtectIn(ro))
  {
    assert s.pcs[t := ProtectWait(ro)][t := ProtectIn(ro)] == s.pcs[t := ProtectIn(ro)];
  }

  lemma ProtectActs(s: State, t: nat, ro: bool, c: Choice)
    requires Shape(s) && t < |s.pcs| && s.pcs[t] == Idle && (c == Go || c == Fail)
    ensures var s2 := At(s, t, ProtectIn(ro));
      && Enabled(s2, t, c)
      && Next(s2, t, c) == if s.mapped && !s.wiped && c == Go then s.(readOnly := ro) else s
  {
    assert s.pcs[t := ProtectIn(ro)][t := Idle] == s.pcs;
  }

  /** The emergency wipe of a mapped slab zeroes every window and sets the flag. */
  lemma WipeClears(s: State, t: nat, c: Choice)
    requires Reachable(s) && t < |s.pcs| && s.pcs[t] == Idle && NoneInside(s) && (c == Go || c == Fail)
    ensures var u := Run(s, By(t, [EmergencyWipe, Go, c]));
      if s.mapped && c == Go then u == s.(wiped := true, data := u.data) && AllZero(s.data, u.data) else u == s
  {
    hide Run, Reachable, By, Inv, Enabled, Next, Shape, NoneInside;
    ReachableInv(s);
    InvShape(s);
    WipeSteps(s, t, c);
    Turns(s, t, EmergencyWipe, Go, c);
    IdleStays(s, t, c);
  }

  lemma WipeSteps(s: State, t: nat, c: Choice)
    requires Shape(s) && t < |s.pcs| && s.pcs[t] == Idle && NoneInside(s) && (c == Go || c == Fail)
    ensures Enabled(s, t, EmergencyWipe) && Next(s, t, EmergencyWipe) == At(s, t, WipeWait)
    ensures var s1 := At(s, t, WipeWait); Enabled(s1, t, Go) && Next(s1, t, Go) == At(s, t, WipeIn)
    ensures var s2 := At(s, t, WipeIn);
      && Enabled(s2, t, c)
      && var u := Next(s2, t, c);
         if s.mapped && c == Go then u == s.(wiped := true, data := u.data) && AllZero(s.data, u.data) else u == s
  {
    WipeEnters(s, t);
    WipeActs(s, t, c);
  }

  lemma WipeEnters(s: State, t: nat)
    requires Shape(s) && t < |s.pcs| && s.pcs[t] == Idle && NoneInside(s)
    ensures Enabled(s, t, EmergencyWipe) && Next(s, t, EmergencyWipe) == At(s, t, WipeWait)
    ensures var s1 := At(s, t, WipeWait); Enabled(s1, t, Go) && Next(s1, t, Go) == At(s, t, WipeIn)
  {
    assert s.pcs[t := WipeWait][t := WipeIn] == s.pcs[t := WipeIn];
  }

  lemma WipeActs(s: State, t: nat, c: Choice)
    requires Shape(s) && t < |s.pcs| && s.pcs[t] == Idle && (c == Go || c == Fail)
    ensures var s2 := At(s, t, WipeIn);
      && Enabled(s2, t, c)
      && var u := Next(s2, t, c);
         if s.mapped && c == Go then u == s.(wiped := true, data := u.data) && AllZero(s.data, u.data) else u == s
  {
    assert s.pcs[t := WipeIn][t := Idle] == s.pcs;
  }
}
