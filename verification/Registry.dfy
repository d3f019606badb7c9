/** The crash registry of registry.go as interleaved atomic steps.

The janitor keeps every secret mapping in one of two sets, live or wiped. Destroy, the
garbage-collection cleanup and the emergency-wipe passes race on it, and the owner's
accessors race on the mapping itself. A step is one critical section of the janitor's
mutex, or what a thread does to the mapping while it holds the region's lock. An actor
works on one key; a call to wipeAllInPlace is one actor per key of its snapshot, which
allows more interleavings than its two passes do. */
module Registry {
  import opened Options

  /** One registration: the region's lock, and its canary layout (0 for the empty one). */
  datatype Entry = Entry(lock: nat, canary: nat)

  /** Everything about one key: its entries in the janitor's two sets, the mapping behind
      it, the owner, and who holds the region's lock. */
  datatype Cell = Cell(
    live: Option<Entry>,     // the key's entry in janitor.regions
    wiped: Option<Entry>,    // the key's entry in janitor.wiped
    lock: nat,
    canary: nat,             // the layout armed at construction
    mapped: bool,
    releases: nat,           // how often the range was unmapped or retired
    flag: bool,              // the wiped flag shared with the owner
    zero: bool,              // the contents are all zeros
    ownerGone: bool,         // Destroy has cleared the owner's reference
    cleaner: Option<Actor>,  // the cleanup, once no handle is left: only it and the passes can act
    holder: Option<Actor>)   // holds the region's lock exclusively

  /** How an actor ended. A skipped region is reported with its entries in the two sets
      as they were when its lock was let go. */
  datatype Outcome =
    | Gone | Wiped | Skipped(live: Option<Entry>, wiped: Option<Entry>)   // a wipe job
    | Released                                                            // Destroy or the cleanup
    | Other                                                               // an accessor

  /** Where an actor is. The comment names the action it takes next. */
  datatype Pc =
    // tryWipeInPlace, then wipeInPlace
    | TryPeek                            // peekAny
    | TryLock(lock: nat)                 // tryLock the region
    | WaitPeek                           // peekAny
    | WaitLock(lock: nat)                // lock the region
    | InPass(lock: nat)                  // moveToWipedIf
    | Wiping(e: Entry, wasLive: bool)    // wipeAndFree without the unmap, and markWiped
    | Restore(e: Entry)                  // returnToLive
    // Destroy
    | DLock                              // lock the region
    | DTest                              // already destroyed?
    | DTake                              // takeAny, first half: take from the live set
    | DTakeWiped                         // takeAny, second half: take from the wiped set
    | Freeing(byOwner: bool)             // wipeAndFree with the unmap
    | DClear                             // clear the owner's reference
    // the garbage-collection cleanup
    | CPeek | CLock(lock: nat) | CIn(lock: nat)
    // an accessor or mutator of the owner
    | ALock(shared: bool)                // lock the region
    | ATest(shared: bool)                // refuse if destroyed or wiped
    | Using(shared: bool)                // store into the mapping, or finish
    | Leave(o: Outcome)                  // unlock the region
    | Done(o: Outcome)

  datatype Actor = Actor(id: nat, key: nat)

  datatype State = State(
    minted: nat,                     // nextJanitorKey
    cells: map<nat, Cell>,
    calls: map<nat, set<nat>>,       // the snapshots of wipeAllInPlace
    releasers: set<Actor>,           // the calls of Destroy and of the cleanup
    pcs: map<Actor, Pc>)

  datatype Step =
    | Register(lock: nat, canary: nat)
    | WipeAll(call: nat)
    | Destroy(a: Actor)
    | Access(a: Actor, shared: bool)
    | Cleanup(a: Actor)
    | Move(a: Actor, ok: bool)       // `ok`: the system call, tryLock or store in the step happens

  function Init(): State { State(0, map[], map[], {}, map[]) }

  /** The control points that hold the region's lock exclusively. */
  predicate Exclusive(p: Pc) {
    || p.InPass? || p.Wiping? || p.Restore? || p.DTest? || p.DTake? || p.DTakeWiped? || p.Freeing? || p.DClear?
    || p.CIn? || (p.ATest? && !p.shared) || (p.Using? && !p.shared) || p.Leave?
  }

  /** The control points that hold it shared. */
  predicate Shared(p: Pc) { (p.ATest? && p.shared) || (p.Using? && p.shared) }

  /** Actors that run on behalf of the owner. */
  predicate OwnerActor(p: Pc) {
    || p.DLock? || p.DTest? || p.DTake? || p.DTakeWiped? || p.DClear? || (p.Freeing? && p.byOwner)
    || p.ALock? || p.ATest? || p.Using?
  }

  predicate InEither(c: Cell) { c.live.Some? || c.wiped.Some? }

  function PeekAny(c: Cell): Entry
    requires InEither(c)
  {
    if c.live.Some? then c.live.value else c.wiped.value
  }

  /** The step takes the region's lock; `shared` says how. */
  predicate TakesLock(p: Pc, ok: bool, shared: bool) {
    || (!shared && ((p.TryLock? && ok) || p.WaitLock? || p.DLock? || p.CLock?))
    || (p.ALock? && p.shared == shared)
  }

  /** What one move of actor `a` at `p` does to its cell, the lock aside, and where it goes. */
  function Act(c: Cell, p: Pc, ok: bool): (Cell, Pc) {
    match p
    case TryPeek => (c, if InEither(c) then TryLock(PeekAny(c).lock) else Done(Gone))
    case TryLock(lock) => (c, if ok then InPass(lock) else WaitPeek)
    case WaitPeek => (c, if InEither(c) then WaitLock(PeekAny(c).lock) else Done(Gone))
    case WaitLock(lock) => (c, InPass(lock))
    case InPass(lock) =>
      if c.live.Some? then
        if c.live.value.lock != lock then (c, Leave(Gone))
        else (c.(live := None, wiped := Some(c.live.value.(canary := 0))), Wiping(c.live.value, true))
      else if c.wiped.Some? then
        (c, if c.wiped.value.lock != lock then Leave(Gone) else Wiping(c.wiped.value, false))
      else (c, Leave(Gone))
    case Wiping(e, wasLive) =>
      if ok then (c.(zero := true, flag := true), Leave(Wiped))
      else (c, if wasLive then Restore(e) else Leave(Skipped(c.live, c.wiped)))
    case Restore(e) =>
      var c' := if c.wiped.Some? && c.wiped.value.lock == e.lock then c.(wiped := None, live := Some(e)) else c;
      (c', Leave(Skipped(c'.live, c'.wiped)))
    case DLock => (c, DTest)
    case DTest => (c, if c.ownerGone then Leave(Released) else DTake)
    case DTake => if c.live.Some? then (c.(live := None), Freeing(true)) else (c, DTakeWiped)
    case DTakeWiped => if c.wiped.Some? then (c.(wiped := None), Freeing(true)) else (c, DClear)
    case Freeing(byOwner) =>
      (c.(zero := c.zero || ok, mapped := false, releases := c.releases + 1),
       if byOwner then DClear else Leave(Released))
    case DClear => (c.(ownerGone := true), Leave(Released))
    case CPeek => (c, if InEither(c) then CLock(PeekAny(c).lock) else Done(Released))
    case CLock(lock) => (c, CIn(lock))
    case CIn(lock) =>
      if c.live.Some? then
        if c.live.value.lock != lock then (c, Leave(Released)) else (c.(live := None), Freeing(false))
      else if c.wiped.Some? then
        if c.wiped.value.lock != lock then (c, Leave(Released)) else (c.(wiped := None), Freeing(false))
      else (c, Leave(Released))
    case ALock(shared) => (c, ATest(shared))
    case ATest(shared) => (c, if c.ownerGone || c.flag then Done(Other) else Using(shared))
    case Using(shared) => if ok then (c.(zero := false), Using(shared)) else (c, Done(Other))
    case Leave(o) => (c, Done(o))
    case Done(o) => (c, Done(o))
  }

  /** The lock after actor `a` has gone from `p` to `q`. */
  function Relock(c: Cell, a: Actor, p: Pc, q: Pc): Cell {
    c.(holder := if Exclusive(q) then Some(a) else if Exclusive(p) then None else c.holder)
  }

  predicate NewActor(s: State, a: Actor) {
    a !in s.pcs && a.id !in s.calls && a.key in s.cells && s.cells[a.key].cleaner.None?
  }

  predicate Enabled(s: State, st: Step) {
    match st
    case Register(lock, _) => forall k :: k in s.cells ==> s.cells[k].lock != lock
    case WipeAll(call) => call !in s.calls && forall a :: a in s.pcs ==> a.id != call
    case Destroy(a) => NewActor(s, a)
    case Access(a, _) => NewActor(s, a)
    case Cleanup(a) => NewActor(s, a) && forall b :: b in s.pcs && b.key == a.key ==> !OwnerActor(s.pcs[b])
    case Move(a, ok) =>
      && a in s.pcs && a.key in s.cells && !s.pcs[a].Done?
      && (TakesLock(s.pcs[a], ok, false) || TakesLock(s.pcs[a], ok, true) ==> s.cells[a.key].holder.None?)
      && (TakesLock(s.pcs[a], ok, false) ==> NoReaders(s, a.key))
  }

  predicate NoReaders(s: State, key: nat) {
    forall b :: b in s.pcs && b.key == key ==> !Shared(s.pcs[b])
  }

  function Next(s: State, st: Step): State
    requires Enabled(s, st)
  {
    match st
    case Register(lock, canary) =>
      var key := s.minted + 1;
      if key in s.cells && InEither(s.cells[key]) then s.(minted := key)   // errJanitorKeyCollision
      else s.(minted := key,
              cells := s.cells[key := Cell(Some(Entry(lock, canary)), None, lock, canary, true, 0, false, true, false, None, None)])
    case WipeAll(call) =>
      var snapshot := set k | k in s.cells && InEither(s.cells[k]);
      s.(calls := s.calls[call := snapshot],
         pcs := s.pcs + Team(call, snapshot))
    case Destroy(a) => s.(pcs := s.pcs[a := DLock], releasers := s.releasers + {a})
    case Access(a, shared) => s.(pcs := s.pcs[a := ALock(shared)])
    case Cleanup(a) =>
      s.(pcs := s.pcs[a := CPeek], cells := s.cells[a.key := s.cells[a.key].(cleaner := Some(a))], releasers := s.releasers + {a})
    case Move(a, ok) =>
      var p := s.pcs[a];
      var (c', q) := Act(s.cells[a.key], p, ok);
      s.(pcs := s.pcs[a := q], cells := s.cells[a.key := Relock(c', a, p, q)])
  }

  function Run(s: State, steps: seq<Step>): State
    decreases |steps|
  {
    if steps == [] then s
    else Run(if Enabled(s, steps[0]) then Next(s, steps[0]) else s, steps[1..])
  }

  // ---------------------------------------------------------------------------
  // The invariant
  // ---------------------------------------------------------------------------

  /** A pass that has moved a live registration and not yet decided its fate. */
  predicate MidPass(p: Pc) { (p.Wiping? && p.wasLive) || p.Restore? }

  /** The control points of a wipe job. */
  predicate WipeJob(p: Pc) {
    || p.TryPeek? || p.TryLock? || p.WaitPeek? || p.WaitLock? || p.InPass? || p.Wiping? || p.Restore?
    || ((p.Leave? || p.Done?) && !p.o.Released? && !p.o.Other?)
  }

  /** The control points of Destroy and of the cleanup. */
  predicate ReleaseJob(p: Pc) {
    || p.DLock? || p.DTest? || p.DTake? || p.DTakeWiped? || p.Freeing? || p.DClear? || p.CPeek? || p.CLock? || p.CIn?
    || ((p.Leave? || p.Done?) && p.o.Released?)
  }

  predicate CleanupActor(p: Pc) { p.CPeek? || p.CLock? || p.CIn? || (p.Freeing? && !p.byOwner) }

  ghost predicate OutcomeHolds(c: Cell, o: Outcome) {
    match o
    case Gone => !InEither(c)
    case Wiped => c.flag
    case Skipped(live, wiped) =>
      if live.Some? then live == Some(Entry(c.lock, c.canary)) && wiped.None?
      else wiped.Some? && wiped.value.lock == c.lock && c.flag
    case Released => !c.mapped
    case Other => true
  }

  /** What an actor at `p` knows about its key. */
  ghost predicate PcInv(c: Cell, p: Pc) {
    && (c.cleaner.Some? ==> !OwnerActor(p))
    && match p
       case TryLock(lock) => lock == c.lock
       case WaitLock(lock) => lock == c.lock
       case InPass(lock) => lock == c.lock
       case CPeek => c.cleaner.Some?
       case CLock(lock) => lock == c.lock && c.cleaner.Some?
       case CIn(lock) => lock == c.lock && c.cleaner.Some?
       case Wiping(e, wasLive) => c.wiped.Some? && e.lock == c.lock && (wasLive ==> e.canary == c.canary && !c.flag)
       case Restore(e) => c.wiped.Some? && e.lock == c.lock && e.canary == c.canary && !c.flag
       case DTakeWiped => c.live.None?
       case Freeing(byOwner) => !InEither(c) && c.mapped && (byOwner || c.cleaner.Some?)
       case DClear => !c.mapped
       case Using(_) => c.mapped && !c.flag && !c.ownerGone
       case Leave(o) => OutcomeHolds(c, o) && (o.Skipped? ==> o == Skipped(c.live, c.wiped))
       case Done(o) => OutcomeHolds(c, o)
       case _ => true
  }

  /** Where the mapping of a key is, given the control point of the exclusive holder. */
  ghost predicate Home(c: Cell, h: Pc) {
    // The sets are disjoint and hold the registration as it was made, except that the
    // wiped set has dropped the canary layout.
    && (c.live.Some? ==> c.wiped.None? && c.live.value == Entry(c.lock, c.canary))
    && (c.wiped.Some? ==> c.wiped.value.lock == c.lock)
    // A mapping is in a set or with one releaser; it is released once, when it goes.
    && (InEither(c) ==> c.mapped)
    && (c.mapped && !InEither(c) ==> h.Freeing?)
    && c.releases == (if c.mapped then 0 else 1)
    // A flagged region holds zeros and has left the live set; a region in the wiped set
    // is flagged, unless the pass that moved it is still at work under the lock.
    && (c.flag ==> c.zero && c.live.None?)
    && (c.wiped.Some? && !c.flag ==> MidPass(h))
    // The owner forgets a released mapping before it lets the lock go.
    && (!c.mapped && !c.ownerGone && c.cleaner.None? ==> h.DClear?)
    && (c.ownerGone ==> !c.mapped)
  }

  /** The control point of the exclusive holder of a key's lock. */
  ghost function Holder(s: State, k: nat): Pc
    requires k in s.cells
  {
    var h := s.cells[k].holder;
    if h.Some? && h.value in s.pcs then s.pcs[h.value] else Done(Other)
  }

  ghost predicate LockInv(s: State) {
    && (forall a :: a in s.pcs ==>
          && a.key in s.cells
          && (Exclusive(s.pcs[a]) <==> s.cells[a.key].holder == Some(a))
          && (Shared(s.pcs[a]) ==> s.cells[a.key].holder.None?))
    && (forall k :: k in s.cells && s.cells[k].holder.Some? ==>
          s.cells[k].holder.value in s.pcs && s.cells[k].holder.value.key == k)
  }

  ghost predicate ActorInv(s: State) {
    && (forall a :: a in s.pcs ==> a.key in s.cells && PcInv(s.cells[a.key], s.pcs[a]))
    && (forall a :: a in s.pcs && a.id in s.calls ==> WipeJob(s.pcs[a]))
    && (forall a :: a in s.releasers ==> a in s.pcs && ReleaseJob(s.pcs[a]))
    // A key has one cleanup.
    && (forall a :: a in s.pcs && CleanupActor(s.pcs[a]) ==> s.cells[a.key].cleaner == Some(a))
    && (forall c, k :: c in s.calls && k in s.calls[c] ==> Actor(c, k) in s.pcs)
  }

  ghost predicate HomeInv(s: State) {
    forall k :: k in s.cells ==> k <= s.minted && Home(s.cells[k], Holder(s, k))
  }

  ghost predicate Inv(s: State) {
    LockInv(s) && ActorInv(s) && HomeInv(s)
  }

  lemma InitInv()
    ensures Inv(Init())
  {
  }

  // ---------------------------------------------------------------------------
  // Preservation
  // ---------------------------------------------------------------------------

  /** How the exclusive holder's control point goes from `h` to `h'` when an actor goes
      from `p` to `q`. */
  ghost predicate Handover(p: Pc, q: Pc, h: Pc, h': Pc) {
    && (Exclusive(p) ==> h == p)
    && (Shared(p) || (Exclusive(q) && !Exclusive(p)) ==> !Exclusive(h))
    && h' == (if Exclusive(q) then q else if Exclusive(p) then Done(Other) else h)
  }

  // A move keeps its own key's invariant and establishes what its next control point needs.

  lemma PassHome(c: Cell, p: Pc, ok: bool, h: Pc, h': Pc)
    requires p.TryPeek? || p.TryLock? || p.WaitPeek? || p.WaitLock? || p.InPass? || p.Wiping? || p.Restore?
    requires Home(c, h) && PcInv(c, p) && Handover(p, Act(c, p, ok).1, h, h')
    ensures var (c', q) := Act(c, p, ok); Home(c', h') && PcInv(c', q)
  {
  }

  lemma DestroyHome(c: Cell, p: Pc, ok: bool, h: Pc, h': Pc)
    requires p.DLock? || p.DTest? || p.DTake? || p.DTakeWiped? || p.Freeing? || p.DClear?
    requires Home(c, h) && PcInv(c, p) && Handover(p, Act(c, p, ok).1, h, h')
    ensures var (c', q) := Act(c, p, ok); Home(c', h') && PcInv(c', q)
  {
  }

  lemma CleanupHome(c: Cell, p: Pc, ok: bool, h: Pc, h': Pc)
    requires (p.CPeek? && !h.Freeing?) || p.CLock? || p.CIn? || p.Leave?
    requires Home(c, h) && PcInv(c, p) && Handover(p, Act(c, p, ok).1, h, h')
    ensures var (c', q) := Act(c, p, ok); Home(c', h') && PcInv(c', q)
  {
  }

  lemma AccessHome(c: Cell, p: Pc, ok: bool, h: Pc, h': Pc)
    requires p.ALock? || p.ATest? || p.Using?
    requires Home(c, h) && PcInv(c, p) && Handover(p, Act(c, p, ok).1, h, h')
    ensures var (c', q) := Act(c, p, ok); Home(c', h') && PcInv(c', q)
  {
    if p.Using? {
      StoreHome(c, p, ok, h, h');
    }
  }

  lemma StoreHome(c: Cell, p: Pc, ok: bool, h: Pc, h': Pc)
    requires p.Using? && Home(c, h) && PcInv(c, p) && Handover(p, Act(c, p, ok).1, h, h')
    ensures var (c', q) := Act(c, p, ok); Home(c', h') && PcInv(c', q)
  {
  }

  lemma ActHome(c: Cell, p: Pc, ok: bool, h: Pc, h': Pc)
    requires !p.Done? && Home(c, h) && PcInv(c, p) && Handover(p, Act(c, p, ok).1, h, h')
    requires p.CPeek? ==> !h.Freeing?
    ensures var (c', q) := Act(c, p, ok); Home(c', h') && PcInv(c', q)
  {
    if p.TryPeek? || p.TryLock? || p.WaitPeek? || p.WaitLock? || p.InPass? || p.Wiping? || p.Restore? {
      PassHome(c, p, ok, h, h');
    } else if p.DLock? || p.DTest? || p.DTake? || p.DTakeWiped? || p.Freeing? || p.DClear? {
      DestroyHome(c, p, ok, h, h');
    } else if p.CPeek? || p.CLock? || p.CIn? || p.Leave? {
      CleanupHome(c, p, ok, h, h');
    } else {
      AccessHome(c, p, ok, h, h');
    }
  }

  /** A move of one actor keeps what every other actor of the key knows. */
  lemma ActOther(c: Cell, p: Pc, ok: bool, other: Pc)
    requires PcInv(c, p) && PcInv(c, other)
    requires Exclusive(p) ==> !Exclusive(other) && !Shared(other)
    requires Shared(p) ==> !Exclusive(other)
    ensures PcInv(Act(c, p, ok).0, other)
  {
  }

  /** PcInv and Home do not look at the lock. */
  lemma Unlocked(c: Cell, a: Actor, p: Pc, q: Pc, r: Pc)
    ensures PcInv(Relock(c, a, p, q), r) == PcInv(c, r) && Home(Relock(c, a, p, q), r) == Home(c, r)
  {
  }

  lemma ActHolder(c: Cell, p: Pc, ok: bool)
    ensures Act(c, p, ok).0.holder == c.holder
  {
  }

  lemma ActExclusive(c: Cell, p: Pc, ok: bool)
    ensures Exclusive(Act(c, p, ok).1) && !Exclusive(p) ==> TakesLock(p, ok, false) && !Shared(p)
  {
  }

  lemma ActShared(c: Cell, p: Pc, ok: bool)
    ensures Shared(Act(c, p, ok).1) && !Shared(p) ==> TakesLock(p, ok, true) && !Exclusive(p)
  {
  }

  lemma ActLock(c: Cell, p: Pc, ok: bool)
    ensures var (c', q) := Act(c, p, ok);
      && c'.holder == c.holder
      && (Exclusive(q) && !Exclusive(p) ==> TakesLock(p, ok, false) && !Shared(p))
      && (Shared(q) && !Shared(p) ==> TakesLock(p, ok, true) && !Exclusive(p))
  {
    hide Act, Exclusive, Shared, TakesLock;
    ActHolder(c, p, ok);
    ActExclusive(c, p, ok);
    ActShared(c, p, ok);
  }

  /** How the lock permits the mover's change of control point to `q`. */
  ghost predicate LockStep(s: State, a: Actor, q: Pc)
    requires a in s.pcs && a.key in s.cells
  {
    var p := s.pcs[a];
    && (Exclusive(q) && !Exclusive(p) ==> s.cells[a.key].holder.None? && NoReaders(s, a.key) && !Shared(p))
    && (Shared(q) && !Shared(p) ==> s.cells[a.key].holder.None? && !Exclusive(p))
  }

  /** The state after actor `a` has gone to `q` and its cell has become `c'`. */
  ghost function Put(s: State, a: Actor, c': Cell, q: Pc): State
    requires a in s.pcs
  {
    s.(pcs := s.pcs[a := q], cells := s.cells[a.key := Relock(c', a, s.pcs[a], q)])
  }

  lemma ModesApart()
    ensures (forall p :: Exclusive(p) ==> !Shared(p)) && !Exclusive(Done(Other))
  {
  }

  lemma PutLock(s: State, a: Actor, c': Cell, q: Pc)
    requires LockInv(s) && a in s.pcs && LockStep(s, a, q) && c'.holder == s.cells[a.key].holder
    ensures LockInv(Put(s, a, c', q))
  {
    hide PcInv, Home, WipeJob, ReleaseJob, CleanupActor, Exclusive, Shared;
    ModesApart();
    var s' := Put(s, a, c', q);
    forall b | b in s'.pcs
      ensures b.key in s'.cells
      ensures Exclusive(s'.pcs[b]) <==> s'.cells[b.key].holder == Some(b)
      ensures Shared(s'.pcs[b]) ==> s'.cells[b.key].holder.None?
    {
      assert b in s.pcs;
    }
  }

  lemma PutHolder(s: State, a: Actor, c': Cell, q: Pc)
    requires LockInv(s) && a in s.pcs && LockStep(s, a, q) && c'.holder == s.cells[a.key].holder
    ensures var s' := Put(s, a, c', q);
      && Handover(s.pcs[a], q, Holder(s, a.key), Holder(s', a.key))
      && (forall k :: k in s.cells && k != a.key ==> Holder(s', k) == Holder(s, k))
  {
    hide PcInv, Home, WipeJob, ReleaseJob, CleanupActor, Exclusive, Shared;
    ModesApart();
  }

  ghost predicate SameJob(p: Pc, q: Pc) {
    (WipeJob(p) ==> WipeJob(q)) && (ReleaseJob(p) ==> ReleaseJob(q)) && (CleanupActor(q) ==> CleanupActor(p))
  }

  /** The other actors of the key keep what they know, given that their control points do. */
  lemma PutActors(s: State, a: Actor, c': Cell, q: Pc)
    requires ActorInv(s) && a in s.pcs && PcInv(c', q) && SameJob(s.pcs[a], q) && c'.cleaner == s.cells[a.key].cleaner
    requires forall b :: b in s.pcs && b != a && b.key == a.key ==> PcInv(c', s.pcs[b])
    ensures ActorInv(Put(s, a, c', q))
  {
    hide PcInv, Home, WipeJob, ReleaseJob, CleanupActor;
    var s' := Put(s, a, c', q);
    forall b | b in s'.pcs
      ensures b.key in s'.cells && PcInv(s'.cells[b.key], s'.pcs[b])
    {
      Unlocked(c', a, s.pcs[a], q, s'.pcs[b]);
    }
  }

  lemma ActJob(c: Cell, p: Pc, ok: bool)
    ensures SameJob(p, Act(c, p, ok).1) && Act(c, p, ok).0.cleaner == c.cleaner
  {
  }

  /** The one cleanup of a key, about to look, is not its releaser; and no handle is left. */
  lemma SoleCleaner(s: State, a: Actor)
    requires Inv(s) && a in s.pcs && s.pcs[a].CPeek?
    ensures !Holder(s, a.key).Freeing?
  {
    var h := s.cells[a.key].holder;
    if h.Some? && s.pcs[h.value].Freeing? {
      assert PcInv(s.cells[a.key], s.pcs[h.value]);
      assert CleanupActor(s.pcs[h.value]);
    }
  }

  /** No other actor of the key holds the lock against the mover. */
  lemma Rivals(s: State, a: Actor, b: Actor)
    requires LockInv(s) && a in s.pcs && b in s.pcs && a != b && a.key == b.key
    ensures Exclusive(s.pcs[a]) ==> !Exclusive(s.pcs[b]) && !Shared(s.pcs[b])
    ensures Shared(s.pcs[a]) ==> !Exclusive(s.pcs[b])
  {
  }

  /** The invariant after a move, from what the move does to its own key. */
  lemma PutInv(s: State, a: Actor, c': Cell, q: Pc)
    requires Inv(s) && a in s.pcs && LockStep(s, a, q) && c'.holder == s.cells[a.key].holder
    requires PcInv(c', q) && SameJob(s.pcs[a], q) && c'.cleaner == s.cells[a.key].cleaner
    requires forall b :: b in s.pcs && b != a && b.key == a.key ==> PcInv(c', s.pcs[b])
    requires Home(c', Holder(Put(s, a, c', q), a.key))
    ensures Inv(Put(s, a, c', q))
  {
    hide PcInv, Home, SameJob, ActorInv, Handover, LockStep, Exclusive, Shared;
    PutLock(s, a, c', q);
    PutActors(s, a, c', q);
    PutHolder(s, a, c', q);
    Unlocked(c', a, s.pcs[a], q, Holder(Put(s, a, c', q), a.key));
  }

  /** What the move leaves for the other actors of the key. */
  lemma MoveOthers(s: State, a: Actor, ok: bool)
    requires Inv(s) && Enabled(s, Move(a, ok))
    ensures forall b :: b in s.pcs && b != a && b.key == a.key ==> PcInv(Act(s.cells[a.key], s.pcs[a], ok).0, s.pcs[b])
  {
    forall b | b in s.pcs && b != a && b.key == a.key
      ensures PcInv(Act(s.cells[a.key], s.pcs[a], ok).0, s.pcs[b])
    {
      Rivals(s, a, b);
      ActOther(s.cells[a.key], s.pcs[a], ok, s.pcs[b]);
    }
  }

  lemma MoveInv(s: State, a: Actor, ok: bool)
    requires Inv(s) && Enabled(s, Move(a, ok))
    ensures Inv(Next(s, Move(a, ok)))
  {
    var c, p := s.cells[a.key], s.pcs[a];
    var (c', q) := Act(c, p, ok);
    ActLock(c, p, ok);
    PutHolder(s, a, c', q);
    if p.CPeek? {
      SoleCleaner(s, a);
    }
    ActHome(c, p, ok, Holder(s, a.key), Holder(Put(s, a, c', q), a.key));
    ActJob(c, p, ok);
    MoveOthers(s, a, ok);
    PutInv(s, a, c', q);
  }

  /** Actors that hold no lock yet and may join: they are new and know what they need. */
  ghost predicate Joinable(s: State, team: map<Actor, Pc>) {
    forall a :: a in team ==>
      && a !in s.pcs && a.key in s.cells
      && !Exclusive(team[a]) && !Shared(team[a])
      && PcInv(s.cells[a.key], team[a])
      && (CleanupActor(team[a]) ==> s.cells[a.key].cleaner == Some(a))
  }

  lemma JoinLock(s: State, team: map<Actor, Pc>)
    requires LockInv(s) && Joinable(s, team)
    ensures LockInv(s.(pcs := s.pcs + team))
    ensures forall k :: k in s.cells ==> Holder(s.(pcs := s.pcs + team), k) == Holder(s, k)
  {
    hide PcInv, Home, WipeJob, ReleaseJob, CleanupActor;
    var s' := s.(pcs := s.pcs + team);
    forall a | a in s'.pcs
      ensures a.key in s'.cells
      ensures Exclusive(s'.pcs[a]) <==> s'.cells[a.key].holder == Some(a)
      ensures Shared(s'.pcs[a]) ==> s'.cells[a.key].holder.None?
    {
      if a in s.pcs {
        assert a !in team && s'.pcs[a] == s.pcs[a];
      }
    }
    forall k | k in s.cells
      ensures Holder(s', k) == Holder(s, k)
    {
      if s.cells[k].holder.Some? {
        assert s.cells[k].holder.value !in team;
      }
    }
  }

  lemma JoinActors(s: State, team: map<Actor, Pc>)
    requires ActorInv(s) && Joinable(s, team) && forall a :: a in team ==> a.id !in s.calls
    ensures ActorInv(s.(pcs := s.pcs + team))
  {
    hide PcInv, Home, WipeJob, ReleaseJob, CleanupActor, Exclusive, Shared;
    var s' := s.(pcs := s.pcs + team);
    forall a | a in s'.pcs
      ensures PcInv(s'.cells[a.key], s'.pcs[a])
    {
      if a in s.pcs {
        assert a !in team && s'.pcs[a] == s.pcs[a];
      }
    }
  }

  lemma JoinInv(s: State, team: map<Actor, Pc>)
    requires Inv(s) && Joinable(s, team) && forall a :: a in team ==> a.id !in s.calls
    ensures Inv(s.(pcs := s.pcs + team))
  {
    hide PcInv, Home, LockInv, ActorInv, Joinable;
    JoinLock(s, team);
    JoinActors(s, team);
  }

  lemma SpawnInv(s: State, a: Actor, p: Pc)
    requires Inv(s) && NewActor(s, a) && PcInv(s.cells[a.key], p) && !Exclusive(p) && !Shared(p) && !CleanupActor(p)
    ensures Inv(s.(pcs := s.pcs[a := p]))
  {
    assert s.pcs[a := p] == s.pcs + map[a := p];
    JoinInv(s, map[a := p]);
  }

  /** The actors of one call: one for every key of its snapshot. */
  function Team(call: nat, snapshot: set<nat>): map<Actor, Pc> {
    map k | k in snapshot :: Actor(call, k) := TryPeek
  }

  lemma TeamJoins(s: State, call: nat, snapshot: set<nat>)
    requires Inv(s) && Enabled(s, WipeAll(call)) && forall k :: k in snapshot ==> k in s.cells
    ensures Joinable(s, Team(call, snapshot))
    ensures forall a :: a in Team(call, snapshot) ==> a.id == call && Team(call, snapshot)[a] == TryPeek
    ensures forall k :: k in snapshot ==> Actor(call, k) in Team(call, snapshot)
  {
    hide Inv, Home, Act;
  }

  lemma WipeAllInv(s: State, call: nat)
    requires Inv(s) && Enabled(s, WipeAll(call))
    ensures Inv(Next(s, WipeAll(call)))
  {
    hide Inv, NoReaders, TakesLock, Team, Joinable;
    var snapshot := set k | k in s.cells && InEither(s.cells[k]);
    var team := Team(call, snapshot);
    TeamJoins(s, call, snapshot);
    JoinInv(s, team);
    RecordCall(s.(pcs := s.pcs + team), call, snapshot);
  }

  lemma RecordCall(s: State, call: nat, snapshot: set<nat>)
    requires Inv(s) && call !in s.calls
    requires forall a :: a in s.pcs && a.id == call ==> s.pcs[a] == TryPeek
    requires forall k :: k in snapshot ==> Actor(call, k) in s.pcs
    ensures Inv(s.(calls := s.calls[call := snapshot]))
  {
    hide PcInv, Home, Exclusive, Shared;
    var s' := s.(calls := s.calls[call := snapshot]);
    assert LockInv(s');
    forall k | k in s.cells
      ensures Holder(s', k) == Holder(s, k)
    {
    }
  }

  lemma RecordReleaser(s: State, a: Actor)
    requires Inv(s) && a in s.pcs && ReleaseJob(s.pcs[a])
    ensures Inv(s.(releasers := s.releasers + {a}))
  {
    hide PcInv, Home, Exclusive, Shared, ReleaseJob, WipeJob;
    var s' := s.(releasers := s.releasers + {a});
    assert LockInv(s');
    forall k | k in s.cells
      ensures Holder(s', k) == Holder(s, k)
    {
    }
  }

  lemma DestroyInv(s: State, a: Actor)
    requires Inv(s) && Enabled(s, Destroy(a))
    ensures Inv(Next(s, Destroy(a)))
  {
    hide Inv;
    SpawnInv(s, a, DLock);
    RecordReleaser(s.(pcs := s.pcs[a := DLock]), a);
  }

  lemma CutOff(c: Cell, p: Pc, a: Actor)
    requires !OwnerActor(p)
    ensures PcInv(c, p) ==> PcInv(c.(cleaner := Some(a)), p)
    ensures Home(c, p) ==> Home(c.(cleaner := Some(a)), p)
  {
  }

  /** The last handle of the key of `a` is gone. */
  ghost function Unreachable(s: State, a: Actor): State
    requires a.key in s.cells
  {
    s.(cells := s.cells[a.key := s.cells[a.key].(cleaner := Some(a))])
  }

  /** Losing the last handle changes nothing for the actors that are left. */
  lemma UnreachableInv(s: State, a: Actor)
    requires Inv(s) && a.key in s.cells && s.cells[a.key].cleaner.None?
    requires forall b :: b in s.pcs && b.key == a.key ==> !OwnerActor(s.pcs[b])
    ensures Inv(Unreachable(s, a))
  {
    UnreachableActors(s, a);
    UnreachableHome(s, a);
  }

  lemma UnreachableHome(s: State, a: Actor)
    requires LockInv(s) && HomeInv(s) && a.key in s.cells
    requires !OwnerActor(Holder(s, a.key))
    ensures LockInv(Unreachable(s, a)) && HomeInv(Unreachable(s, a))
  {
    hide PcInv, Home, LockInv, OwnerActor, Holder;
    UnreachableLock(s, a);
    CutOff(s.cells[a.key], Holder(s, a.key), a);
  }

  lemma UnreachableLock(s: State, a: Actor)
    requires LockInv(s) && a.key in s.cells
    ensures LockInv(Unreachable(s, a)) && forall j :: j in s.cells ==> Holder(Unreachable(s, a), j) == Holder(s, j)
  {
    hide Exclusive, Shared;
  }

  lemma UnreachableActors(s: State, a: Actor)
    requires Inv(s) && a.key in s.cells && s.cells[a.key].cleaner.None?
    requires forall b :: b in s.pcs && b.key == a.key ==> !OwnerActor(s.pcs[b])
    ensures ActorInv(Unreachable(s, a))
  {
    hide PcInv, Home, LockInv, HomeInv, OwnerActor, WipeJob, ReleaseJob, CleanupActor;
    forall b | b in s.pcs && b.key == a.key
      ensures PcInv(s.cells[a.key].(cleaner := Some(a)), s.pcs[b]) && !CleanupActor(s.pcs[b])
    {
      CutOff(s.cells[a.key], s.pcs[b], a);
    }
  }

  lemma CleanupJoins(s: State, a: Actor)
    requires Inv(s) && a !in s.pcs && a.id !in s.calls && a.key in s.cells && s.cells[a.key].cleaner == Some(a)
    ensures Inv(s.(pcs := s.pcs[a := CPeek]))
  {
    hide Inv;
    assert s.pcs[a := CPeek] == s.pcs + map[a := CPeek];
    JoinInv(s, map[a := CPeek]);
  }

  lemma CleanupInv(s: State, a: Actor)
    requires Inv(s) && Enabled(s, Cleanup(a))
    ensures Inv(Next(s, Cleanup(a)))
  {
    hide Inv;
    UnreachableInv(s, a);
    CleanupJoins(Unreachable(s, a), a);
    RecordReleaser(Unreachable(s, a).(pcs := s.pcs[a := CPeek]), a);
  }

  /** A key never minted before joins with its first cell. */
  lemma FreshLock(s: State, key: nat, c: Cell)
    requires LockInv(s) && key !in s.cells && c.holder.None?
    ensures
      var s' := s.(minted := key, cells := s.cells[key := c]);
      LockInv(s') && forall k :: k in s.cells ==> Holder(s', k) == Holder(s, k)
  {
    hide Exclusive, Shared;
  }

  lemma FreshActors(s: State, key: nat, c: Cell)
    requires ActorInv(s) && key !in s.cells
    ensures ActorInv(s.(minted := key, cells := s.cells[key := c]))
  {
    hide PcInv, WipeJob, ReleaseJob, CleanupActor;
  }

  lemma FreshHome(s: State, key: nat, c: Cell)
    requires LockInv(s) && HomeInv(s) && key == s.minted + 1 && key !in s.cells && c.holder.None? && Home(c, Done(Other))
    ensures HomeInv(s.(minted := key, cells := s.cells[key := c]))
  {
    hide Home, LockInv;
    FreshLock(s, key, c);
  }

  lemma RegisterInv(s: State, lock: nat, canary: nat)
    requires Inv(s) && Enabled(s, Register(lock, canary))
    ensures Inv(Next(s, Register(lock, canary)))
  {
    hide LockInv, ActorInv;
    var key := s.minted + 1;
    var c := Cell(Some(Entry(lock, canary)), None, lock, canary, true, 0, false, true, false, None, None);
    assert key !in s.cells;
    FreshLock(s, key, c);
    FreshActors(s, key, c);
    FreshHome(s, key, c);
  }

  lemma StepInv(s: State, st: Step)
    requires Inv(s) && Enabled(s, st)
    ensures Inv(Next(s, st))
  {
    match st
    case Register(lock, canary) => RegisterInv(s, lock, canary);
    case WipeAll(call) => WipeAllInv(s, call);
    case Destroy(a) => DestroyInv(s, a);
    case Access(a, shared) => SpawnInv(s, a, ALock(shared));
    case Cleanup(a) => CleanupInv(s, a);
    case Move(a, ok) => MoveInv(s, a, ok);
  }

  lemma {:induction false} RunInv(s: State, steps: seq<Step>)
    requires Inv(s)
    ensures Inv(Run(s, steps))
    decreases |steps|
  {
    if steps == [] {
    } else {
      if Enabled(s, steps[0]) {
        StepInv(s, steps[0]);
        RunInv(Next(s, steps[0]), steps[1..]);
      } else {
        RunInv(s, steps[1..]);
      }
    }
  }

  // ---------------------------------------------------------------------------
  // What every interleaving guarantees
  // ---------------------------------------------------------------------------

  ghost predicate Reachable(s: State) { exists steps :: s == Run(Init(), steps) }

  lemma ReachableInv(s: State)
    requires Reachable(s)
    ensures Inv(s)
  {
    var steps :| s == Run(Init(), steps);
    InitInv();
    RunInv(Init(), steps);
  }

  /** Every registered mapping that still exists is in exactly one of the two sets, or
      with one releaser that holds the region's lock exclusively, and its owner still has
      its reference. It has been unmapped or retired once when it is gone and never before. */
  lemma OneHome(s: State, k: nat)
    requires Reachable(s) && k in s.cells
    ensures var c := s.cells[k];
      && !(c.live.Some? && c.wiped.Some?)
      && (InEither(c) ==> c.mapped)
      && (c.mapped && !InEither(c) ==>
            c.holder.Some? && c.holder.value.key == k && c.holder.value in s.pcs && s.pcs[c.holder.value].Freeing?)
      && c.releases == (if c.mapped then 0 else 1)
      && (c.ownerGone ==> !c.mapped)
    ensures forall a :: a in s.pcs && a.key == k && s.pcs[a].Freeing? ==>
      s.cells[k].mapped && !InEither(s.cells[k]) && s.cells[k].holder == Some(a)
  {
    ReachableInv(s);
  }

  lemma {:induction false} ReleasersStay(s: State, steps: seq<Step>, a: Actor)
    requires a in s.releasers
    ensures a in Run(s, steps).releasers
    decreases |steps|
  {
    if steps == [] {
    } else if Enabled(s, steps[0]) {
      ReleasersStay(Next(s, steps[0]), steps[1..], a);
    } else {
      ReleasersStay(s, steps[1..], a);
    }
  }

  lemma ReturnedReleased(s: State, a: Actor)
    requires Inv(s) && a in s.releasers
    ensures a in s.pcs && a.key in s.cells
    ensures s.pcs[a].Done? ==> !s.cells[a.key].mapped && s.cells[a.key].releases == 1 && !InEither(s.cells[a.key])
  {
    assert ReleaseJob(s.pcs[a]) && PcInv(s.cells[a.key], s.pcs[a]);
    assert Home(s.cells[a.key], Holder(s, a.key));
  }

  /** No mapping is stranded. Whatever ran before and whatever runs beside it, a call of
      Destroy, or the cleanup of a key, has returned only when the mapping has been
      released, and released once. */
  lemma NeverStranded(s: State, call: Step, a: Actor, steps: seq<Step>)
    requires Reachable(s) && Enabled(s, call) && (call == Destroy(a) || call == Cleanup(a))
    ensures var t := Run(Next(s, call), steps);
      && a in t.pcs && a.key in t.cells
      && (t.pcs[a].Done? ==> !t.cells[a.key].mapped && t.cells[a.key].releases == 1 && !InEither(t.cells[a.key]))
  {
    hide Inv, Run, Reachable;
    ReachableInv(s);
    StepInv(s, call);
    RunInv(Next(s, call), steps);
    ReleasersStay(Next(s, call), steps, a);
    ReturnedReleased(Run(Next(s, call), steps), a);
  }

  /** A store never lands outside its mapping or in a region the emergency wipe has
      handled, and a flagged region holds zeros. */
  lemma StoreIsSafe(s: State, a: Actor)
    requires Reachable(s) && a in s.pcs && a.key in s.cells
    ensures s.pcs[a].Using? ==> s.cells[a.key].mapped && !s.cells[a.key].flag && !s.cells[a.key].ownerGone
    ensures s.cells[a.key].flag ==> s.cells[a.key].zero
  {
    ReachableInv(s);
  }

  /** What a finished wipeAllInPlace call has done with each key of its snapshot: the key
      has left the registry; or its region is flagged wiped, zero and out of the live set;
      or this call reported it as skipped, and then, when its lock was let go, it was in
      the live set as it was registered, or it was in the wiped set and already zero. */
  lemma WipeAllResult(s: State, call: nat, k: nat)
    requires Reachable(s) && call in s.calls && k in s.calls[call]
    requires forall j :: j in s.calls[call] && Actor(call, j) in s.pcs ==> s.pcs[Actor(call, j)].Done?
    ensures k in s.cells && Actor(call, k) in s.pcs && s.pcs[Actor(call, k)].Done?
    ensures var c := s.cells[k];
      match s.pcs[Actor(call, k)].o
      case Gone => !InEither(c)
      case Wiped => c.flag && c.zero && c.live.None? && (c.mapped && c.holder.None? ==> c.wiped.Some?)
      case Skipped(live, wiped) =>
        || (live == Some(Entry(c.lock, c.canary)) && wiped.None?)
        || (live.None? && wiped.Some? && wiped.value.lock == c.lock && c.flag && c.zero)
      case _ => false
  {
    ReachableInv(s);
    assert Actor(call, k) in s.pcs;
    assert WipeJob(s.pcs[Actor(call, k)]);
    assert PcInv(s.cells[k], s.pcs[Actor(call, k)]);
  }

  /** The report of a skipped region is true when it is made: its entries are the ones
      reported, a live one with the layout it was registered with and unflagged. */
  lemma SkipLeavesInPlace(s: State, a: Actor)
    requires Reachable(s) && a in s.pcs && a.key in s.cells
    requires s.pcs[a].Leave? && s.pcs[a].o.Skipped?
    ensures var c := s.cells[a.key];
      && s.pcs[a].o == Skipped(c.live, c.wiped)
      && if c.live.Some? then c.live == Some(Entry(c.lock, c.canary)) && c.wiped.None? && !c.flag
         else c.wiped.Some? && c.flag && c.zero
  {
    ReachableInv(s);
    assert PcInv(s.cells[a.key], s.pcs[a]);
    assert Home(s.cells[a.key], s.pcs[a]);
  }

  /** One step never undoes a wiped flag, never brings a key back, never remaps. */
  lemma StepForward(s: State, st: Step, k: nat)
    requires Inv(s) && Enabled(s, st) && k in s.cells
    ensures k in Next(s, st).cells
    ensures s.cells[k].flag ==> Next(s, st).cells[k].flag
    ensures !InEither(s.cells[k]) ==> !InEither(Next(s, st).cells[k])
    ensures !s.cells[k].mapped ==> !Next(s, st).cells[k].mapped
  {
    if st.Move? && st.a.key == k {
      assert PcInv(s.cells[k], s.pcs[st.a]);
      ActForward(s.cells[k], s.pcs[st.a], st.ok);
    }
  }

  lemma ActForward(c: Cell, p: Pc, ok: bool)
    requires PcInv(c, p)
    ensures c.flag ==> Act(c, p, ok).0.flag
    ensures !InEither(c) ==> !InEither(Act(c, p, ok).0)
    ensures !c.mapped ==> !Act(c, p, ok).0.mapped
  {
  }

  /** Over any continuation: a wiped region stays wiped and zero, whoever runs; a key that
      has left the registry stays out, and an unmapped region stays unmapped. */
  lemma {:induction false} WipedForGood(s: State, steps: seq<Step>, k: nat)
    requires Inv(s) && k in s.cells
    ensures k in Run(s, steps).cells
    ensures s.cells[k].flag ==> Run(s, steps).cells[k].flag && Run(s, steps).cells[k].zero
    ensures !InEither(s.cells[k]) ==> !InEither(Run(s, steps).cells[k])
    ensures !s.cells[k].mapped ==> !Run(s, steps).cells[k].mapped
    decreases |steps|
  {
    if steps == [] {
    } else {
      if Enabled(s, steps[0]) {
        StepForward(s, steps[0], k);
        StepInv(s, steps[0]);
        WipedForGood(Next(s, steps[0]), steps[1..], k);
      } else {
        WipedForGood(s, steps[1..], k);
      }
    }
  }

  // ---------------------------------------------------------------------------
  // What each call does when it gets the lock and nothing is refused
  // ---------------------------------------------------------------------------

  /** Nobody but `a` holds the lock of its key. */
  ghost predicate Undisturbed(s: State, a: Actor) {
    && LockInv(s) && a in s.pcs && a.key in s.cells
    && (s.cells[a.key].holder.Some? ==> s.cells[a.key].holder == Some(a))
    && forall b :: b in s.pcs && b.key == a.key && b != a ==> !Shared(s.pcs[b])
  }

  /** `n` moves of one actor, with every call in them going through. */
  function Moves(a: Actor, n: nat): seq<Step> { seq(n, _ => Move(a, true)) }

  /** A cell and an actor's control point after one such move, the lock aside. */
  function Moved(x: (Cell, Pc)): (Cell, Pc) { Act(x.0, x.1, true) }

  /** What such a move makes of the actor and its cell. */
  ghost predicate Stands(s: State, a: Actor, x: (Cell, Pc)) {
    a in s.pcs && a.key in s.cells && s.pcs[a] == x.1 && s.cells[a.key] == x.0.(holder := s.cells[a.key].holder)
  }

  /** A move does not look at who holds the lock. */
  lemma ActLockAside(c: Cell, h: Option<Actor>, p: Pc)
    ensures Act(c.(holder := h), p, true) == (Act(c, p, true).0.(holder := h), Act(c, p, true).1)
  {
    hide Act;
    if p.TryPeek? || p.TryLock? || p.WaitPeek? || p.WaitLock? || p.InPass? || p.Wiping? || p.Restore? {
      PassLockAside(c, h, p);
    } else if p.DLock? || p.DTest? || p.DTake? || p.DTakeWiped? || p.Freeing? || p.DClear? {
      DestroyLockAside(c, h, p);
    } else {
      OtherLockAside(c, h, p);
    }
  }

  lemma PassLockAside(c: Cell, h: Option<Actor>, p: Pc)
    requires p.TryPeek? || p.TryLock? || p.WaitPeek? || p.WaitLock? || p.InPass? || p.Wiping? || p.Restore?
    ensures Act(c.(holder := h), p, true) == (Act(c, p, true).0.(holder := h), Act(c, p, true).1)
  {
  }

  lemma DestroyLockAside(c: Cell, h: Option<Actor>, p: Pc)
    requires p.DLock? || p.DTest? || p.DTake? || p.DTakeWiped? || p.Freeing? || p.DClear?
    ensures Act(c.(holder := h), p, true) == (Act(c, p, true).0.(holder := h), Act(c, p, true).1)
  {
  }

  lemma OtherLockAside(c: Cell, h: Option<Actor>, p: Pc)
    requires p.CPeek? || p.CLock? || p.CIn? || p.ALock? || p.ATest? || p.Using? || p.Leave? || p.Done?
    ensures Act(c.(holder := h), p, true) == (Act(c, p, true).0.(holder := h), Act(c, p, true).1)
  {
  }

  lemma OwnReader(s: State, a: Actor)
    requires Undisturbed(s, a) && (TakesLock(s.pcs[a], true, false) || TakesLock(s.pcs[a], true, true))
    ensures s.cells[a.key].holder.None? && NoReaders(s, a.key)
  {
  }

  lemma UndisturbedStep(s: State, a: Actor)
    requires Undisturbed(s, a) && !s.pcs[a].Done?
    ensures Enabled(s, Move(a, true)) && Undisturbed(Next(s, Move(a, true)), a)
  {
    hide Act, LockInv, TakesLock;
    if TakesLock(s.pcs[a], true, false) || TakesLock(s.pcs[a], true, true) {
      OwnReader(s, a);
    }
    var (c', q) := Act(s.cells[a.key], s.pcs[a], true);
    ActLock(s.cells[a.key], s.pcs[a], true);
    PutLock(s, a, c', q);
  }

  lemma SoloStep(s: State, a: Actor, x: (Cell, Pc))
    requires Undisturbed(s, a) && Stands(s, a, x) && !x.1.Done?
    ensures Enabled(s, Move(a, true)) && Undisturbed(Next(s, Move(a, true)), a) && Stands(Next(s, Move(a, true)), a, Moved(x))
  {
    hide Act, LockInv, Undisturbed;
    UndisturbedStep(s, a);
    ActLockAside(x.0, s.cells[a.key].holder, x.1);
  }

  /** The first move of several. */
  lemma MovesFirst(s: State, a: Actor, n: nat)
    requires n > 0 && Enabled(s, Move(a, true))
    ensures Run(s, Moves(a, n)) == Run(Next(s, Move(a, true)), Moves(a, n - 1))
  {
    assert Moves(a, n)[1..] == Moves(a, n - 1);
  }

  lemma MovesNone(s: State, a: Actor)
    ensures Run(s, Moves(a, 0)) == s
  {
  }

  function After(x: (Cell, Pc), n: nat): (Cell, Pc)
    decreases n
  {
    if n == 0 then x else After(Moved(x), n - 1)
  }

  /** No move before the n-th finds the actor done. */
  predicate Busy(x: (Cell, Pc), n: nat)
    decreases n
  {
    n == 0 || (!x.1.Done? && Busy(Moved(x), n - 1))
  }

  /** The moves of one actor, undisturbed, are its own steps and nobody else's. */
  lemma {:induction false} SoloRun(s: State, a: Actor, x: (Cell, Pc), n: nat)
    requires Undisturbed(s, a) && Stands(s, a, x) && Busy(x, n)
    ensures var t := Run(s, Moves(a, n)); Stands(t, a, After(x, n)) && Undisturbed(t, a) && Elsewhere(s, t, a)
    decreases n
  {
    hide Undisturbed, Stands, Moved, Run, Enabled, Next, Elsewhere;
    ElsewhereNone(s, a);
    if n == 0 {
      MovesNone(s, a);
    } else {
      StandsAt(s, a, x);
      SoloStep(s, a, x);
      SoloRun(Next(s, Move(a, true)), a, Moved(x), n - 1);
      MovesFirst(s, a, n);
      ElsewhereStep(s, a, Run(Next(s, Move(a, true)), Moves(a, n - 1)));
    }
  }

  /** The other actors and the other keys are as they were. */
  ghost predicate Elsewhere(s: State, t: State, a: Actor) {
    && s.pcs.Keys == t.pcs.Keys && s.cells.Keys == t.cells.Keys && s.calls == t.calls
    && (forall b :: b in s.pcs && b != a ==> t.pcs[b] == s.pcs[b])
    && (forall k :: k in s.cells && k != a.key ==> t.cells[k] == s.cells[k])
  }

  lemma ElsewhereNone(s: State, a: Actor)
    ensures Elsewhere(s, s, a)
  {
  }

  lemma ElsewhereStep(s: State, a: Actor, t: State)
    requires Enabled(s, Move(a, true)) && Elsewhere(Next(s, Move(a, true)), t, a)
    ensures Elsewhere(s, t, a)
  {
    hide Act;
  }

  lemma StandsAt(s: State, a: Actor, x: (Cell, Pc))
    requires Stands(s, a, x)
    ensures a in s.pcs && s.pcs[a] == x.1
  {
  }

  /** A wipe job whose region is in a set and whose calls go through wipes it: zeros, the flag, and the entry in the wiped
      set with its layout dropped. */
  lemma WipeJobWipes(s: State, a: Actor)
    requires Reachable(s) && Undisturbed(s, a) && s.pcs[a] == TryPeek && InEither(s.cells[a.key])
    ensures var t := Run(s, Moves(a, 5));
      && a in t.pcs && t.pcs[a] == Done(Wiped) && a.key in t.cells
      && t.cells[a.key].flag && t.cells[a.key].zero && t.cells[a.key].mapped && t.cells[a.key].live.None?
      && t.cells[a.key].wiped.Some? && t.cells[a.key].wiped.value.lock == s.cells[a.key].lock
      && (s.cells[a.key].live.Some? ==> t.cells[a.key].wiped.value.canary == 0)
  {
    hide Run, Moves, Reachable, LockInv;
    var c := s.cells[a.key];
    CellHome(s, a.key);
    WipeCell(c);
    SoloRun(s, a, (c, TryPeek), 5);
  }

  /** The same of a job that waits for the lock because its first try failed; and a job that finds its region in neither
      set is done at once. */
  lemma WaitingJobWipes(s: State, a: Actor)
    requires Reachable(s) && Undisturbed(s, a) && (s.pcs[a] == WaitPeek || (s.pcs[a] == TryPeek && !InEither(s.cells[a.key])))
    ensures InEither(s.cells[a.key]) ==>
      var t := Run(s, Moves(a, 5));
      && a in t.pcs && t.pcs[a] == Done(Wiped) && a.key in t.cells
      && t.cells[a.key].flag && t.cells[a.key].zero && t.cells[a.key].mapped && t.cells[a.key].live.None?
      && t.cells[a.key].wiped.Some? && t.cells[a.key].wiped.value.lock == s.cells[a.key].lock
    ensures !InEither(s.cells[a.key]) ==> var t := Run(s, Moves(a, 1)); a in t.pcs && t.pcs[a] == Done(Gone) && t.cells == s.cells
  {
    hide Run, Moves, Reachable, LockInv, Act;
    var c := s.cells[a.key];
    if InEither(c) {
      CellHome(s, a.key);
      WaitCell(c);
      SoloRun(s, a, (c, WaitPeek), 5);
    } else {
      GoneCell(c, s.pcs[a]);
      SoloRun(s, a, (c, s.pcs[a]), 1);
      GoneStep(s, a);
    }
  }

  lemma WaitCell(c: Cell)
    requires InEither(c) && (c.live.Some? ==> c.wiped.None? && c.live.value.lock == c.lock) && (c.wiped.Some? ==> c.wiped.value.lock == c.lock)
    ensures Busy((c, WaitPeek), 5)
    ensures var (c', q) := After((c, WaitPeek), 5);
      && q == Done(Wiped) && c'.flag && c'.zero && c'.mapped == c.mapped && c'.live.None?
      && c'.wiped.Some? && c'.wiped.value.lock == c.lock
  {
    hide After, Busy;
    var x1 := One((c, WaitPeek), 5);
    var x2 := One(x1, 4);
    var x3 := One(x2, 3);
    var x4 := One(x3, 2);
    var x5 := One(x4, 1);
  }

  lemma GoneCell(c: Cell, p: Pc)
    requires (p == TryPeek || p == WaitPeek) && !InEither(c)
    ensures Busy((c, p), 1) && After((c, p), 1) == (c, Done(Gone))
  {
    var x := One((c, p), 1);
  }

  lemma GoneStep(s: State, a: Actor)
    requires Undisturbed(s, a) && (s.pcs[a] == TryPeek || s.pcs[a] == WaitPeek) && !InEither(s.cells[a.key])
    ensures Run(s, Moves(a, 1)).cells == s.cells
  {
    hide LockInv, Run, Moves;
    MovesFirst(s, a, 1);
    MovesNone(Next(s, Move(a, true)), a);
    assert Next(s, Move(a, true)).cells == s.cells[a.key := s.cells[a.key]];
  }

  /** What the invariant says of a cell. */
  lemma CellHome(s: State, k: nat)
    requires Reachable(s) && k in s.cells
    ensures var c := s.cells[k];
      && (c.live.Some? ==> c.wiped.None? && c.live.value == Entry(c.lock, c.canary))
      && (c.wiped.Some? ==> c.wiped.value.lock == c.lock)
      && (InEither(c) ==> c.mapped)
      && (c.holder.None? && c.mapped ==> InEither(c))
      && (c.holder.None? && !c.mapped && c.cleaner.None? ==> c.ownerGone)
      && (c.ownerGone ==> !c.mapped)
      && c.releases == (if c.mapped then 0 else 1)
  {
    ReachableInv(s);
    assert Home(s.cells[k], Holder(s, k));
  }

  lemma WipeCell(c: Cell)
    requires InEither(c) && (c.live.Some? ==> c.wiped.None? && c.live.value.lock == c.lock) && (c.wiped.Some? ==> c.wiped.value.lock == c.lock)
    ensures Busy((c, TryPeek), 5)
    ensures var (c', q) := After((c, TryPeek), 5);
      && q == Done(Wiped) && c'.flag && c'.zero && c'.mapped == c.mapped && c'.live.None?
      && c'.wiped.Some? && c'.wiped.value.lock == c.lock && (c.live.Some? ==> c'.wiped.value.canary == 0)
  {
    hide After, Busy;
    var x := (c, TryPeek);
    var x1 := One(x, 5);
    var x2 := One(x1, 4);
    var x3 := One(x2, 3);
    var x4 := One(x3, 2);
    var x5 := One(x4, 1);
  }

  /** One move out of several. */
  lemma One(x: (Cell, Pc), n: nat) returns (y: (Cell, Pc))
    requires n > 0 && !x.1.Done?
    ensures y == Moved(x) && After(x, n) == After(y, n - 1) && (Busy(x, n) <==> Busy(y, n - 1)) && After(y, 0) == y && Busy(y, 0)
  {
    y := Moved(x);
  }

  /** The jobs of one call, one after the other. */
  lemma {:induction false} WipeKeys(s: State, call: nat, todo: set<nat>) returns (steps: seq<Step>)
    requires Reachable(s) && AllFree(s)
    requires forall k :: k in todo ==> k in s.cells && Actor(call, k) in s.pcs && s.pcs[Actor(call, k)] == TryPeek && InEither(s.cells[k])
    ensures forall i :: 0 <= i < |steps| ==> steps[i].Move? && steps[i].ok && steps[i].a.id == call
    ensures var t := Run(s, steps);
      && s.pcs.Keys == t.pcs.Keys && s.cells.Keys == t.cells.Keys && s.calls == t.calls
      && (forall k :: k in s.cells && k !in todo ==> t.cells[k] == s.cells[k])
      && (forall b :: b in s.pcs && !(b.id == call && b.key in todo) ==> t.pcs[b] == s.pcs[b])
      && (forall k :: k in todo ==> t.pcs[Actor(call, k)] == Done(Wiped) && IsWiped(t.cells[k]))
    decreases todo
  {
    hide Reachable, AllFree, Run, Moves, Undisturbed, IsWiped;
    if todo == {} {
      steps := [];
      RunNothing(s);
    } else {
      var k :| k in todo;
      var a := Actor(call, k);
      var t := Run(s, Moves(a, 5));
      WipeOne(s, a);
      var more := WipeKeys(t, call, todo - {k});
      steps := Moves(a, 5) + more;
      RunJoin(s, Moves(a, 5), more);
      MovesAre(a, 5);
    }
  }

  lemma RunNothing(s: State)
    ensures Run(s, []) == s
  {
  }

  lemma MovesAre(a: Actor, n: nat)
    ensures |Moves(a, n)| == n && forall i :: 0 <= i < n ==> Moves(a, n)[i] == Move(a, true)
  {
  }

  ghost predicate IsWiped(c: Cell) {
    c.flag && c.zero && c.mapped && c.live.None? && c.wiped.Some? && c.wiped.value.lock == c.lock
  }

  /** No lock is held or shared. */
  ghost predicate AllFree(s: State) {
    (forall k :: k in s.cells ==> s.cells[k].holder.None?) && forall b :: b in s.pcs ==> !Shared(s.pcs[b])
  }

  lemma WipeOne(s: State, a: Actor)
    requires Reachable(s) && AllFree(s) && a in s.pcs && a.key in s.cells && s.pcs[a] == TryPeek && InEither(s.cells[a.key])
    ensures var t := Run(s, Moves(a, 5));
      && Reachable(t) && AllFree(t) && Elsewhere(s, t, a)
      && a in t.pcs && t.pcs[a] == Done(Wiped) && a.key in t.cells && IsWiped(t.cells[a.key])
  {
    hide Run, Moves, Reachable;
    ReachableInv(s);
    ReachableRun(s, Moves(a, 5));
    WipeJobWipes(s, a);
    CellHome(s, a.key);
    WipeCell(s.cells[a.key]);
    SoloRun(s, a, (s.cells[a.key], TryPeek), 5);
    LockGone(s, Run(s, Moves(a, 5)), a);
    CellHome(Run(s, Moves(a, 5)), a.key);
  }

  lemma LockGone(s: State, t: State, a: Actor)
    requires AllFree(s) && Elsewhere(s, t, a) && Undisturbed(t, a) && t.pcs[a].Done?
    ensures AllFree(t)
  {
  }

  lemma {:induction false} RunJoin(s: State, a: seq<Step>, b: seq<Step>)
    ensures Run(s, a + b) == Run(Run(s, a), b)
    decreases |a|
  {
    hide Enabled, Next;
    if a == [] {
      assert a + b == b;
    } else {
      assert (a + b)[1..] == a[1..] + b;
      RunJoin(if Enabled(s, a[0]) then Next(s, a[0]) else s, a[1..], b);
    }
  }

  lemma ReachableRun(s: State, steps: seq<Step>)
    requires Reachable(s)
    ensures Reachable(Run(s, steps))
  {
    hide Run;
    var before :| s == Run(Init(), before);
    RunJoin(Init(), before, steps);
  }

  /** A call of wipeAllInPlace takes up every region in either set, and with the locks free and no call refused it wipes
      them all: none is passed over. */
  lemma WipeAllWipes(s: State, call: nat) returns (steps: seq<Step>)
    requires Reachable(s) && AllFree(s) && Enabled(s, WipeAll(call))
    ensures forall i :: 0 <= i < |steps| ==> steps[i].Move? && steps[i].ok && steps[i].a.id == call
    ensures var t := Run(Next(s, WipeAll(call)), steps);
      forall k :: k in s.cells && InEither(s.cells[k]) ==>
        && call in t.calls && k in t.calls[call] && k in t.cells && IsWiped(t.cells[k])
        && Actor(call, k) in t.pcs && t.pcs[Actor(call, k)] == Done(Wiped)
  {
    hide Reachable, Run, IsWiped;
    var snapshot := set k | k in s.cells && InEither(s.cells[k]);
    var s' := Next(s, WipeAll(call));
    ReachableStep(s, WipeAll(call));
    TeamStarts(s, call, snapshot);
    steps := WipeKeys(s', call, snapshot);
  }

  lemma ReachableStep(s: State, st: Step)
    requires Reachable(s) && Enabled(s, st)
    ensures Reachable(Next(s, st))
  {
    hide Enabled, Next, Reachable;
    ReachableRun(s, [st]);
    assert Run(s, [st]) == Run(Next(s, st), [st][1..]);
  }

  lemma TeamStarts(s: State, call: nat, snapshot: set<nat>)
    requires Enabled(s, WipeAll(call)) && AllFree(s) && snapshot == set k | k in s.cells && InEither(s.cells[k])
    ensures var s' := Next(s, WipeAll(call));
      && AllFree(s') && s'.cells == s.cells && call in s'.calls && s'.calls[call] == snapshot
      && forall k :: k in snapshot ==> Actor(call, k) in s'.pcs && s'.pcs[Actor(call, k)] == TryPeek
  {
  }

  /** Destroy of a region its owner still has wipes it, releases it and lets the reference go; of one already destroyed
      it does nothing. */
  lemma DestroyReleases(s: State, a: Actor)
    requires Reachable(s) && Undisturbed(s, a) && s.pcs[a] == DLock
    ensures var c := s.cells[a.key]; var t := Run(s, Moves(a, DestroyMoves(c)));
      && a in t.pcs && t.pcs[a] == Done(Released) && a.key in t.cells
      && (if c.ownerGone then t.cells[a.key] == c.(holder := t.cells[a.key].holder)
          else !t.cells[a.key].mapped && t.cells[a.key].zero && t.cells[a.key].ownerGone && t.cells[a.key].releases == 1)
  {
    hide Run, Moves, Reachable, Act;
    var c := s.cells[a.key];
    ReachableInv(s);
    CellHome(s, a.key);
    OwnerHere(s, a);
    DestroyCell(c);
    SoloRun(s, a, (c, DLock), DestroyMoves(c));
  }

  /** While the owner can call Destroy and the lock is free, its mapping is in a set unless it is gone. */
  lemma OwnerHere(s: State, a: Actor)
    requires Inv(s) && Undisturbed(s, a) && s.pcs[a] == DLock
    ensures var c := s.cells[a.key]; c.holder.None? && c.cleaner.None? && (!c.ownerGone ==> InEither(c) && c.mapped && c.releases == 0)
  {
    var c := s.cells[a.key];
    assert PcInv(c, s.pcs[a]);
    assert Home(c, Holder(s, a.key));
  }

  /** How many moves Destroy makes. */
  function DestroyMoves(c: Cell): nat { if c.ownerGone then 3 else if c.live.Some? then 6 else 7 }

  lemma DestroyCell(c: Cell)
    requires !c.ownerGone ==> InEither(c) && c.releases == 0
    ensures Busy((c, DLock), DestroyMoves(c))
    ensures var (c', q) := After((c, DLock), DestroyMoves(c));
      && q == Done(Released)
      && (if c.ownerGone then c' == c else !c'.mapped && c'.zero && c'.ownerGone && c'.releases == 1)
  {
    hide After, Busy;
    var n := DestroyMoves(c);
    var x := One((c, DLock), n);
    x := One(x, n - 1);
    if c.ownerGone {
      x := One(x, 1);
    } else {
      TakeCell(c);
    }
  }

  lemma TakeCell(c: Cell)
    requires InEither(c) && c.releases == 0
    ensures var n := if c.live.Some? then 4 else 5; Busy((c, DTake), n) && FreedAt(After((c, DTake), n))
  {
    hide After, Busy, FreedAt;
    if c.live.Some? {
      var x := One((c, DTake), 4);
      FreeCell(c.(live := None));
    } else {
      var x := One((c, DTake), 5);
      x := One(x, 4);
      FreeCell(c.(wiped := None));
    }
  }

  lemma FreeCell(c: Cell)
    requires c.releases == 0
    ensures Busy((c, Freeing(true)), 3) && FreedAt(After((c, Freeing(true)), 3))
  {
    hide After, Busy;
    var x := One((c, Freeing(true)), 3);
    x := One(x, 2);
    x := One(x, 1);
  }

  /** Destroy has ended with the region wiped, released once and forgotten. */
  predicate FreedAt(x: (Cell, Pc)) {
    x.1 == Done(Released) && !x.0.mapped && x.0.zero && x.0.ownerGone && x.0.releases == 1
  }

  /** The cleanup of an owner that was never destroyed wipes and releases the mapping. */
  lemma CleanupReleases(s: State, a: Actor)
    requires Reachable(s) && Undisturbed(s, a) && s.pcs[a] == CPeek && InEither(s.cells[a.key])
    ensures var t := Run(s, Moves(a, 5));
      && a in t.pcs && t.pcs[a] == Done(Released) && a.key in t.cells
      && !t.cells[a.key].mapped && t.cells[a.key].zero && t.cells[a.key].releases == 1
  {
    hide Run, Moves, Reachable, Act;
    var c := s.cells[a.key];
    ReachableInv(s);
    CellHome(s, a.key);
    CleanupCell(c);
    SoloRun(s, a, (c, CPeek), 5);
  }

  lemma CleanupCell(c: Cell)
    requires InEither(c) && c.releases == 0 && (c.live.Some? ==> c.wiped.None? && c.live.value.lock == c.lock)
    requires c.wiped.Some? ==> c.wiped.value.lock == c.lock
    ensures Busy((c, CPeek), 5)
    ensures var (c', q) := After((c, CPeek), 5); q == Done(Released) && !c'.mapped && c'.zero && c'.releases == 1
  {
    hide After, Busy;
    var x1 := One((c, CPeek), 5);
    var x2 := One(x1, 4);
    var x3 := One(x2, 3);
    var x4 := One(x3, 2);
    var x5 := One(x4, 1);
  }

  /** An accessor that gets the lock runs exactly when the owner has its reference and the region is not flagged, and what
      it stores is there. */
  lemma AccessRuns(s: State, a: Actor)
    requires Reachable(s) && Undisturbed(s, a) && s.pcs[a].ALock?
    ensures var c, t := s.cells[a.key], Run(s, Moves(a, 2));
      && a in t.pcs && a.key in t.cells
      && t.pcs[a] == (if c.ownerGone || c.flag then Done(Other) else Using(s.pcs[a].shared))
    ensures var c, t := s.cells[a.key], Run(s, Moves(a, 3));
      !c.ownerGone && !c.flag ==> a in t.pcs && t.pcs[a] == Using(s.pcs[a].shared) && a.key in t.cells && !t.cells[a.key].zero
  {
    hide Run, Moves, Reachable, Act;
    var c := s.cells[a.key];
    AccessCell(c, s.pcs[a].shared);
    SoloRun(s, a, (c, s.pcs[a]), 2);
    if !c.ownerGone && !c.flag {
      SoloRun(s, a, (c, s.pcs[a]), 3);
    }
  }

  lemma AccessCell(c: Cell, shared: bool)
    ensures Busy((c, ALock(shared)), 2)
    ensures After((c, ALock(shared)), 2) == (c, if c.ownerGone || c.flag then Done(Other) else Using(shared))
    ensures !c.ownerGone && !c.flag ==>
      Busy((c, ALock(shared)), 3) && After((c, ALock(shared)), 3) == (c.(zero := false), Using(shared))
  {
    hide After, Busy;
    var x := (c, ALock(shared));
    var x1 := One(x, 2);
    var x2 := One(x1, 1);
    if !c.ownerGone && !c.flag {
      x1 := One(x, 3);
      x2 := One(x1, 2);
      var x3 := One(x2, 1);
    }
  }

  /** A registration is filed under a key nobody has had, live, as it was made and over a mapping of its own. */
  lemma RegisterFiles(s: State, lock: nat, canary: nat)
    requires Reachable(s) && Enabled(s, Register(lock, canary))
    ensures var t, k := Next(s, Register(lock, canary)), s.minted + 1;
      && k !in s.cells && k in t.cells && t.minted == k
      && t.cells[k].live == Some(Entry(lock, canary)) && t.cells[k].wiped.None? && t.cells[k].lock == lock && t.cells[k].canary == canary
      && t.cells[k].mapped && !t.cells[k].flag && !t.cells[k].ownerGone && t.cells[k].holder.None? && t.cells[k].cleaner.None?
      && forall j :: j in s.cells ==> j in t.cells && t.cells[j] == s.cells[j]
  {
    hide LockInv, ActorInv, Home;
    ReachableInv(s);
  }

  // ---------------------------------------------------------------------------
  // A region is skipped only when a call was refused
  // ---------------------------------------------------------------------------

  /** On the way to reporting a region as skipped. */
  predicate Skipping(p: Pc) { p.Restore? || ((p.Leave? || p.Done?) && p.o.Skipped?) }

  /** The i-th step is a refused call of the actor at its wiping point. */
  ghost predicate RefusedAt(steps: seq<Step>, a: Actor, i: nat)
    requires i < |steps|
  {
    var s := Run(Init(), steps[..i]);
    steps[i] == Move(a, false) && Enabled(s, steps[i]) && s.pcs[a].Wiping?
  }

  /** In every run: a pass that reports its region as skipped was refused while it was wiping it. */
  lemma {:induction false} SkippedOnlyIfRefused(steps: seq<Step>, a: Actor) returns (i: nat)
    requires var s := Run(Init(), steps); a in s.pcs && Skipping(s.pcs[a])
    ensures i < |steps| && RefusedAt(steps, a, i)
    decreases |steps|
  {
    hide Enabled, Next, Skipping;
    if steps == [] {
      assert false;
    } else {
      var n := |steps| - 1;
      var before, last := steps[..n], steps[n];
      var s := Run(Init(), before);
      assert steps == before + [last];
      RunJoin(Init(), before, [last]);
      RunLast(s, last);
      if a in s.pcs && Skipping(s.pcs[a]) {
        i := SkippedOnlyIfRefused(before, a);
        assert before[..i] == steps[..i];
      } else {
        i := n;
        NewlySkipping(s, last, a);
      }
    }
  }

  lemma RunLast(s: State, st: Step)
    ensures Run(s, [st]) == if Enabled(s, st) then Next(s, st) else s
  {
    hide Enabled, Next;
    assert [st][1..] == [];
  }

  /** Only a refused wipe turns an actor to skipping. */
  lemma NewlySkipping(s: State, st: Step, a: Actor)
    requires !(a in s.pcs && Skipping(s.pcs[a]))
    requires Enabled(s, st) && a in Next(s, st).pcs && Skipping(Next(s, st).pcs[a])
    ensures st == Move(a, false) && a in s.pcs && s.pcs[a].Wiping?
  {
    if st.Move? && st.a == a {
      ActSkipping(s.cells[a.key], s.pcs[a], st.ok);
    }
  }

  lemma ActSkipping(c: Cell, p: Pc, ok: bool)
    ensures Skipping(Act(c, p, ok).1) && !Skipping(p) ==> p.Wiping? && !ok
  {
  }
}
