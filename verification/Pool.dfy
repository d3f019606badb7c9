/** The Argon2 pool of secmem-crypto/argon2_workspace.go as interleaved atomic steps.

The workspaces are 0, 1, ..., and the channel is a queue of those that are free. Derive
looks at the done flag, receives a workspace, works, and sends it back, whatever came of the
work. The first Destroy sets the flag, receives as many workspaces as there are, closes the
channel and destroys them one by one. A step is one critical section, one channel operation
or the destruction of one workspace. */
module Pool {
  import opened Counting

  /** How a call ended. */
  datatype Result = Derived | ErrDestroyed | Destroyed | AlreadyDestroyed

  /** Where a thread is. The comment names the action it takes next. */
  datatype Pc =
    | Idle
    | Checked                      // Derive, past the done flag: receive a workspace
    | Working(ws: nat)             // the derivation on it
    | Returning(ws: nat)           // send it back
    | Collecting(got: seq<nat>)    // Destroy: receive another, or close the channel
    | Wiping(next: nat)            // Destroy: destroy this workspace
    | Ended(r: Result)

  datatype Choice = Derive | Destroy | Go

  datatype State = State(
    free: seq<nat>,            // the channel's contents
    closed: bool,
    done: bool,
    destroyed: seq<nat>,       // how often each workspace was destroyed
    panicked: bool,            // a send on a closed channel, or a second close
    pcs: seq<Pc>)

  /** A pool of `n` workspaces, all free. */
  function Init(n: nat, threads: nat): State {
    State(seq(n, i => i), false, false, seq(n, _ => 0), false, seq(threads, _ => Idle))
  }

  /** A receive waits while the channel is empty and open; a send waits while it is full. */
  predicate Enabled(s: State, capacity: nat, t: nat, c: Choice) {
    && t < |s.pcs|
    && match s.pcs[t]
       case Idle => !c.Go?
       case Checked => c.Go? && (s.free != [] || s.closed)
       case Working(_) => c.Go?
       case Returning(_) => c.Go? && (s.closed || |s.free| < capacity)
       case Collecting(got) => c.Go? && (|got| == |s.destroyed| || s.free != [] || s.closed)
       case Wiping(_) => c.Go?
       case Ended(_) => false
  }

  /** What a step does, and where it leaves the thread. */
  function Act(s: State, p: Pc, c: Choice): (State, Pc) {
    match p
    case Idle =>
      if c.Derive? then (s, if s.done then Ended(ErrDestroyed) else Checked)
      else if s.done then (s, Ended(AlreadyDestroyed))
      else (s.(done := true), Collecting([]))
    case Checked =>
      if s.free != [] then (s.(free := s.free[1..]), Working(s.free[0])) else (s, Ended(ErrDestroyed))
    case Working(ws) => (s, Returning(ws))
    case Returning(ws) =>
      if s.closed then (s.(panicked := true), Ended(Derived)) else (s.(free := s.free + [ws]), Ended(Derived))
    case Collecting(got) =>
      if |got| == |s.destroyed| then (s.(closed := true, panicked := s.panicked || s.closed), Wiping(0))
      else if s.free != [] then (s.(free := s.free[1..]), Collecting(got + [s.free[0]]))
      else (s, Collecting(got))
    case Wiping(i) =>
      if i < |s.destroyed| then (s.(destroyed := s.destroyed[i := s.destroyed[i] + 1]), Wiping(i + 1)) else (s, Ended(Destroyed))
    case Ended(r) => (s, Ended(r))
  }

  function Next(s: State, capacity: nat, t: nat, c: Choice): State
    requires Enabled(s, capacity, t, c)
  {
    var (s', q) := Act(s, s.pcs[t], c);
    s'.(pcs := s.pcs[t := q])
  }

  function Run(s: State, capacity: nat, schedule: seq<(nat, Choice)>): State
    decreases |schedule|
  {
    if schedule == [] then s
    else
      var (t, c) := schedule[0];
      Run(if Enabled(s, capacity, t, c) then Next(s, capacity, t, c) else s, capacity, schedule[1..])
  }

  // ---------------------------------------------------------------------------
  // The invariant
  // ---------------------------------------------------------------------------

  function Occ(q: seq<nat>, w: nat): nat {
    if q == [] then 0 else (if q[0] == w then 1 else 0) + Occ(q[1..], w)
  }

  /** What a thread has of workspace `w`. */
  function InHand(p: Pc, w: nat): nat {
    match p
    case Working(ws) => if ws == w then 1 else 0
    case Returning(ws) => if ws == w then 1 else 0
    case Collecting(got) => Occ(got, w)
    case _ => 0
  }

  ghost function Weight(w: nat): Pc -> nat {
    p => InHand(p, w)
  }

  /** How many workspaces a thread has. */
  function Load(p: Pc): nat {
    match p
    case Working(_) => 1
    case Returning(_) => 1
    case Collecting(got) => |got|
    case _ => 0
  }

  predicate Destroying(p: Pc) { p.Collecting? || p.Wiping? || p == Ended(Destroyed) }

  function Collector(p: Pc): nat { if Destroying(p) then 1 else 0 }

  /** Before the close every workspace is free or with one thread; after it none is anywhere but with Destroy. */
  ghost predicate Inv(s: State) {
    var n := |s.destroyed|;
    && !s.panicked
    && Total(s.pcs, Collector) == (if s.done then 1 else 0)
    && (forall t :: 0 <= t < |s.pcs| ==> PcInv(s, s.pcs[t]))
    && (s.closed ==> s.done && s.free == [] && Total(s.pcs, Load) == 0)
    && (!s.closed ==> |s.free| + Total(s.pcs, Load) == n)
    && (!s.closed ==> forall w :: 0 <= w < n ==> Placed(s, w))
    && (!s.closed ==> forall w :: 0 <= w < n ==> s.destroyed[w] == 0)
    && (s.closed ==> forall w :: 0 <= w < n ==> s.destroyed[w] <= 1)
    && (forall i :: 0 <= i < |s.free| ==> s.free[i] < n)
  }

  /** The workspace is in one place. */
  ghost predicate Placed(s: State, w: nat) {
    Occ(s.free, w) + Total(s.pcs, Weight(w)) == 1
  }

  ghost predicate PcInv(s: State, p: Pc) {
    var n := |s.destroyed|;
    match p
    case Working(ws) => ws < n
    case Returning(ws) => ws < n
    case Collecting(got) => s.done && !s.closed && |got| <= n
    case Wiping(i) => s.closed && i <= n && forall w :: 0 <= w < n ==> s.destroyed[w] == if w < i then 1 else 0
    case Ended(r) =>
      && (r == Destroyed ==> s.closed && forall w :: 0 <= w < n ==> s.destroyed[w] == 1)
      && (r == ErrDestroyed || r == AlreadyDestroyed ==> s.done)
    case _ => true
  }

  lemma InitInv(n: nat, threads: nat)
    ensures Inv(Init(n, threads))
  {
    var s := Init(n, threads);
    TotalNone(s.pcs, Collector);
    TotalNone(s.pcs, Load);
    forall w | 0 <= w < n
      ensures Placed(s, w)
    {
      TotalNone(s.pcs, Weight(w));
      OccOnce(n, w);
    }
  }

  lemma {:induction false} OccSplit(a: seq<nat>, b: seq<nat>, w: nat)
    ensures Occ(a + b, w) == Occ(a, w) + Occ(b, w)
  {
    if a == [] {
      assert a + b == b;
    } else {
      OccSplit(a[1..], b, w);
      assert (a + b)[1..] == a[1..] + b;
    }
  }

  lemma OccOne(a: seq<nat>, x: nat, w: nat)
    ensures Occ(a + [x], w) == Occ(a, w) + if x == w then 1 else 0
  {
    OccSplit(a, [x], w);
    assert [x][1..] == [];
  }

  lemma {:induction false} OccOnce(n: nat, w: nat)
    ensures Occ(seq(n, i => i), w) == if w < n then 1 else 0
  {
    if n == 0 {
    } else {
      OccOnce(n - 1, w);
      OccOne(seq(n - 1, i => i), n - 1, w);
      assert seq(n, i => i) == seq(n - 1, i => i) + [n - 1];
    }
  }

  /** Two calls cannot both be the Destroy that does the work. */
  lemma SoleCollector(s: State, t: nat, u: nat)
    requires Inv(s) && t < |s.pcs| && u < |s.pcs| && t != u && Destroying(s.pcs[t])
    ensures !Destroying(s.pcs[u])
  {
    hide Total, PcInv, Placed;
    if t < u {
      TotalCoversTwo(s.pcs, t, u, Collector);
    } else {
      TotalCoversTwo(s.pcs, u, t, Collector);
    }
  }

  /** Nobody is destroying before the flag is set. */
  lemma NoCollector(s: State, u: nat)
    requires Inv(s) && !s.done && u < |s.pcs|
    ensures !Destroying(s.pcs[u])
  {
    hide Total, PcInv, Placed;
    TotalCovers(s.pcs, u, Collector);
  }

  /** What a call has is accounted for. */
  lemma LoadCovers(s: State, t: nat)
    requires Inv(s) && t < |s.pcs|
    ensures s.closed ==> Load(s.pcs[t]) == 0
    ensures !s.closed ==> |s.free| + Load(s.pcs[t]) <= |s.destroyed|
  {
    hide Total, PcInv, Placed;
    TotalCovers(s.pcs, t, Load);
  }

  /** A step of one thread, as the other threads see it. */
  lemma OthersKeep(s: State, t: nat, c: Choice, u: nat)
    requires Inv(s) && t < |s.pcs| && u < |s.pcs| && t != u && !s.pcs[t].Ended?
    ensures PcInv(Act(s, s.pcs[t], c).0, s.pcs[u])
  {
    hide Total, Placed;
    if Destroying(s.pcs[t]) {
      SoleCollector(s, t, u);
    } else if !s.done {
      NoCollector(s, u);
    }
    assert PcInv(s, s.pcs[t]) && PcInv(s, s.pcs[u]);
  }

  /** A step of one thread, as it sees it. */
  lemma MoverKeeps(s: State, capacity: nat, t: nat, c: Choice)
    requires Inv(s) && Enabled(s, capacity, t, c)
    ensures var (s', q) := Act(s, s.pcs[t], c);
      && PcInv(s', q) && !s'.panicked && |s'.destroyed| == |s.destroyed|
      && (forall i :: 0 <= i < |s'.free| ==> s'.free[i] < |s.destroyed|)
  {
    hide Total, Placed;
    LoadCovers(s, t);
    assert PcInv(s, s.pcs[t]);
  }

  /** The counts after a step. */
  lemma CountsKeep(s: State, capacity: nat, t: nat, c: Choice)
    requires Inv(s) && Enabled(s, capacity, t, c)
    ensures var (s', q) := Act(s, s.pcs[t], c); var pcs := s.pcs[t := q];
      && Total(pcs, Collector) == (if s'.done then 1 else 0)
      && (s'.closed ==> s'.done && s'.free == [] && Total(pcs, Load) == 0)
      && (!s'.closed ==> |s'.free| + Total(pcs, Load) == |s.destroyed|)
  {
    hide Total, Placed;
    var (s', q) := Act(s, s.pcs[t], c);
    TotalMove(s.pcs, t, q, Collector);
    TotalMove(s.pcs, t, q, Load);
    LoadCovers(s, t);
    assert PcInv(s, s.pcs[t]);
  }

  /** A step moves a workspace between the channel and one hand. */
  lemma PlacesKeep(s: State, capacity: nat, t: nat, c: Choice, w: nat)
    requires Inv(s) && Enabled(s, capacity, t, c) && w < |s.destroyed|
    ensures var (s', q) := Act(s, s.pcs[t], c);
      !s'.closed ==> !s.closed && Occ(s'.free, w) + Total(s.pcs[t := q], Weight(w)) == 1
  {
    hide Total;
    var (s', q) := Act(s, s.pcs[t], c);
    TotalMove(s.pcs, t, q, Weight(w));
    if !s'.closed {
      assert Placed(s, w);
      if s.pcs[t].Returning? {
        OccOne(s.free, s.pcs[t].ws, w);
      } else if s.pcs[t].Collecting? && s.free != [] {
        OccOne(s.pcs[t].got, s.free[0], w);
      }
    }
  }

  lemma WipesKeep(s: State, capacity: nat, t: nat, c: Choice)
    requires Inv(s) && Enabled(s, capacity, t, c)
    ensures var s' := Act(s, s.pcs[t], c).0;
      forall w :: 0 <= w < |s.destroyed| ==> s'.destroyed[w] <= if s'.closed then 1 else 0
  {
    hide Total, Placed;
    assert PcInv(s, s.pcs[t]);
  }

  lemma StepInv(s: State, capacity: nat, t: nat, c: Choice)
    requires Inv(s) && Enabled(s, capacity, t, c)
    ensures Inv(Next(s, capacity, t, c))
  {
    hide Act, PcInv, Total, InHand, Load, Collector;
    var (a, q) := Act(s, s.pcs[t], c);
    var s' := Next(s, capacity, t, c);
    MoverKeeps(s, capacity, t, c);
    CountsKeep(s, capacity, t, c);
    WipesKeep(s, capacity, t, c);
    forall u | 0 <= u < |s'.pcs|
      ensures PcInv(s', s'.pcs[u])
    {
      if u != t {
        OthersKeep(s, t, c, u);
      }
      ThreadsAside(a, s'.pcs, s'.pcs[u]);
    }
    forall w | 0 <= w < |s.destroyed|
      ensures !s'.closed ==> Placed(s', w)
    {
      PlacesKeep(s, capacity, t, c, w);
    }
  }

  /** PcInv does not look at the threads. */
  lemma ThreadsAside(s: State, pcs: seq<Pc>, p: Pc)
    ensures PcInv(s.(pcs := pcs), p) == PcInv(s, p)
  {
  }

  lemma {:induction false} RunInv(s: State, capacity: nat, schedule: seq<(nat, Choice)>)
    requires Inv(s)
    ensures Inv(Run(s, capacity, schedule))
    decreases |schedule|
  {
    hide Inv;
    if schedule == [] {
    } else {
      var (t, c) := schedule[0];
      if Enabled(s, capacity, t, c) {
        StepInv(s, capacity, t, c);
        RunInv(Next(s, capacity, t, c), capacity, schedule[1..]);
      } else {
        RunInv(s, capacity, schedule[1..]);
      }
    }
  }

  // ---------------------------------------------------------------------------
  // What every interleaving guarantees
  // ---------------------------------------------------------------------------

  /** A state of a pool of `n` workspaces, whose channel has room for all of them. */
  ghost predicate Reachable(n: nat, capacity: nat, s: State) {
    n <= capacity && exists threads, schedule :: s == Run(Init(n, threads), capacity, schedule)
  }

  lemma ReachableInv(n: nat, capacity: nat, s: State)
    requires Reachable(n, capacity, s)
    ensures Inv(s) && |s.destroyed| == n
  {
    var threads, schedule :| s == Run(Init(n, threads), capacity, schedule);
    InitInv(n, threads);
    RunInv(Init(n, threads), capacity, schedule);
    SizeKept(Init(n, threads), capacity, schedule);
  }

  lemma {:induction false} SizeKept(s: State, capacity: nat, schedule: seq<(nat, Choice)>)
    ensures |Run(s, capacity, schedule).destroyed| == |s.destroyed|
    decreases |schedule|
  {
    if schedule == [] {
    } else {
      var (t, c) := schedule[0];
      SizeKept(if Enabled(s, capacity, t, c) then Next(s, capacity, t, c) else s, capacity, schedule[1..]);
    }
  }

  /** Until Destroy closes the channel each workspace is in it once or with one call, and whole; afterwards no
      derivation has one and none is left in the channel. */
  lemma OnePlace(n: nat, capacity: nat, s: State, w: nat)
    requires Reachable(n, capacity, s) && w < n
    ensures |s.destroyed| == n
    ensures !s.closed ==> Occ(s.free, w) + Total(s.pcs, Weight(w)) == 1 && s.destroyed[w] == 0
    ensures s.closed ==> s.free == [] && forall t :: 0 <= t < |s.pcs| ==> !s.pcs[t].Working? && !s.pcs[t].Returning?
  {
    hide PcInv, Total;
    ReachableInv(n, capacity, s);
    if s.closed {
      forall t | 0 <= t < |s.pcs|
        ensures Load(s.pcs[t]) == 0
      {
        LoadCovers(s, t);
      }
    } else {
      assert Placed(s, w);
    }
  }

  /** Nothing is sent on the closed channel and it is closed once; a send finds room without waiting. */
  lemma SendsAreSafe(n: nat, capacity: nat, s: State, t: nat)
    requires Reachable(n, capacity, s) && t < |s.pcs|
    ensures !s.panicked && (s.pcs[t].Returning? ==> !s.closed && |s.free| < capacity && Enabled(s, capacity, t, Go))
  {
    hide PcInv, Total;
    ReachableInv(n, capacity, s);
    LoadCovers(s, t);
  }

  /** Each workspace is destroyed at most once, never under a derivation, and when the Destroy that did the work has
      returned, exactly once. */
  lemma DestroyedOnce(n: nat, capacity: nat, s: State, t: nat, w: nat)
    requires Reachable(n, capacity, s) && t < |s.pcs| && w < n
    ensures |s.destroyed| == n
    ensures s.destroyed[w] <= 1
    ensures s.pcs[t] == Ended(Destroyed) ==> s.destroyed[w] == 1
    ensures s.pcs[t].Working? ==> s.pcs[t].ws < n && s.destroyed[s.pcs[t].ws] == 0
  {
    hide Total;
    ReachableInv(n, capacity, s);
    LoadCovers(s, t);
    assert PcInv(s, s.pcs[t]);
  }

  /** A Derive that waits when Destroy has closed the channel, or comes later, ends with ErrDestroyed. */
  lemma LateDerive(n: nat, capacity: nat, s: State, t: nat)
    requires Reachable(n, capacity, s) && s.closed && t < |s.pcs|
    ensures s.pcs[t].Checked? ==> Enabled(s, capacity, t, Go) && Next(s, capacity, t, Go).pcs[t] == Ended(ErrDestroyed)
    ensures s.pcs[t].Idle? ==> Enabled(s, capacity, t, Derive) && Next(s, capacity, t, Derive).pcs[t] == Ended(ErrDestroyed)
  {
    hide PcInv, Total;
    ReachableInv(n, capacity, s);
  }

  predicate Finished(p: Pc) { p.Idle? || p.Ended? }

  /** While a call is under way, some call can step. */
  lemma SomebodySteps(n: nat, capacity: nat, s: State, busy: nat) returns (u: nat)
    requires n > 0 && n <= capacity && Inv(s) && |s.destroyed| == n && busy < |s.pcs| && !Finished(s.pcs[busy])
    ensures u < |s.pcs| && !Finished(s.pcs[u]) && Enabled(s, capacity, u, Go)
  {
    hide Total, Placed;
    u := busy;
    LoadCovers(s, busy);
    assert PcInv(s, s.pcs[busy]);
    if !Enabled(s, capacity, busy, Go) {
      u := TotalWitness(s.pcs, Load);
      LoadCovers(s, u);
      if s.pcs[u].Collecting? && |s.pcs[u].got| < n {
        u := OtherLoad(s, u);
        LoadCovers(s, u);
      }
    }
  }

  /** With the channel empty, what the collector has not got is with another call. */
  lemma OtherLoad(s: State, t: nat) returns (u: nat)
    requires Inv(s) && !s.closed && s.free == [] && t < |s.pcs| && s.pcs[t].Collecting? && |s.pcs[t].got| < |s.destroyed|
    ensures u < |s.pcs| && (s.pcs[u].Working? || s.pcs[u].Returning?)
  {
    hide Total, PcInv, Placed;
    TotalMove(s.pcs, t, Idle, Load);
    u := TotalWitness(s.pcs[t := Idle], Load);
    assert u != t;
    SoleCollector(s, t, u);
  }

  /** How many steps a call has left. */
  function Left(n: nat, p: Pc): nat {
    match p
    case Checked => 3
    case Working(_) => 2
    case Returning(_) => 1
    case Collecting(got) => (if |got| <= n then n - |got| else 0) + n + 2
    case Wiping(i) => (if i <= n then n - i else 0) + 1
    case _ => 0
  }

  ghost function LeftOf(n: nat): Pc -> nat {
    p => Left(n, p)
  }

  lemma StepsDown(s: State, capacity: nat, t: nat)
    requires Inv(s) && Enabled(s, capacity, t, Go) && !Finished(s.pcs[t])
    ensures var n := |s.destroyed|; Total(Next(s, capacity, t, Go).pcs, LeftOf(n)) < Total(s.pcs, LeftOf(n))
  {
    hide Total, Placed;
    assert PcInv(s, s.pcs[t]);
    LoadCovers(s, t);
    TotalMove(s.pcs, t, Next(s, capacity, t, Go).pcs[t], LeftOf(|s.destroyed|));
  }

  /** Nobody waits for ever: whatever has happened, letting the calls under way go on brings every one of them to its end,
      in a bounded number of steps and in whatever order they can step. */
  lemma {:induction false} Settles(n: nat, capacity: nat, s: State) returns (schedule: seq<(nat, Choice)>)
    requires n > 0 && n <= capacity && Inv(s) && |s.destroyed| == n
    ensures forall i :: 0 <= i < |schedule| ==> schedule[i].1 == Go
    ensures |schedule| <= Total(s.pcs, LeftOf(n))
    ensures var s' := Run(s, capacity, schedule); |s'.pcs| == |s.pcs| && forall t :: 0 <= t < |s'.pcs| ==> Finished(s'.pcs[t])
    decreases Total(s.pcs, LeftOf(n))
  {
    hide Inv, Act, Total;
    if forall t :: 0 <= t < |s.pcs| ==> Finished(s.pcs[t]) {
      schedule := [];
    } else {
      var busy :| 0 <= busy < |s.pcs| && !Finished(s.pcs[busy]);
      var u := SomebodySteps(n, capacity, s, busy);
      StepInv(s, capacity, u, Go);
      StepsDown(s, capacity, u);
      SizeKept(s, capacity, [(u, Go)]);
      var s' := Next(s, capacity, u, Go);
      assert Run(s, capacity, [(u, Go)]) == s';
      var rest := Settles(n, capacity, s');
      schedule := [(u, Go)] + rest;
      assert schedule[1..] == rest;
    }
  }

  /** After any run, every call that is under way comes to its end, a waiting Derive and a waiting Destroy included. */
  lemma EveryCallEnds(n: nat, capacity: nat, s: State) returns (schedule: seq<(nat, Choice)>)
    requires Reachable(n, capacity, s) && n > 0
    ensures forall i :: 0 <= i < |schedule| ==> schedule[i].1 == Go
    ensures var s' := Run(s, capacity, schedule); |s'.pcs| == |s.pcs| && forall t :: 0 <= t < |s'.pcs| ==> Finished(s'.pcs[t])
  {
    hide Inv, Run;
    ReachableInv(n, capacity, s);
    schedule := Settles(n, capacity, s);
  }

  // ---------------------------------------------------------------------------
  // What each call does on its own
  // ---------------------------------------------------------------------------

  lemma OneTurn(s: State, capacity: nat, t: nat, c: Choice, rest: seq<(nat, Choice)>) returns (s': State)
    requires Enabled(s, capacity, t, c)
    ensures s' == Next(s, capacity, t, c) && Run(s, capacity, [(t, c)] + rest) == Run(s', capacity, rest)
  {
    hide Enabled, Next;
    assert ([(t, c)] + rest)[1..] == rest;
    s' := Next(s, capacity, t, c);
  }

  /** A Derive on an open pool with a workspace free gets the first of them, and sends it back when it is done. */
  lemma DeriveDerives(n: nat, capacity: nat, s: State, t: nat)
    requires Reachable(n, capacity, s) && t < |s.pcs| && s.pcs[t] == Idle && !s.done && s.free != []
    ensures Run(s, capacity, [(t, Derive), (t, Go)]) == s.(free := s.free[1..], pcs := s.pcs[t := Working(s.free[0])])
    ensures Run(s, capacity, [(t, Derive), (t, Go), (t, Go), (t, Go)]) ==
      s.(free := s.free[1..] + [s.free[0]], pcs := s.pcs[t := Ended(Derived)])
  {
    hide Run, Reachable, Inv;
    ReachableInv(n, capacity, s);
    Roomy(n, capacity, s);
    var four := [(t, Derive), (t, Go), (t, Go), (t, Go)];
    assert four == [(t, Derive)] + [(t, Go), (t, Go), (t, Go)] && [(t, Go), (t, Go), (t, Go)] == [(t, Go)] + [(t, Go), (t, Go)];
    assert [(t, Go), (t, Go)] == [(t, Go)] + [(t, Go)] && [(t, Go)] == [(t, Go)] + [];
    assert [(t, Derive), (t, Go)] == [(t, Derive)] + [(t, Go)];
    var s1 := OneTurn(s, capacity, t, Derive, [(t, Go), (t, Go), (t, Go)]);
    var s2 := OneTurn(s1, capacity, t, Go, [(t, Go), (t, Go)]);
    assert s2 == s.(free := s.free[1..], pcs := s.pcs[t := Working(s.free[0])]);
    var s3 := OneTurn(s2, capacity, t, Go, [(t, Go)]);
    var s4 := OneTurn(s3, capacity, t, Go, []);
    s1 := OneTurn(s, capacity, t, Derive, [(t, Go)]);
    s2 := OneTurn(s1, capacity, t, Go, []);
    RunNone(s2, capacity);
    RunNone(s4, capacity);
  }

  lemma RunNone(s: State, capacity: nat)
    ensures Run(s, capacity, []) == s
  {
  }

  /** The channel holds no more than the workspaces, and is open while the pool is. */
  lemma Roomy(n: nat, capacity: nat, s: State)
    requires Reachable(n, capacity, s) && !s.done
    ensures !s.closed && |s.free| <= n <= capacity
  {
    hide Total, PcInv, Placed;
    ReachableInv(n, capacity, s);
  }

  /** When the pool is done, a Derive is refused at once and so is a second Destroy, with nothing changed. */
  lemma RefusedWhenDone(s: State, capacity: nat, t: nat)
    requires t < |s.pcs| && s.pcs[t] == Idle && s.done
    ensures Enabled(s, capacity, t, Derive) && Next(s, capacity, t, Derive) == s.(pcs := s.pcs[t := Ended(ErrDestroyed)])
    ensures Enabled(s, capacity, t, Destroy) && Next(s, capacity, t, Destroy) == s.(pcs := s.pcs[t := Ended(AlreadyDestroyed)])
  {
  }
}
