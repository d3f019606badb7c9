/** The closed-at-rest buffer of closedatrest.go under concurrent use.

Borrowers hold the region lock shared and mutators hold it alone; `openers` counts the
uses between a successful open and its close, and has a mutex of its own, so open and
close are one step each. Any of the protection calls and the re-lock inside them may be
refused. */
module ClosedAtRest {
  import opened Counting
  import opened Pages

  /** How the calls inside one open or close turn out; true means refused. */
  datatype Faults = Faults(open: bool, relock: bool, close: bool)

  datatype Op = Borrow | Mutate | SetMode(readOnly: bool)

  datatype Pc =
    | Idle
    | UseWait(mutator: bool)     // take the region lock: shared, or alone for a mutator
    | Entered(mutator: bool)     // holds it: open
    | Using(mutator: bool)       // between open and close
    | ModeWait(readOnly: bool)   // ReadOnly or ReadWrite: take the region lock alone
    | ModeIn(readOnly: bool)     // holds it: record the mode

  datatype State = State(
    prot: Prot,
    readOnly: bool,
    openers: int,
    leftOpen: bool,   // history: the last call that was to close the page was refused
    pcs: seq<Pc>)

  function Init(threads: nat): State { State(NoAccess, false, 0, false, seq(threads, _ => Idle)) }

  predicate Alone(p: Pc) {
    (p.Entered? && p.mutator) || (p.Using? && p.mutator) || p.ModeIn?
  }

  predicate Inside(p: Pc) { p.Entered? || p.Using? || p.ModeIn? }

  predicate Enabled(s: State, t: nat) {
    && t < |s.pcs|
    && match s.pcs[t]
       case UseWait(mutator) => if mutator then NoneInside(s) else NoneAlone(s)
       case ModeWait(_) => NoneInside(s)
       case _ => true
  }

  predicate NoneInside(s: State) { forall u :: 0 <= u < |s.pcs| ==> !Inside(s.pcs[u]) }
  predicate NoneAlone(s: State) { forall u :: 0 <= u < |s.pcs| ==> !Alone(s.pcs[u]) }

  /** The call that makes the page no-access. */
  function Shut(s: State, refused: bool): State {
    if refused then s.(leftOpen := true) else s.(prot := NoAccess, leftOpen := false)
  }

  /** open: the first opener changes the protection and locks the page again. */
  function Open(s: State, f: Faults): (State, bool) {
    if s.openers == 0 then
      if f.open then (s, false)
      else
        var ready := s.(prot := if s.readOnly then ReadPage else ReadWritePage);
        if f.relock then (Shut(ready, f.close), false) else (ready.(openers := 1), true)
    else (s.(openers := s.openers + 1), true)
  }

  /** close: the last opener makes the page no-access. */
  function Close(s: State, f: Faults): State {
    var left := s.(openers := s.openers - 1);
    if left.openers > 0 then left else Shut(left, f.close)
  }

  function Act(s: State, p: Pc, op: Op, f: Faults): (State, Pc) {
    match p
    case Idle =>
      (s, match op
          case Borrow => UseWait(false)
          case Mutate => UseWait(true)
          case SetMode(ro) => ModeWait(ro))
    case UseWait(mutator) => (s, Entered(mutator))
    case Entered(mutator) =>
      if mutator && s.readOnly then (s, Idle)   // ErrReadOnly
      else
        var (s', ok) := Open(s, f);
        (s', if ok then Using(mutator) else Idle)
    case Using(_) => (Close(s, f), Idle)
    case ModeWait(ro) => (s, ModeIn(ro))
    case ModeIn(ro) => (s.(readOnly := ro), Idle)
  }

  function Next(s: State, t: nat, op: Op, f: Faults): State
    requires Enabled(s, t)
  {
    var (s', q) := Act(s, s.pcs[t], op, f);
    s'.(pcs := s.pcs[t := q])
  }

  function Run(s: State, schedule: seq<(nat, Op, Faults)>): State
    decreases |schedule|
  {
    if schedule == [] then s
    else
      var (t, op, f) := schedule[0];
      Run(if Enabled(s, t) then Next(s, t, op, f) else s, schedule[1..])
  }

  function User(p: Pc): nat { if p.Using? then 1 else 0 }

  ghost predicate LockInv(s: State) {
    forall t, u :: 0 <= t < |s.pcs| && 0 <= u < |s.pcs| && t != u && Alone(s.pcs[t]) ==> !Inside(s.pcs[u])
  }

  ghost predicate PageInv(s: State) {
    && s.openers == Total(s.pcs, User)
    && (s.openers > 0 ==> s.prot == if s.readOnly then ReadPage else ReadWritePage)
    && (s.openers == 0 ==> s.prot == NoAccess || s.leftOpen)
    && (forall t :: 0 <= t < |s.pcs| && s.pcs[t].Using? && s.pcs[t].mutator ==> !s.readOnly)
  }

  ghost predicate Inv(s: State) { LockInv(s) && PageInv(s) }

  lemma StepLock(s: State, t: nat, op: Op, f: Faults)
    requires LockInv(s) && Enabled(s, t)
    ensures LockInv(Next(s, t, op, f))
  {
  }

  lemma StepPage(s: State, t: nat, op: Op, f: Faults)
    requires Inv(s) && Enabled(s, t)
    ensures PageInv(Next(s, t, op, f))
  {
    var s' := Next(s, t, op, f);
    TotalMove(s.pcs, t, s'.pcs[t], User);
    TotalCovers(s.pcs, t, User);
    if s.pcs[t].ModeIn? && Total(s.pcs, User) > 0 {
      var u := TotalWitness(s.pcs, User);
      assert Inside(s.pcs[u]) && Alone(s.pcs[t]);
      assert false;
    }
  }

  lemma {:induction false} RunInv(s: State, schedule: seq<(nat, Op, Faults)>)
    requires Inv(s)
    ensures Inv(Run(s, schedule))
    decreases |schedule|
  {
    if schedule == [] {
    } else {
      var (t, op, f) := schedule[0];
      if Enabled(s, t) {
        StepLock(s, t, op, f);
        StepPage(s, t, op, f);
        RunInv(Next(s, t, op, f), schedule[1..]);
      } else {
        RunInv(s, schedule[1..]);
      }
    }
  }

  /** For any number of threads, any schedule and any refused calls: every use between its
      open and its close finds the page readable, and writable when the buffer is not
      read-only; a mutator only ever runs on a writable page; and with no use open the
      page is no-access, unless the last call that was to close it was refused. */
  lemma PageFollowsUse(threads: nat, schedule: seq<(nat, Op, Faults)>, t: nat)
    ensures var s := Run(Init(threads), schedule);
      && (t < |s.pcs| && s.pcs[t].Using? ==>
            && s.prot != NoAccess && s.openers > 0
            && (!s.readOnly || s.pcs[t].mutator ==> s.prot == ReadWritePage))
      && ((forall u :: 0 <= u < |s.pcs| ==> !s.pcs[u].Using?) ==>
            s.openers == 0 && (s.prot == NoAccess || s.leftOpen))
  {
    TotalNone(Init(threads).pcs, User);
    RunInv(Init(threads), schedule);
    var s := Run(Init(threads), schedule);
    if t < |s.pcs| {
      TotalCovers(s.pcs, t, User);
    }
    if forall u :: 0 <= u < |s.pcs| ==> !s.pcs[u].Using? {
      TotalNone(s.pcs, User);
    }
  }

  /** The page is left open only by a refused call: in a run in which none that was to close it is, it is no-access
      whenever no use is open. */
  lemma ShutUnlessRefused(threads: nat, schedule: seq<(nat, Op, Faults)>)
    requires forall i :: 0 <= i < |schedule| ==> !schedule[i].2.close
    ensures var s := Run(Init(threads), schedule);
      (forall u :: 0 <= u < |s.pcs| ==> !s.pcs[u].Using?) ==> s.prot == NoAccess
  {
    PageFollowsUse(threads, schedule, 0);
    NeverLeftOpen(Init(threads), schedule);
  }

  lemma {:induction false} NeverLeftOpen(s: State, schedule: seq<(nat, Op, Faults)>)
    requires !s.leftOpen && forall i :: 0 <= i < |schedule| ==> !schedule[i].2.close
    ensures !Run(s, schedule).leftOpen
    decreases |schedule|
  {
    if schedule == [] {
    } else {
      var (t, op, f) := schedule[0];
      assert schedule[0].2 == f;
      NeverLeftOpen(if Enabled(s, t) then Next(s, t, op, f) else s, schedule[1..]);
    }
  }

  /** A state of some run. */
  ghost predicate Reachable(s: State) { exists threads: nat, schedule :: s == Run(Init(threads), schedule) }

  lemma ReachableInv(s: State)
    requires Reachable(s)
    ensures Inv(s)
  {
    var threads: nat, schedule :| s == Run(Init(threads), schedule);
    TotalNone(Init(threads).pcs, User);
    RunInv(Init(threads), schedule);
  }

  /** Exactly when a use that has the lock gets the bytes: a mutator on a buffer that is not read-only, and, if nobody else
      has the page open, with neither of its two calls refused. The page is then as the mode asks; a refusal leaves
      nobody counted. */
  lemma UseExactly(s: State, t: nat, op: Op, f: Faults)
    requires Reachable(s) && t < |s.pcs| && s.pcs[t].Entered?
    ensures Enabled(s, t)
    ensures var s', mutator := Next(s, t, op, f), s.pcs[t].mutator;
      var first := forall u :: 0 <= u < |s.pcs| ==> !s.pcs[u].Using?;
      if (mutator && s.readOnly) || (first && (f.open || f.relock)) then
        s'.pcs == s.pcs[t := Idle] && s'.openers == s.openers && s'.readOnly == s.readOnly
      else
        && s'.pcs == s.pcs[t := Using(mutator)] && s'.openers == s.openers + 1 && s'.readOnly == s.readOnly
        && s'.prot == if s.readOnly then ReadPage else ReadWritePage
  {
    ReachableInv(s);
    FirstExactly(s);
  }

  lemma FirstExactly(s: State)
    requires s.openers == Total(s.pcs, User)
    ensures s.openers >= 0 && (s.openers == 0 <==> forall u :: 0 <= u < |s.pcs| ==> !s.pcs[u].Using?)
  {
    if forall u :: 0 <= u < |s.pcs| ==> !s.pcs[u].Using? {
      TotalNone(s.pcs, User);
    } else {
      var u :| 0 <= u < |s.pcs| && s.pcs[u].Using?;
      TotalCovers(s.pcs, u, User);
    }
  }

  /** The last use to end shuts the page; an earlier one leaves it as it is for the rest. */
  lemma CloseExactly(s: State, t: nat, op: Op, f: Faults)
    requires Reachable(s) && t < |s.pcs| && s.pcs[t].Using?
    ensures Enabled(s, t)
    ensures var s' := Next(s, t, op, f);
      var last := forall u :: 0 <= u < |s.pcs| && u != t ==> !s.pcs[u].Using?;
      && s'.pcs == s.pcs[t := Idle] && s'.readOnly == s.readOnly && s'.openers == s.openers - 1
      && s'.prot == if last && !f.close then NoAccess else s.prot
  {
    ReachableInv(s);
    var s' := Next(s, t, op, f);
    StepPage(s, t, op, f);
    FirstExactly(s');
    if forall u :: 0 <= u < |s'.pcs| ==> !s'.pcs[u].Using? {
      forall u | 0 <= u < |s.pcs| && u != t
        ensures !s.pcs[u].Using?
      {
        assert !s'.pcs[u].Using?;
      }
    }
  }

  /** ReadOnly and ReadWrite record the mode and leave the page to the next open. */
  lemma ModeExactly(s: State, t: nat, op: Op, f: Faults)
    requires Reachable(s) && t < |s.pcs| && s.pcs[t].ModeIn?
    ensures Enabled(s, t) && Next(s, t, op, f) == s.(readOnly := s.pcs[t].readOnly, pcs := s.pcs[t := Idle])
    ensures s.openers == 0
  {
    ReachableInv(s);
    FirstExactly(s);
    forall u | 0 <= u < |s.pcs|
      ensures !s.pcs[u].Using?
    {
      assert Alone(s.pcs[t]) && (u != t ==> !Inside(s.pcs[u]));
    }
  }
}
