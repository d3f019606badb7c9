/** The destroy-time quarantine of quarantine.go.

The class is the FIFO under its mutex. Around it, retirements and limit changes
interleave: a retirement asks under the mutex whether the range is wanted, replaces the
range outside it, queues it under the mutex again, and unmaps what it evicted with no
lock held. Sizes are unbounded integers, because the ranges are disjoint parts of one
address space. */
module Quarantine {
  import opened Counting

  /** A reserved address range; ranges with different starts are different ranges. */
  datatype Range = Range(start: nat, size: nat)

  datatype Limits = Limits(regions: int, bytes: nat) {
    /** A negative region limit is taken as zero. */
    function Normal(): Limits {
      if regions < 0 then Limits(0, bytes) else this
    }
  }

  function Bytes(held: seq<Range>): nat {
    if held == [] then 0 else held[0].size + Bytes(held[1..])
  }

  lemma {:induction false} BytesSplit(a: seq<Range>, b: seq<Range>)
    ensures Bytes(a + b) == Bytes(a) + Bytes(b)
  {
    if a == [] {
      assert a + b == b;
    } else {
      BytesSplit(a[1..], b);
      assert (a + b)[1..] == a[1..] + b;
    }
  }

  predicate Within(l: Limits, held: seq<Range>) {
    |held| <= l.regions && Bytes(held) <= l.bytes
  }

  /** How many of the oldest go. */
  function Excess(l: Limits, held: seq<Range>): (n: nat)
    ensures n <= |held|
  {
    if held == [] || Within(l, held) then 0 else 1 + Excess(l, held[1..])
  }

  /** Their going brings the rest within the limits, and no fewer would. */
  lemma {:induction false} ExcessExact(l: Limits, held: seq<Range>, k: nat)
    requires l.regions >= 0 && k <= |held|
    ensures Within(l, held[Excess(l, held)..])
    ensures k < Excess(l, held) ==> !Within(l, held[k..])
  {
    assert held[0..] == held;
    if held == [] || Within(l, held) {
    } else {
      ExcessExact(l, held[1..], if k > 0 then k - 1 else 0);
      assert held[1..][Excess(l, held[1..])..] == held[Excess(l, held)..];
      if k > 0 {
        assert held[1..][k - 1..] == held[k..];
      }
    }
  }

  class Fifo {
    var limits: Limits
    var held: seq<Range>   // oldest first
    var bytes: int

    ghost predicate Valid()
      reads this
    {
      bytes == Bytes(held) && limits.regions >= 0 && Within(limits, held)
    }

    constructor (l: Limits)
      ensures Valid() && limits == Limits(if l.regions < 0 then 0 else l.regions, l.bytes) && held == []
    {
      limits := l.Normal();
      held := [];
      bytes := 0;
    }

    /** trimLocked: the oldest go, no more of them than the limits ask. */
    method Trim() returns (evicted: seq<Range>)
      requires bytes == Bytes(held) && limits.regions >= 0
      modifies this
      ensures Valid() && limits == old(limits)
      ensures evicted == old(held)[..Excess(limits, old(held))] && held == old(held)[Excess(limits, old(held))..]
    {
      var n := 0;
      ghost var l := limits;
      assert held[0..] == held;
      while n < |held| && (|held| - n > limits.regions || bytes > limits.bytes)
        invariant 0 <= n <= |held| && held == old(held) && limits == l
        invariant bytes == Bytes(held[n..])
        invariant n + Excess(l, held[n..]) == Excess(l, held)
      {
        assert held[n..][1..] == held[n + 1..];
        bytes := bytes - held[n].size;
        n := n + 1;
      }
      assert Excess(l, held[n..]) == 0;
      ExcessExact(l, held, 0);
      evicted := held[..n];
      held := held[n..];
    }

    /** retireSecretMem's second critical section. */
    method Queue(r: Range) returns (evicted: seq<Range>)
      requires Valid()
      modifies this
      ensures Valid() && limits == old(limits)
      ensures evicted + held == old(held) + [r] && |evicted| == Excess(limits, old(held) + [r])
    {
      BytesSplit(held, [r]);
      assert [r][1..] == [];
      held := held + [r];
      bytes := bytes + r.size;
      evicted := Trim();
    }

    /** SetQuarantineLimits, and what it answers. */
    method SetLimits(l: Limits) returns (previous: Limits, evicted: seq<Range>)
      requires Valid()
      modifies this
      ensures Valid() && limits == Limits(if l.regions < 0 then 0 else l.regions, l.bytes) && previous == old(limits)
      ensures evicted + held == old(held) && |evicted| == Excess(limits, old(held))
    {
      previous := limits;
      limits := l.Normal();
      evicted := Trim();
    }

    /** retireSecretMem's first critical section: a range is wanted exactly when the queue
        could hold it alone, so one that is refused could only have been queued to be evicted. */
    method Admits(r: Range) returns (admit: bool)
      ensures admit <==> Within(limits, [r])
    {
      admit := limits.regions > 0 && r.size <= limits.bytes;
      assert Bytes([r]) == r.size;
    }
  }

  // Interleavings.

  datatype Op = Retire(r: Range) | SetLimits(l: Limits)

  datatype Pc =
    | Idle
    | Asking(r: Range)         // take the mutex: is the range wanted?
    | Replacing(r: Range)      // turn it into a reservation
    | Queueing(r: Range)       // take the mutex: append and trim
    | Freeing(list: seq<Range>) // unmap these, one after the other

  /** How a replacement turns out. */
  datatype Replaced = Done | Intact | Lost

  datatype State = State(
    limits: Limits,
    held: seq<Range>,
    pcs: seq<Pc>,
    retired: seq<Range>,  // history: every range retired
    freed: seq<Range>,    // history: every unmap call, in order
    left: seq<Range>,     // history: ranges left in place after a failed replacement
    queued: seq<Range>,   // history: every range ever held, in order
    evicted: seq<Range>)  // history: every range that was held and is no more, in order

  function Init(l: Limits, threads: nat): State {
    State(l.Normal(), [], seq(threads, _ => Idle), [], [], [], [], [])
  }

  datatype Choice = Choice(t: nat, op: Op, outcome: Replaced)

  /** Evicts what the limits no longer admit; the thread unmaps it afterwards. */
  function Trimmed(s: State, t: nat): State
    requires t < |s.pcs|
  {
    var n := Excess(s.limits, s.held);
    s.(held := s.held[n..], evicted := s.evicted + s.held[..n], pcs := s.pcs[t := Freeing(s.held[..n])])
  }

  function Next(s: State, c: Choice): State
    requires c.t < |s.pcs|
  {
    var t := c.t;
    match s.pcs[t]
    case Idle =>
      (match c.op
       case Retire(r) => s.(retired := s.retired + [r], pcs := s.pcs[t := Asking(r)])
       case SetLimits(l) => Trimmed(s.(limits := l.Normal()), t))
    case Asking(r) =>
      if s.limits.regions > 0 && r.size <= s.limits.bytes then s.(pcs := s.pcs[t := Replacing(r)])
      else s.(pcs := s.pcs[t := Freeing([r])])
    case Replacing(r) =>
      (match c.outcome
       case Done => s.(pcs := s.pcs[t := Queueing(r)])
       case Intact => s.(pcs := s.pcs[t := Freeing([r])])
       case Lost => s.(left := s.left + [r], pcs := s.pcs[t := Idle]))
    case Queueing(r) => Trimmed(s.(held := s.held + [r], queued := s.queued + [r]), t)
    case Freeing(list) =>
      if list == [] then s.(pcs := s.pcs[t := Idle])
      else s.(freed := s.freed + [list[0]], pcs := s.pcs[t := Freeing(list[1..])])
  }

  ghost function Run(s: State, schedule: seq<Choice>): State
    decreases |schedule|
  {
    if schedule == [] then s
    else if schedule[0].t < |s.pcs| then Run(Next(s, schedule[0]), schedule[1..])
    else Run(s, schedule[1..])
  }

  /** How often a range stands in a list. */
  function Occ(list: seq<Range>, r: Range): nat {
    if list == [] then 0 else (if list[0] == r then 1 else 0) + Occ(list[1..], r)
  }

  lemma {:induction false} OccSplit(a: seq<Range>, b: seq<Range>, r: Range)
    ensures Occ(a + b, r) == Occ(a, r) + Occ(b, r)
  {
    if a == [] {
      assert a + b == b;
    } else {
      OccSplit(a[1..], b, r);
      assert (a + b)[1..] == a[1..] + b;
    }
  }

  lemma OccOne(a: seq<Range>, x: Range, r: Range)
    ensures Occ(a + [x], r) == Occ(a, r) + if x == r then 1 else 0
  {
    OccSplit(a, [x], r);
    assert [x][1..] == [];
  }

  /** What a thread has in hand. */
  function InHand(p: Pc, r: Range): nat {
    match p
    case Idle => 0
    case Asking(x) => if x == r then 1 else 0
    case Replacing(x) => if x == r then 1 else 0
    case Queueing(x) => if x == r then 1 else 0
    case Freeing(list) => Occ(list, r)
  }

  ghost function Weight(r: Range): Pc -> nat {
    p => InHand(p, r)
  }

  /** Every retirement of a range is accounted for, once. */
  ghost predicate Conserved(s: State, r: Range) {
    Occ(s.held, r) + Total(s.pcs, Weight(r)) + Occ(s.freed, r) + Occ(s.left, r) == Occ(s.retired, r)
  }

  ghost predicate Inv(s: State) {
    && s.limits.regions >= 0 && Within(s.limits, s.held)
    && s.queued == s.evicted + s.held
    && forall r :: Conserved(s, r)
  }

  lemma InitInv(l: Limits, threads: nat)
    ensures Inv(Init(l, threads))
  {
    var s := Init(l, threads);
    forall r
      ensures Conserved(s, r)
    {
      TotalNone(s.pcs, Weight(r));
    }
  }

  /** A thread moving on changes what is in hand by what it took and gave. */
  lemma Moved(s: State, s': State, t: nat, p: Pc, r: Range)
    requires t < |s.pcs| && s'.pcs == s.pcs[t := p]
    requires Occ(s'.held, r) + InHand(p, r) + Occ(s'.freed, r) + Occ(s'.left, r) + Occ(s.retired, r)
          == Occ(s.held, r) + InHand(s.pcs[t], r) + Occ(s.freed, r) + Occ(s.left, r) + Occ(s'.retired, r)
    requires Conserved(s, r)
    ensures Conserved(s', r)
  {
    TotalMove(s.pcs, t, p, Weight(r));
  }

  lemma TrimmedConserved(s: State, t: nat, r: Range)
    requires t < |s.pcs| && InHand(s.pcs[t], r) == 0 && Conserved(s, r)
    ensures Conserved(Trimmed(s, t), r)
  {
    var n := Excess(s.limits, s.held);
    OccSplit(s.held[..n], s.held[n..], r);
    assert s.held[..n] + s.held[n..] == s.held;
    Moved(s, Trimmed(s, t), t, Freeing(s.held[..n]), r);
  }

  /** Queueing is handing the range over and then trimming, with nothing in hand. */
  lemma QueuedConserved(s: State, t: nat, r: Range)
    requires t < |s.pcs| && s.pcs[t].Queueing? && Conserved(s, r)
    ensures Conserved(Next(s, Choice(t, Retire(s.pcs[t].r), Done)), r)
  {
    var x := s.pcs[t].r;
    var handed := s.(held := s.held + [x], queued := s.queued + [x], pcs := s.pcs[t := Idle]);
    OccOne(s.held, x, r);
    Moved(s, handed, t, Idle, r);
    TrimmedConserved(handed, t, r);
    var s' := Trimmed(s.(held := s.held + [x], queued := s.queued + [x]), t);
    assert handed.pcs[t := Freeing(handed.held[..Excess(handed.limits, handed.held)])] == s'.pcs;
    assert Trimmed(handed, t) == s';
  }

  lemma OccAlone(x: Range, r: Range)
    ensures Occ([x], r) == if x == r then 1 else 0
  {
    OccOne([], x, r);
    assert [] + [x] == [x];
  }

  lemma IdleConserved(s: State, c: Choice, r: Range)
    requires c.t < |s.pcs| && s.pcs[c.t].Idle? && Conserved(s, r)
    ensures Conserved(Next(s, c), r)
  {
    hide Total, Occ, Excess;
    if c.op.Retire? {
      OccOne(s.retired, c.op.r, r);
      Moved(s, Next(s, c), c.t, Asking(c.op.r), r);
    } else {
      TrimmedConserved(s.(limits := c.op.l.Normal()), c.t, r);
    }
  }

  lemma HandConserved(s: State, c: Choice, r: Range)
    requires c.t < |s.pcs| && (s.pcs[c.t].Asking? || s.pcs[c.t].Replacing?) && Conserved(s, r)
    ensures Conserved(Next(s, c), r)
  {
    hide Total, Occ, Trimmed;
    var x, s' := s.pcs[c.t].r, Next(s, c);
    OccOne(s.left, x, r);
    OccAlone(x, r);
    Moved(s, s', c.t, s'.pcs[c.t], r);
  }

  lemma FreeingConserved(s: State, c: Choice, r: Range)
    requires c.t < |s.pcs| && s.pcs[c.t].Freeing? && Conserved(s, r)
    ensures Conserved(Next(s, c), r)
  {
    hide Total, Trimmed;
    var list, s' := s.pcs[c.t].list, Next(s, c);
    if list != [] {
      OccOne(s.freed, list[0], r);
    }
    Moved(s, s', c.t, s'.pcs[c.t], r);
  }

  lemma NextConserved(s: State, c: Choice, r: Range)
    requires c.t < |s.pcs| && Conserved(s, r)
    ensures Conserved(Next(s, c), r)
  {
    hide Conserved, Trimmed;
    match s.pcs[c.t]
    case Idle => IdleConserved(s, c, r);
    case Asking(_) => HandConserved(s, c, r);
    case Replacing(_) => HandConserved(s, c, r);
    case Queueing(_) => QueuedConserved(s, c.t, r);
    case Freeing(_) => FreeingConserved(s, c, r);
  }

  lemma TrimmedShape(s: State, t: nat)
    requires t < |s.pcs| && s.limits.regions >= 0 && s.queued == s.evicted + s.held
    ensures var s' := Trimmed(s, t);
      Within(s'.limits, s'.held) && s'.limits.regions >= 0 && s'.queued == s'.evicted + s'.held
  {
    hide Excess, Within;
    var n := Excess(s.limits, s.held);
    ExcessExact(s.limits, s.held, 0);
    var go, stay := s.held[..n], s.held[n..];
    assert s.held == go + stay;
    assert s.evicted + (go + stay) == (s.evicted + go) + stay;
  }

  lemma StepInv(s: State, c: Choice)
    requires Inv(s) && c.t < |s.pcs|
    ensures Inv(Next(s, c))
  {
    if s.pcs[c.t].Queueing? {
      var x := s.pcs[c.t].r;
      TrimmedShape(s.(held := s.held + [x], queued := s.queued + [x]), c.t);
    } else if s.pcs[c.t].Idle? && c.op.SetLimits? {
      TrimmedShape(s.(limits := c.op.l.Normal()), c.t);
    }
    forall r
      ensures Conserved(Next(s, c), r)
    {
      NextConserved(s, c, r);
    }
  }

  lemma {:induction false} RunInv(s: State, schedule: seq<Choice>)
    requires Inv(s)
    ensures Inv(Run(s, schedule))
    decreases |schedule|
  {
    if schedule == [] {
    } else {
      if schedule[0].t < |s.pcs| {
        StepInv(s, schedule[0]);
        RunInv(Next(s, schedule[0]), schedule[1..]);
      } else {
        RunInv(s, schedule[1..]);
      }
    }
  }

  /**
   * In every interleaving: the limits hold whenever the mutex is free, what
   * leaves is the oldest, and every retirement of a range is in exactly one place:
   * held, in one thread's hand, unmapped by one call, or left where it was.
   */
  lemma EveryRun(l: Limits, threads: nat, schedule: seq<Choice>)
    ensures
      var s := Run(Init(l, threads), schedule);
      && Within(s.limits, s.held)
      && s.queued == s.evicted + s.held
      && forall r :: Occ(s.held, r) + Total(s.pcs, Weight(r)) + Occ(s.freed, r) + Occ(s.left, r) == Occ(s.retired, r)
  {
    hide Run, Init, Total, Occ;
    InitInv(l, threads);
    RunInv(Init(l, threads), schedule);
    var s := Run(Init(l, threads), schedule);
    forall r
      ensures Occ(s.held, r) + Total(s.pcs, Weight(r)) + Occ(s.freed, r) + Occ(s.left, r) == Occ(s.retired, r)
    {
      assert Conserved(s, r);
    }
  }

  /** Once every thread is done, nothing is in anyone's hand. */
  lemma AtRest(l: Limits, threads: nat, schedule: seq<Choice>, r: Range)
    requires
      var s := Run(Init(l, threads), schedule);
      forall t :: 0 <= t < |s.pcs| ==> s.pcs[t] == Idle
    ensures
      var s := Run(Init(l, threads), schedule);
      Occ(s.held, r) + Occ(s.freed, r) + Occ(s.left, r) == Occ(s.retired, r)
  {
    hide Run, Init, Total, Occ;
    EveryRun(l, threads, schedule);
    TotalNone(Run(Init(l, threads), schedule).pcs, Weight(r));
  }

  // What one retirement, or one change of the limits, does from beginning to end.

  /** `n` steps of one thread, nobody else moving. */
  ghost function Alone(s: State, c: Choice, n: nat): State
    requires c.t < |s.pcs|
    decreases n
  {
    if n == 0 then s else Alone(Next(s, c), c, n - 1)
  }

  /** They are a run. */
  lemma {:induction false} AloneRuns(s: State, c: Choice, n: nat)
    requires c.t < |s.pcs|
    ensures Run(s, seq(n, _ => c)) == Alone(s, c, n)
    decreases n
  {
    if n == 0 {
    } else {
      AloneRuns(Next(s, c), c, n - 1);
      assert seq(n, _ => c)[1..] == seq(n - 1, _ => c);
    }
  }

  /** A thread unmaps its whole list, in order, and is done. */
  lemma {:induction false} FreesAll(s: State, c: Choice, list: seq<Range>)
    requires c.t < |s.pcs| && s.pcs[c.t] == Freeing(list)
    ensures Alone(s, c, |list| + 1) == s.(freed := s.freed + list, pcs := s.pcs[c.t := Idle])
    decreases |list|
  {
    hide Trimmed;
    if list == [] {
      assert Alone(Next(s, c), c, 0) == Next(s, c);
    } else {
      var s' := Next(s, c);
      assert s' == s.(freed := s.freed + [list[0]], pcs := s.pcs[c.t := Freeing(list[1..])]);
      FreesAll(s', c, list[1..]);
      assert s.freed + [list[0]] + list[1..] == s.freed + list;
      assert s.pcs[c.t := Freeing(list[1..])][c.t := Idle] == s.pcs[c.t := Idle];
    }
  }

  /** What comes of a retirement: queued behind the others if it is wanted and its replacement is made; unmapped if it is
      not wanted, or if the replacement fails and leaves the old range; left where it is if that cannot be told. */
  lemma RetireGoes(s: State, t: nat, r: Range, outcome: Replaced) returns (n: nat)
    requires t < |s.pcs| && s.pcs[t] == Idle
    ensures var u := Alone(s, Choice(t, Retire(r), outcome), n); var wanted := s.limits.regions > 0 && r.size <= s.limits.bytes;
      if wanted && outcome == Done then
        var all := s.held + [r]; var k := Excess(s.limits, all);
        u == s.(retired := s.retired + [r], queued := s.queued + [r], held := all[k..], evicted := s.evicted + all[..k],
                freed := s.freed + all[..k])
      else if wanted && outcome == Lost then u == s.(retired := s.retired + [r], left := s.left + [r])
      else u == s.(retired := s.retired + [r], freed := s.freed + [r])
  {
    var c := Choice(t, Retire(r), outcome);
    var wanted := s.limits.regions > 0 && r.size <= s.limits.bytes;
    if wanted && outcome == Done {
      n := RetireQueued(s, c);
    } else if wanted && outcome == Lost {
      n := RetireLost(s, c);
    } else {
      n := RetireFreed(s, c);
    }
  }

  lemma RetireQueued(s: State, c: Choice) returns (n: nat)
    requires c.t < |s.pcs| && s.pcs[c.t] == Idle && c.op.Retire? && c.outcome == Done
    requires s.limits.regions > 0 && c.op.r.size <= s.limits.bytes
    ensures var r := c.op.r; var all := s.held + [r]; var k := Excess(s.limits, all);
      Alone(s, c, n) == s.(retired := s.retired + [r], queued := s.queued + [r], held := all[k..],
                           evicted := s.evicted + all[..k], freed := s.freed + all[..k])
  {
    hide Excess;
    var r := c.op.r;
    var all := s.held + [r];
    var k := Excess(s.limits, all);
    n := 4 + (k + 1);
    var s1 := Ahead(s, c, n);
    assert s1 == s.(retired := s.retired + [r], pcs := s.pcs[c.t := Asking(r)]);
    var s2 := Ahead(s1, c, n - 1);
    var s3 := Ahead(s2, c, n - 2);
    assert s3.pcs == s.pcs[c.t := Queueing(r)];
    var s4 := Ahead(s3, c, n - 3);
    assert s4.pcs == s.pcs[c.t := Freeing(all[..k])];
    FreesAll(s4, c, all[..k]);
    assert s4.pcs[c.t := Idle] == s.pcs;
  }

  lemma RetireLost(s: State, c: Choice) returns (n: nat)
    requires c.t < |s.pcs| && s.pcs[c.t] == Idle && c.op.Retire? && c.outcome == Lost
    requires s.limits.regions > 0 && c.op.r.size <= s.limits.bytes
    ensures Alone(s, c, n) == s.(retired := s.retired + [c.op.r], left := s.left + [c.op.r])
  {
    hide Trimmed;
    n := 3;
    var s1 := Ahead(s, c, 3);
    var s2 := Ahead(s1, c, 2);
    var s3 := Ahead(s2, c, 1);
    assert s3.pcs == s.pcs;
  }

  lemma RetireFreed(s: State, c: Choice) returns (n: nat)
    requires c.t < |s.pcs| && s.pcs[c.t] == Idle && c.op.Retire?
    requires s.limits.regions <= 0 || c.op.r.size > s.limits.bytes || c.outcome == Intact
    ensures Alone(s, c, n) == s.(retired := s.retired + [c.op.r], freed := s.freed + [c.op.r])
  {
    hide Trimmed;
    var r := c.op.r;
    var wanted := s.limits.regions > 0 && r.size <= s.limits.bytes;
    n := if wanted then 5 else 4;
    var s1 := Ahead(s, c, n);
    var s2 := Ahead(s1, c, n - 1);
    if wanted {
      s2 := Ahead(s2, c, 3);
    }
    assert s2.pcs == s.pcs[c.t := Freeing([r])];
    FreesAll(s2, c, [r]);
    assert s2.pcs[c.t := Idle] == s.pcs;
  }

  lemma Ahead(s: State, c: Choice, n: nat) returns (s': State)
    requires c.t < |s.pcs| && n > 0
    ensures s' == Next(s, c) && |s'.pcs| == |s.pcs| && Alone(s, c, n) == Alone(s', c, n - 1) && Alone(s', c, 0) == s'
  {
    s' := Next(s, c);
  }

  /** New limits take effect at once: the oldest ranges they no longer admit are unmapped. */
  lemma LimitsApply(s: State, t: nat, l: Limits, outcome: Replaced)
    requires t < |s.pcs| && s.pcs[t] == Idle
    ensures var limits := Limits(if l.regions < 0 then 0 else l.regions, l.bytes); var k := Excess(limits, s.held);
      Alone(s, Choice(t, SetLimits(l), outcome), k + 2) ==
        s.(limits := limits, held := s.held[k..], evicted := s.evicted + s.held[..k], freed := s.freed + s.held[..k])
  {
    hide Excess;
    var c := Choice(t, SetLimits(l), outcome);
    var k := Excess(l.Normal(), s.held);
    var s1 := Ahead(s, c, k + 2);
    FreesAll(s1, c, s.held[..k]);
    assert s1.pcs[t := Idle] == s.pcs;
  }
}
