/** Who waits for whom: borrows nested in ascending registration key (secret.go,
secmem-crypto/openssh_wire.go), buffers made and destroyed inside borrows, the process's
prekey under a buffer (sealauth.go), and Argon2 workspaces and their pools
(secmem-crypto/argon2_workspace.go).

A region's lock is writer-preferring: a reader waits while a writer holds it or is queued
on it, a writer waits while anybody holds it. The keyring's mutex has one holder. A gate is
a workspace's mutex, or a pool's channel: it lets as many through as there are workspaces
behind it. A call takes and drops locks as its script says, and a call that finds a buffer
unusable drops what it holds. */
module LockOrder {
  import opened Counting
  import opened Options

  datatype Lock =
    | Buffer(key: nat)    // a buffer's region, by registration key
    | Gate(id: nat)       // a workspace's mutex, or a pool's channel
    | Keyring             // the keyring's mutex
    | Prekey(gen: nat)    // the region of one prekey

  /** The workspaces: how many a gate lets through, and the buffers behind it. */
  datatype World = World(cap: nat -> nat, mems: nat -> seq<nat>) {
    ghost predicate Lawful() {
      forall g :: 0 < cap(g) == |mems(g)|
    }
  }

  datatype Hold = Hold(lock: Lock, shared: bool)

  datatype Action = Take(h: Hold) | Drop   // drop what was taken last

  /** One use of the keyring: prekeys filled or released under its mutex, and the one used. */
  datatype Visit = Visit(renew: seq<nat>, gen: Option<nat>)

  datatype Call =
    | Borrow(keys: seq<nat>)                  // nested borrows, outermost first
    | Exclude(lock: Lock)                     // an exclusive operation or a wipe pass
    | Sealing(key: nat, visits: seq<Visit>)   // Seal, Unseal or Destroy with authentication
    | Scratch(keys: seq<nat>, made: seq<nat>) // inside borrows, make, borrow and destroy buffers
    | Derive(gate: nat, mem: nat, outer: seq<nat>, out: nat)  // inside borrows, use a workspace
    | Close(gate: nat)                        // destroy a workspace or a pool

  datatype Pc =
    | Idle
    | Busy(held: seq<Hold>, todo: seq<Action>)  // drops what it holds once nothing is left to do
    | Collecting(gate: nat, got: nat)           // a pool's Destroy: has taken `got` workspaces back

  datatype State = State(pcs: seq<Pc>, closing: set<nat>)   // `closing`: the pools with Destroy called

  datatype Choice =
    | Start(call: Call)
    | Go      // take the lock waited for, drop a lock, or return
    | Stop    // take the lock, find the buffer unusable, and unwind

  function Init(threads: nat): State { State(seq(threads, _ => Idle), {}) }

  // The scripts.

  function Alone(l: Lock): Action { Take(Hold(l, false)) }

  function Shared(keys: seq<nat>): seq<Action> {
    seq(|keys|, i requires 0 <= i < |keys| => Take(Hold(Buffer(keys[i]), true)))
  }

  /** The order in which borrowOrdered, ConstantTimeEqual and Derive nest two buffers. */
  function BorrowOrder(a: nat, b: nat): (keys: seq<nat>)
    ensures a != b ==> Ascending(keys)
    ensures multiset(keys) == multiset{a, b}
  {
    if a > b then [b, a] else [a, b]
  }

  function Renewals(gens: seq<nat>): seq<Action> {
    if gens == [] then [] else [Alone(Prekey(gens[0])), Drop] + Renewals(gens[1..])
  }

  function Visits(visits: seq<Visit>): seq<Action> {
    if visits == [] then []
    else
      [Alone(Keyring)] + (Renewals(visits[0].renew) + ([Drop]
        + ((if visits[0].gen.Some? then [Take(Hold(Prekey(visits[0].gen.value), true)), Drop] else []) + Visits(visits[1..]))))
  }

  /** Each buffer is borrowed inside the one before it and destroyed once its own borrow is over. */
  function Nested(made: seq<nat>): seq<Action> {
    if made == [] then []
    else [Take(Hold(Buffer(made[0]), true))] + (Nested(made[1..]) + [Drop, Alone(Buffer(made[0])), Drop])
  }

  function Destroys(mems: seq<nat>): seq<Action> {
    if mems == [] then [] else [Alone(Buffer(mems[0])), Drop] + Destroys(mems[1..])
  }

  function Script(w: World, call: Call): seq<Action> {
    match call
    case Borrow(keys) => Shared(keys)
    case Exclude(lock) => [Alone(lock)]
    case Sealing(key, visits) => [Alone(Buffer(key))] + Visits(visits)
    case Scratch(keys, made) => Shared(keys) + Nested(made)
    case Derive(gate, mem, outer, out) => Shared(outer) + ([Alone(Gate(gate))] + Shared(BorrowOrder(mem, out)))
    case Close(gate) => [Alone(Gate(gate))] + Destroys(w.mems(gate))
  }

  // The steps.

  predicate Holds(p: Pc, l: Lock) {
    p.Busy? && exists i :: 0 <= i < |p.held| && p.held[i].lock == l
  }

  /** The thread holds `l` exclusively or is queued for that. */
  predicate Excludes(p: Pc, l: Lock) {
    p.Busy? && (Hold(l, false) in p.held || (p.todo != [] && p.todo[0] == Take(Hold(l, false))))
  }

  predicate WriterInPlay(s: State, l: Lock) {
    exists u :: 0 <= u < |s.pcs| && Excludes(s.pcs[u], l)
  }

  predicate Unheld(s: State, l: Lock) {
    forall u :: 0 <= u < |s.pcs| ==> !Holds(s.pcs[u], l)
  }

  /** How many of a gate's workspaces a thread has. */
  function Slots(p: Pc, g: nat): nat {
    match p
    case Idle => 0
    case Busy(held, _) => if exists i :: 0 <= i < |held| && held[i].lock == Gate(g) then 1 else 0
    case Collecting(gate, got) => if gate == g then got else 0
  }

  ghost function SlotsOf(g: nat): Pc -> nat {
    p => Slots(p, g)
  }

  ghost predicate Open(w: World, s: State, g: nat) {
    Total(s.pcs, SlotsOf(g)) < w.cap(g)
  }

  ghost predicate Free(w: World, s: State, h: Hold) {
    if h.lock.Gate? then Open(w, s, h.lock.id)
    else if h.shared then !WriterInPlay(s, h.lock)
    else Unheld(s, h.lock)
  }

  ghost predicate Enabled(w: World, s: State, t: nat, c: Choice) {
    && t < |s.pcs|
    && match s.pcs[t]
       case Idle => c.Start?
       case Busy(_, todo) =>
         if todo == [] || todo[0].Drop? then c.Go? else (c.Go? || c.Stop?) && Free(w, s, todo[0].h)
       case Collecting(g, _) => c.Go? && Open(w, s, g)
  }

  function Front<T>(s: seq<T>): seq<T> {
    if s == [] then [] else s[..|s| - 1]
  }

  function Settled(held: seq<Hold>, todo: seq<Action>): Pc {
    if held == [] && todo == [] then Idle else Busy(held, todo)
  }

  /** What a thread inside a call goes on to. */
  function Onward(w: World, p: Pc, c: Choice): Pc {
    match p
    case Idle => Idle
    case Busy(held, todo) =>
      if todo == [] then Settled(Front(held), [])
      else if todo[0].Drop? then Settled(Front(held), todo[1..])
      else Busy(held + [todo[0].h], if c.Stop? then [] else todo[1..])
    // The last workspace is back: the channel is closed and the workspaces are destroyed.
    case Collecting(g, got) => if got + 1 < w.cap(g) then Collecting(g, got + 1) else Settled([], Destroys(w.mems(g)))
  }

  ghost function Next(w: World, s: State, t: nat, c: Choice): State
    requires Enabled(w, s, t, c)
  {
    if !c.Start? then s.(pcs := s.pcs[t := Onward(w, s.pcs[t], c)])
    else if c.call.Close? && w.cap(c.call.gate) > 1 then
      if c.call.gate in s.closing then s
      else State(s.pcs[t := Collecting(c.call.gate, 0)], s.closing + {c.call.gate})
    else s.(pcs := s.pcs[t := Settled([], Script(w, c.call))])
  }

  ghost function Run(w: World, s: State, schedule: seq<(nat, Choice)>): State
    decreases |schedule|
  {
    if schedule == [] then s
    else
      var (t, c) := schedule[0];
      Run(w, if Enabled(w, s, t, c) then Next(w, s, t, c) else s, schedule[1..])
  }

  // The order.

  predicate Ascending(keys: seq<nat>) {
    forall i, j :: 0 <= i < j < |keys| ==> keys[i] < keys[j]
  }

  /** Buffers by key, a gate just below the buffer it has been placed at, then the keyring, then the prekeys. */
  ghost predicate Below(place: nat -> nat, a: Lock, b: Lock) {
    match a
    case Buffer(i) => (match b case Buffer(j) => i < j case Gate(g) => i < place(g) case _ => true)
    case Gate(g) => (match b case Buffer(j) => place(g) <= j case Gate(h) => place(g) < place(h) case _ => true)
    case Keyring => b.Prekey?
    case Prekey(i) => b.Prekey? && i < b.gen
  }

  ghost predicate Above(place: nat -> nat, held: seq<Hold>, l: Lock) {
    forall i :: 0 <= i < |held| ==> Below(place, held[i].lock, l)
  }

  /** Every lock the script takes is above what is held at that point. */
  ghost predicate Legal(place: nat -> nat, held: seq<Hold>, todo: seq<Action>)
    decreases |todo|
  {
    todo == [] ||
    match todo[0]
    case Drop => Legal(place, Front(held), todo[1..])
    case Take(h) => Above(place, held, h.lock) && Legal(place, held + [h], todo[1..])
  }

  /** The source's own rule for a call, over its own buffers. */
  ghost predicate Fine(w: World, call: Call) {
    match call
    case Borrow(keys) => Ascending(keys)
    case Exclude(lock) => lock.Buffer? || lock.Prekey?
    case Sealing(_, _) => true
    case Scratch(keys, made) => Ascending(keys + made)
    case Derive(gate, mem, outer, out) =>
      && mem in w.mems(gate) && mem != out && Ascending(outer)
      && forall i :: 0 <= i < |outer| ==> outer[i] < mem && outer[i] < out
    case Close(_) => true
  }

  /** That rule, with the uses of workspaces among `derives`. */
  ghost function Rule(w: World, derives: set<Call>): Call -> bool {
    c => Fine(w, c) && (c.Derive? ==> c in derives)
  }

  /** Every call of the schedule follows a rule. */
  ghost predicate Obeys(rule: Call -> bool, schedule: seq<(nat, Choice)>) {
    forall i :: 0 <= i < |schedule| && schedule[i].1.Start? ==> rule(schedule[i].1.call)
  }

  ghost predicate Derivations(w: World, derives: set<Call>) {
    forall c :: c in derives ==> c.Derive? && Fine(w, c)
  }

  /** Whatever is held around a use of a workspace comes before every buffer that any use behind the same gate takes. */
  ghost predicate Compatible(derives: set<Call>) {
    forall a, b :: a in derives && b in derives && a.Derive? && b.Derive? && a.gate == b.gate ==>
      forall k :: k in a.outer ==> k < b.mem && k < b.out
  }

  // Every call's script is legal.

  lemma LegalStep(place: nat -> nat, held: seq<Hold>, a: Action, rest: seq<Action>)
    ensures Legal(place, held, [a] + rest) <==>
      if a.Drop? then Legal(place, Front(held), rest) else Above(place, held, a.h.lock) && Legal(place, held + [a.h], rest)
  {
    assert ([a] + rest)[1..] == rest;
  }

  /** Something taken and dropped again leaves the rest of the script as it was. */
  lemma LegalVisit(place: nat -> nat, held: seq<Hold>, h: Hold, rest: seq<Action>)
    requires Above(place, held, h.lock) && Legal(place, held, rest)
    ensures Legal(place, held, [Take(h), Drop] + rest)
  {
    hide Legal, Below;
    LegalStep(place, held + [h], Drop, rest);
    assert Front(held + [h]) == held;
    LegalStep(place, held, Take(h), [Drop] + rest);
    assert [Take(h), Drop] + rest == [Take(h)] + ([Drop] + rest);
  }

  function Borrowed(keys: seq<nat>): seq<Hold> {
    seq(|keys|, i requires 0 <= i < |keys| => Hold(Buffer(keys[i]), true))
  }

  lemma {:induction false} LegalShared(place: nat -> nat, held: seq<Hold>, keys: seq<nat>, rest: seq<Action>)
    requires Ascending(keys) && forall i :: 0 <= i < |keys| ==> Above(place, held, Buffer(keys[i]))
    requires Legal(place, held + Borrowed(keys), rest)
    ensures Legal(place, held, Shared(keys) + rest)
    decreases |keys|
  {
    hide Legal;
    if keys == [] {
      assert held + Borrowed(keys) == held && Shared(keys) + rest == rest;
    } else {
      var h, more := Hold(Buffer(keys[0]), true), keys[1..];
      assert held + Borrowed(keys) == (held + [h]) + Borrowed(more);
      LegalShared(place, held + [h], more, rest);
      LegalStep(place, held, Take(h), Shared(more) + rest);
      assert Shared(keys) + rest == [Take(h)] + (Shared(more) + rest);
    }
  }

  /** All of it is buffers and gates. */
  predicate Low(held: seq<Hold>) {
    forall i :: 0 <= i < |held| ==> held[i].lock.Buffer? || held[i].lock.Gate?
  }

  lemma {:induction false} LegalRenewals(place: nat -> nat, held: seq<Hold>, gens: seq<nat>, rest: seq<Action>)
    requires Low(held) && Legal(place, held + [Hold(Keyring, false)], rest)
    ensures Legal(place, held + [Hold(Keyring, false)], Renewals(gens) + rest)
    decreases |gens|
  {
    hide Legal;
    if gens == [] {
      assert Renewals(gens) + rest == rest;
    } else {
      LegalRenewals(place, held, gens[1..], rest);
      LegalVisit(place, held + [Hold(Keyring, false)], Hold(Prekey(gens[0]), false), Renewals(gens[1..]) + rest);
      assert Renewals(gens) + rest == [Alone(Prekey(gens[0])), Drop] + (Renewals(gens[1..]) + rest);
    }
  }

  lemma {:induction false} LegalVisits(place: nat -> nat, held: seq<Hold>, visits: seq<Visit>)
    requires Low(held)
    ensures Legal(place, held, Visits(visits))
    decreases |visits|
  {
    if visits == [] {
    } else {
      var v, k, after := visits[0], Hold(Keyring, false), Visits(visits[1..]);
      LegalVisits(place, held, visits[1..]);
      var used := (if v.gen.Some? then [Take(Hold(Prekey(v.gen.value), true)), Drop] else []) + after;
      LegalUse(place, held, v.gen, after);
      LegalStep(place, held + [k], Drop, used);
      assert Front(held + [k]) == held;
      LegalRenewals(place, held, v.renew, [Drop] + used);
      LegalStep(place, held, Take(k), Renewals(v.renew) + ([Drop] + used));
    }
  }

  lemma LegalUse(place: nat -> nat, held: seq<Hold>, gen: Option<nat>, rest: seq<Action>)
    requires Low(held) && Legal(place, held, rest)
    ensures Legal(place, held, (if gen.Some? then [Take(Hold(Prekey(gen.value), true)), Drop] else []) + rest)
  {
    if gen.Some? {
      LegalVisit(place, held, Hold(Prekey(gen.value), true), rest);
    } else {
      assert [] + rest == rest;
    }
  }

  lemma {:induction false} LegalNested(place: nat -> nat, held: seq<Hold>, made: seq<nat>, rest: seq<Action>)
    requires Ascending(made) && forall i :: 0 <= i < |made| ==> Above(place, held, Buffer(made[i]))
    requires Legal(place, held, rest)
    ensures Legal(place, held, Nested(made) + rest)
    decreases |made|
  {
    hide Legal;
    if made == [] {
      assert Nested(made) + rest == rest;
    } else {
      var h, more := Hold(Buffer(made[0]), true), made[1..];
      var inner := Nested(more);
      var destroy := [Alone(Buffer(made[0])), Drop] + rest;
      LegalVisit(place, held, Hold(Buffer(made[0]), false), rest);
      LegalStep(place, held + [h], Drop, destroy);
      assert Front(held + [h]) == held;
      LegalNested(place, held + [h], more, [Drop] + destroy);
      LegalStep(place, held, Take(h), inner + ([Drop] + destroy));
      assert [Drop, Alone(Buffer(made[0])), Drop] + rest == [Drop] + destroy;
      assert Nested(made) == [Take(h)] + (inner + [Drop, Alone(Buffer(made[0])), Drop]);
      Regroup(h, inner, [Drop, Alone(Buffer(made[0])), Drop], rest);
    }
  }

  lemma Regroup(h: Hold, a: seq<Action>, b: seq<Action>, rest: seq<Action>)
    ensures ([Take(h)] + (a + b)) + rest == [Take(h)] + (a + (b + rest))
  {
  }

  lemma {:induction false} LegalDestroys(place: nat -> nat, held: seq<Hold>, mems: seq<nat>)
    requires forall i :: 0 <= i < |mems| ==> Above(place, held, Buffer(mems[i]))
    ensures Legal(place, held, Destroys(mems))
    decreases |mems|
  {
    hide Legal;
    if mems == [] {
      LegalNothing(place, held);
    } else {
      LegalDestroys(place, held, mems[1..]);
      LegalVisit(place, held, Hold(Buffer(mems[0]), false), Destroys(mems[1..]));
    }
  }

  lemma LegalNothing(place: nat -> nat, held: seq<Hold>)
    ensures Legal(place, held, [])
  {
  }

  /** The gates are placed above what is held around them and not above what is taken behind them. */
  ghost predicate Placed(w: World, derives: set<Call>, place: nat -> nat) {
    && (forall c :: c in derives && c.Derive? ==>
          && place(c.gate) <= c.mem && place(c.gate) <= c.out
          && forall i :: 0 <= i < |c.outer| ==> c.outer[i] < place(c.gate))
    && (forall g :: w.cap(g) == 1 ==> forall i :: 0 <= i < |w.mems(g)| ==> place(g) <= w.mems(g)[i])
  }

  lemma LegalDerive(w: World, derives: set<Call>, place: nat -> nat, c: Call)
    requires Placed(w, derives, place) && c in derives && c.Derive? && Fine(w, c)
    ensures Legal(place, [], Script(w, c))
  {
    hide Legal;
    var held := Borrowed(c.outer);
    var gate, keys := Hold(Gate(c.gate), false), BorrowOrder(c.mem, c.out);
    assert Above(place, held, Gate(c.gate));
    forall i | 0 <= i < |keys|
      ensures Above(place, held + [gate], Buffer(keys[i]))
    {
      assert keys[i] == c.mem || keys[i] == c.out;
    }
    LegalNothing(place, (held + [gate]) + Borrowed(keys));
    LegalShared(place, held + [gate], keys, []);
    assert Shared(keys) + [] == Shared(keys);
    LegalStep(place, held, Take(gate), Shared(keys));
    assert [] + held == held;
    LegalShared(place, [], c.outer, [Take(gate)] + Shared(keys));
  }

  lemma LegalSealing(place: nat -> nat, key: nat, visits: seq<Visit>)
    ensures Legal(place, [], [Alone(Buffer(key))] + Visits(visits))
  {
    var h := Hold(Buffer(key), false);
    LegalVisits(place, [h], visits);
    LegalStep(place, [], Take(h), Visits(visits));
    assert [] + [h] == [h];
  }

  lemma LegalClose(w: World, derives: set<Call>, place: nat -> nat, g: nat)
    requires Placed(w, derives, place) && w.cap(g) == 1
    ensures Legal(place, [], [Alone(Gate(g))] + Destroys(w.mems(g)))
  {
    var h := Hold(Gate(g), false);
    LegalDestroys(place, [h], w.mems(g));
    LegalStep(place, [], Take(h), Destroys(w.mems(g)));
    assert [] + [h] == [h];
  }

  lemma LegalScript(w: World, derives: set<Call>, place: nat -> nat, c: Call)
    requires Placed(w, derives, place) && Fine(w, c) && (c.Derive? ==> c in derives)
    requires c.Close? ==> w.cap(c.gate) == 1
    ensures Legal(place, [], Script(w, c))
  {
    match c
    case Borrow(keys) =>
      LegalNothing(place, [] + Borrowed(keys));
      LegalShared(place, [], keys, []);
      assert Shared(keys) + [] == Shared(keys);
    case Exclude(lock) =>
    case Sealing(key, visits) => LegalSealing(place, key, visits);
    case Scratch(keys, made) =>
      ScratchSplits(keys, made);
      LegalNothing(place, Borrowed(keys));
      LegalNested(place, Borrowed(keys), made, []);
      assert Nested(made) + [] == Nested(made) && [] + Borrowed(keys) == Borrowed(keys);
      LegalShared(place, [], keys, Nested(made));
    case Derive(_, _, _, _) => LegalDerive(w, derives, place, c);
    case Close(g) => LegalClose(w, derives, place, g);
  }

  lemma ScratchSplits(keys: seq<nat>, made: seq<nat>)
    requires Ascending(keys + made)
    ensures Ascending(keys) && Ascending(made)
    ensures forall i, j :: 0 <= i < |keys| && 0 <= j < |made| ==> keys[i] < made[j]
  {
    var all := keys + made;
    assert forall i :: 0 <= i < |keys| ==> keys[i] == all[i];
    assert forall j :: 0 <= j < |made| ==> made[j] == all[|keys| + j];
  }

  // The invariant.

  ghost predicate Orderly(w: World, place: nat -> nat, p: Pc) {
    match p
    case Idle => true
    case Busy(held, todo) => Legal(place, held, todo) && (held != [] || todo != [])
    case Collecting(g, got) => got < w.cap(g)
  }

  ghost predicate Inv(w: World, place: nat -> nat, s: State) {
    && (forall t :: 0 <= t < |s.pcs| ==> Orderly(w, place, s.pcs[t]))
    && (forall t :: 0 <= t < |s.pcs| && s.pcs[t].Collecting? ==> s.pcs[t].gate in s.closing)
    // A pool's Destroy collects once.
    && (forall t, u :: 0 <= t < u < |s.pcs| && s.pcs[t].Collecting? && s.pcs[u].Collecting? ==> s.pcs[t].gate != s.pcs[u].gate)
  }

  lemma OnwardOrderly(w: World, place: nat -> nat, p: Pc, c: Choice)
    requires Orderly(w, place, p)
    ensures Orderly(w, place, Onward(w, p, c))
    ensures var q := Onward(w, p, c); q.Collecting? ==> p.Collecting? && q.gate == p.gate
  {
    if p.Collecting? {
      LegalDestroys(place, [], w.mems(p.gate));
    }
  }

  lemma StepInv(w: World, derives: set<Call>, place: nat -> nat, s: State, t: nat, c: Choice)
    requires w.Lawful() && Placed(w, derives, place) && Inv(w, place, s) && Enabled(w, s, t, c) && (c.Start? ==> Rule(w, derives)(c.call))
    ensures Inv(w, place, Next(w, s, t, c))
  {
    hide Legal, Placed, Free, Fine, Script;
    if !c.Start? {
      OnwardOrderly(w, place, s.pcs[t], c);
    } else if c.call.Close? && w.cap(c.call.gate) > 1 {
    } else {
      LegalScript(w, derives, place, c.call);
    }
  }

  lemma {:induction false} RunInv(w: World, derives: set<Call>, place: nat -> nat, s: State, schedule: seq<(nat, Choice)>)
    requires w.Lawful() && Placed(w, derives, place) && Inv(w, place, s) && Obeys(Rule(w, derives), schedule)
    ensures Inv(w, place, Run(w, s, schedule))
    decreases |schedule|
  {
    hide Inv, Placed, Enabled, Next, Rule;
    if schedule == [] {
    } else {
      var (t, c) := schedule[0];
      assert schedule[0].1 == c;
      assert Obeys(Rule(w, derives), schedule[1..]);
      if Enabled(w, s, t, c) {
        StepInv(w, derives, place, s, t, c);
        RunInv(w, derives, place, Next(w, s, t, c), schedule[1..]);
      } else {
        RunInv(w, derives, place, s, schedule[1..]);
      }
    }
  }

  // No circular wait.

  /** The thread is waiting for a lock, and for which. */
  predicate Waiting(p: Pc) {
    (p.Busy? && p.todo != [] && p.todo[0].Take?) || p.Collecting?
  }

  function Wanted(p: Pc): Lock
    requires Waiting(p)
  {
    if p.Busy? then p.todo[0].h.lock else Gate(p.gate)
  }

  /** Among the waiting threads, one that wants a lock that none wants one above. */
  lemma {:induction false} GreatestWant(place: nat -> nat, s: State, n: nat) returns (t: nat)
    requires n <= |s.pcs| && exists u :: 0 <= u < n && Waiting(s.pcs[u])
    ensures t < n && Waiting(s.pcs[t])
    ensures forall u :: 0 <= u < n && Waiting(s.pcs[u]) ==> !Below(place, Wanted(s.pcs[t]), Wanted(s.pcs[u]))
  {
    if exists u :: 0 <= u < n - 1 && Waiting(s.pcs[u]) {
      t := GreatestWant(place, s, n - 1);
      if Waiting(s.pcs[n - 1]) && Below(place, Wanted(s.pcs[t]), Wanted(s.pcs[n - 1])) {
        t := n - 1;
      }
    } else {
      t := n - 1;
    }
  }

  /** A waiting thread wants a lock above all it holds. */
  lemma WantsAboveHeld(w: World, place: nat -> nat, p: Pc, l: Lock)
    requires Orderly(w, place, p) && Waiting(p) && Holds(p, l)
    ensures Below(place, l, Wanted(p))
  {
  }

  /** With everybody waiting, a gate that nobody waits beyond has a place left. */
  lemma GateMoves(w: World, place: nat -> nat, s: State, g: nat)
    requires w.Lawful() && Inv(w, place, s) && forall v :: 0 <= v < |s.pcs| ==> !Holds(s.pcs[v], Gate(g))
    ensures Open(w, s, g)
  {
    hide Legal;
    if Total(s.pcs, SlotsOf(g)) > 0 {
      var v := TotalWitness(s.pcs, SlotsOf(g));
      assert s.pcs[v].Collecting? && s.pcs[v].gate == g;
      TotalMove(s.pcs, v, Idle, SlotsOf(g));
      var others := s.pcs[v := Idle];
      forall u | 0 <= u < |others|
        ensures Slots(others[u], g) == 0
      {
        if u != v && s.pcs[u].Busy? {
          assert !Holds(s.pcs[u], Gate(g));
        }
      }
      TotalNone(others, SlotsOf(g));
      assert Orderly(w, place, s.pcs[v]);
    }
  }

  /** With everybody waiting, nobody holds a greatest wanted lock, so its queue moves. */
  lemma StuckNowhere(w: World, place: nat -> nat, s: State, busy: nat) returns (u: nat)
    requires w.Lawful() && Inv(w, place, s) && busy < |s.pcs| && !s.pcs[busy].Idle?
    requires forall v :: 0 <= v < |s.pcs| && !s.pcs[v].Idle? ==> Waiting(s.pcs[v])
    ensures u < |s.pcs| && !s.pcs[u].Idle? && Enabled(w, s, u, Go)
  {
    hide Legal, Open;
    var t := GreatestWant(place, s, |s.pcs|);
    var l := Wanted(s.pcs[t]);
    forall v | 0 <= v < |s.pcs|
      ensures !Holds(s.pcs[v], l)
    {
      if Holds(s.pcs[v], l) {
        WantsAboveHeld(w, place, s.pcs[v], l);
      }
    }
    u := t;
    if l.Gate? {
      GateMoves(w, place, s, l.id);
    } else if WriterInPlay(s, l) {
      u :| 0 <= u < |s.pcs| && Excludes(s.pcs[u], l);
      WriterQueued(s.pcs[u], l);
    }
  }

  lemma WriterHolds(p: Pc, l: Lock)
    requires p.Busy? && Hold(l, false) in p.held
    ensures Holds(p, l)
  {
    var i :| 0 <= i < |p.held| && p.held[i] == Hold(l, false);
    assert p.held[i].lock == l;
  }

  lemma WriterQueued(p: Pc, l: Lock)
    requires Excludes(p, l) && !Holds(p, l)
    ensures p.Busy? && p.todo != [] && p.todo[0] == Take(Hold(l, false))
  {
    if Hold(l, false) in p.held {
      WriterHolds(p, l);
    }
  }

  // Where to place the gates.

  ghost function Least(s: set<nat>): (m: nat)
    requires s != {}
    ensures m in s && forall x :: x in s ==> m <= x
  {
    var x :| x in s;
    assert forall y :: y in s ==> y == x || y in s - {x};
    if s - {x} == {} then x
    else
      var m := Least(s - {x});
      if x < m then x else m
  }

  /** The buffers taken behind a gate. */
  ghost function Behind(w: World, derives: set<Call>, g: nat): set<nat> {
    (set c | c in derives && c.Derive? && c.gate == g :: c.mem)
    + (set c | c in derives && c.Derive? && c.gate == g :: c.out)
    + (if w.cap(g) == 1 then set m | m in w.mems(g) else {})
  }

  ghost function Placing(w: World, derives: set<Call>): nat -> nat {
    g => if Behind(w, derives, g) == {} then 0 else Least(Behind(w, derives, g))
  }

  lemma PlacingPlaced(w: World, derives: set<Call>)
    requires w.Lawful() && Derivations(w, derives) && Compatible(derives)
    ensures Placed(w, derives, Placing(w, derives))
  {
    var place := Placing(w, derives);
    forall c | c in derives && c.Derive?
      ensures place(c.gate) <= c.mem && place(c.gate) <= c.out
      ensures forall i :: 0 <= i < |c.outer| ==> c.outer[i] < place(c.gate)
    {
      PlacingBehind(w, derives, c);
    }
    forall g | w.cap(g) == 1
      ensures forall i :: 0 <= i < |w.mems(g)| ==> place(g) <= w.mems(g)[i]
    {
      forall i | 0 <= i < |w.mems(g)|
        ensures place(g) <= w.mems(g)[i]
      {
        assert w.mems(g)[i] in Behind(w, derives, g);
      }
    }
  }

  lemma PlacingBehind(w: World, derives: set<Call>, c: Call)
    requires w.Lawful() && Derivations(w, derives) && Compatible(derives) && c in derives
    ensures var p := Placing(w, derives)(c.gate); p <= c.mem && p <= c.out && forall i :: 0 <= i < |c.outer| ==> c.outer[i] < p
  {
    var behind := Behind(w, derives, c.gate);
    assert c.mem in behind && c.out in behind;
    var p := Least(behind);
    forall i | 0 <= i < |c.outer|
      ensures c.outer[i] < p
    {
      assert c.outer[i] in c.outer;
      BehindIs(w, derives, c, p);
    }
  }

  lemma BehindIs(w: World, derives: set<Call>, c: Call, p: nat)
    requires w.Lawful() && Derivations(w, derives) && Compatible(derives) && c in derives && p in Behind(w, derives, c.gate)
    ensures forall k :: k in c.outer ==> k < p
  {
    var b := BehindWhose(w, derives, c, p);
    assert forall k :: k in c.outer ==> k < b.mem && k < b.out;
  }

  /** Behind a gate are the buffers of its uses: a workspace of its own gate has one buffer, which every use takes. */
  lemma BehindWhose(w: World, derives: set<Call>, c: Call, p: nat) returns (b: Call)
    requires w.Lawful() && Derivations(w, derives) && c in derives && p in Behind(w, derives, c.gate)
    ensures b in derives && b.gate == c.gate && (p == b.mem || p == b.out)
  {
    b := c;
    if p != c.mem {
      assert w.cap(c.gate) == 1 ==> |w.mems(c.gate)| == 1 && c.mem == w.mems(c.gate)[0];
      b :| b in derives && b.Derive? && b.gate == c.gate && (p == b.mem || p == b.out);
    }
  }

  /** No circular wait: with compatible uses of workspaces, as long as some thread is busy, some busy thread can step. */
  lemma NoDeadlock(w: World, derives: set<Call>, threads: nat, schedule: seq<(nat, Choice)>, busy: nat) returns (u: nat)
    requires w.Lawful() && Derivations(w, derives) && Compatible(derives) && Obeys(Rule(w, derives), schedule)
    requires var s := Run(w, Init(threads), schedule); busy < |s.pcs| && !s.pcs[busy].Idle?
    ensures var s := Run(w, Init(threads), schedule); u < |s.pcs| && !s.pcs[u].Idle? && Enabled(w, s, u, Go)
  {
    hide Run, Placed, Obeys, Rule, Compatible, Derivations, Legal;
    var s, place := Run(w, Init(threads), schedule), Placing(w, derives);
    PlacingPlaced(w, derives);
    RunInv(w, derives, place, Init(threads), schedule);
    if Waiting(s.pcs[busy]) && forall v :: 0 <= v < |s.pcs| && !s.pcs[v].Idle? ==> Waiting(s.pcs[v]) {
      u := StuckNowhere(w, place, s, busy);
    } else if !Waiting(s.pcs[busy]) {
      u := busy;
    } else {
      u :| 0 <= u < |s.pcs| && !s.pcs[u].Idle? && !Waiting(s.pcs[u]);
    }
  }

  // The condition on the uses of workspaces is exact.

  /** A state that some schedule of calls of a rule leads to. */
  ghost predicate Reached(w: World, rule: Call -> bool, threads: nat, s: State) {
    exists schedule :: Obeys(rule, schedule) && s == Run(w, Init(threads), schedule)
  }

  /** Somebody is inside a call, and nobody inside a call can step. */
  ghost predicate Stuck(w: World, s: State) {
    && (exists t :: 0 <= t < |s.pcs| && !s.pcs[t].Idle?)
    && forall t: nat, c :: t < |s.pcs| && !s.pcs[t].Idle? ==> !Enabled(w, s, t, c)
  }

  /** No schedule of calls of the source's rule gets stuck. */
  ghost predicate Safe(w: World, derives: set<Call>) {
    forall threads, s :: Reached(w, Rule(w, derives), threads, s) ==> !Stuck(w, s)
  }

  lemma {:induction false} RunThen(w: World, s: State, schedule: seq<(nat, Choice)>, t: nat, c: Choice)
    requires Enabled(w, Run(w, s, schedule), t, c)
    ensures Run(w, s, schedule + [(t, c)]) == Next(w, Run(w, s, schedule), t, c)
    decreases |schedule|
  {
    hide Enabled, Next;
    if schedule == [] {
      assert Run(w, s, [(t, c)]) == Run(w, Next(w, s, t, c), [(t, c)][1..]);
    } else {
      var (u, d) := schedule[0];
      RunThen(w, if Enabled(w, s, u, d) then Next(w, s, u, d) else s, schedule[1..], t, c);
      assert (schedule + [(t, c)])[1..] == schedule[1..] + [(t, c)];
    }
  }

  lemma ReachedNext(w: World, rule: Call -> bool, threads: nat, s: State, t: nat, c: Choice)
    requires Reached(w, rule, threads, s) && Enabled(w, s, t, c) && (c.Start? ==> rule(c.call))
    ensures Reached(w, rule, threads, Next(w, s, t, c))
  {
    hide Enabled, Next, Run;
    var schedule :| Obeys(rule, schedule) && s == Run(w, Init(threads), schedule);
    RunThen(w, Init(threads), schedule, t, c);
    assert Obeys(rule, schedule + [(t, c)]);
  }

  lemma ReachedInit(w: World, rule: Call -> bool, threads: nat)
    ensures Reached(w, rule, threads, Init(threads))
  {
    assert Obeys(rule, []) && Init(threads) == Run(w, Init(threads), []);
  }

  /** No thread has or wants a buffer for itself. */
  ghost predicate Calm(s: State) {
    forall u, k :: 0 <= u < |s.pcs| ==> !Excludes(s.pcs[u], Buffer(k))
  }

  function At(s: State, t: nat, p: Pc): State
    requires t < |s.pcs|
  {
    s.(pcs := s.pcs[t := p])
  }

  /** A thread takes shared borrows one after the other when nobody is in its way. */
  lemma {:induction false} Borrows(w: World, rule: Call -> bool, n: nat, s: State, t: nat, held: seq<Hold>, keys: seq<nat>, rest: seq<Action>)
    requires Calm(s) && t < |s.pcs| && (forall i :: 0 <= i < |held| ==> held[i].shared)
    requires Reached(w, rule, n, At(s, t, Busy(held, Shared(keys) + rest)))
    ensures Reached(w, rule, n, At(s, t, Busy(held + Borrowed(keys), rest)))
    decreases |keys|
  {
    hide Reached;
    if keys == [] {
      assert Shared(keys) + rest == rest && held + Borrowed(keys) == held;
    } else {
      var h, more := Hold(Buffer(keys[0]), true), keys[1..];
      var p := Busy(held, Shared(keys) + rest);
      assert Shared(keys) + rest == [Take(h)] + (Shared(more) + rest);
      assert p.todo[0] == Take(h) && p.todo[1..] == Shared(more) + rest;
      forall k
        ensures !Excludes(p, Buffer(k))
      {
      }
      ReachedNext(w, rule, n, At(s, t, p), t, Go);
      assert Next(w, At(s, t, p), t, Go) == At(s, t, Busy(held + [h], Shared(more) + rest));
      Borrows(w, rule, n, s, t, held + [h], more, rest);
      assert held + Borrowed(keys) == (held + [h]) + Borrowed(more);
    }
  }

  /** A call gets through the borrows it starts with. */
  lemma Enters(w: World, rule: Call -> bool, n: nat, s: State, t: nat, call: Call, keys: seq<nat>, rest: seq<Action>)
    requires Reached(w, rule, n, s) && Calm(s) && t < |s.pcs| && s.pcs[t].Idle?
    requires rule(call) && !call.Close? && Script(w, call) == Shared(keys) + rest && rest != []
    ensures Reached(w, rule, n, At(s, t, Busy(Borrowed(keys), rest)))
  {
    hide Reached, Script;
    ReachedNext(w, rule, n, s, t, Start(call));
    Borrows(w, rule, n, s, t, [], keys, rest);
    assert [] + Borrowed(keys) == Borrowed(keys);
  }

  /** A writer queues up. */
  lemma Queues(w: World, rule: Call -> bool, n: nat, s: State, t: nat, k: nat)
    requires Reached(w, rule, n, s) && t < |s.pcs| && s.pcs[t].Idle? && rule(Exclude(Buffer(k)))
    ensures Reached(w, rule, n, At(s, t, Queued(k)))
  {
    hide Reached;
    ReachedNext(w, rule, n, s, t, Start(Exclude(Buffer(k))));
  }

  /** A use of a workspace that is through its gate. */
  ghost function Inside(b: Call): Pc
    requires b.Derive?
  {
    Busy(Borrowed(b.outer) + [Hold(Gate(b.gate), false)], Shared(BorrowOrder(b.mem, b.out)))
  }

  ghost function Filled(b: Call, n: nat, j: nat): State
    requires b.Derive?
  {
    State(seq(n, i => if i < j then Inside(b) else Idle), {})
  }

  lemma LesserFirst(a: nat, b: nat)
    ensures |BorrowOrder(a, b)| == 2 && BorrowOrder(a, b)[0] == if a <= b then a else b
  {
  }

  lemma InsideSlots(b: Call, g: nat)
    requires b.Derive? && b.gate == g
    ensures Slots(Inside(b), g) == 1
    ensures forall rest :: Slots(Busy(Borrowed(b.outer), rest), g) == 0
    ensures forall k :: !Excludes(Inside(b), Buffer(k))
  {
    assert Inside(b).held[|b.outer|].lock == Gate(g);
  }

  lemma {:induction false} Fills(w: World, rule: Call -> bool, b: Call, n: nat, j: nat)
    requires w.Lawful() && b.Derive? && rule(b) && j <= w.cap(b.gate) && j <= n
    ensures Reached(w, rule, n, Filled(b, n, j)) && Total(Filled(b, n, j).pcs, SlotsOf(b.gate)) == j
  {
    hide Reached, Script;
    if j == 0 {
      ReachedInit(w, rule, n);
      assert Filled(b, n, 0) == Init(n);
      TotalNone(Init(n).pcs, SlotsOf(b.gate));
    } else {
      Fills(w, rule, b, n, j - 1);
      FillsOne(w, rule, b, n, j - 1);
    }
  }

  lemma FillsOne(w: World, rule: Call -> bool, b: Call, n: nat, j: nat)
    requires b.Derive? && rule(b) && j < w.cap(b.gate) && j < n
    requires Reached(w, rule, n, Filled(b, n, j)) && Total(Filled(b, n, j).pcs, SlotsOf(b.gate)) == j
    ensures Reached(w, rule, n, Filled(b, n, j + 1)) && Total(Filled(b, n, j + 1).pcs, SlotsOf(b.gate)) == j + 1
  {
    hide Reached, Excludes, Total, Slots;
    var s, g := Filled(b, n, j), b.gate;
    InsideSlots(b, g);
    IdleSlots(g);
    var rest := [Alone(Gate(g))] + Shared(BorrowOrder(b.mem, b.out));
    Enters(w, rule, n, s, j, b, b.outer, rest);
    var p := Busy(Borrowed(b.outer), rest);
    TotalMove(s.pcs, j, p, SlotsOf(g));
    assert rest[0] == Alone(Gate(g)) && rest[1..] == Shared(BorrowOrder(b.mem, b.out));
    ReachedNext(w, rule, n, At(s, j, p), j, Go);
    TotalMove(s.pcs, j, Inside(b), SlotsOf(g));
    assert Next(w, At(s, j, p), j, Go).pcs == s.pcs[j := Inside(b)] == Filled(b, n, j + 1).pcs;
    assert Next(w, At(s, j, p), j, Go) == Filled(b, n, j + 1);
  }

  lemma IdleSlots(g: nat)
    ensures Slots(Idle, g) == 0 && forall k :: !Excludes(Idle, Buffer(k))
  {
  }

  /** Two uses behind one gate, the first of which is inside a borrow that does not come before what the second takes. */
  ghost predicate Clash(a: Call, b: Call, k: nat, x: nat) {
    a.Derive? && b.Derive? && a.gate == b.gate && k in a.outer && x <= k && x == if b.mem <= b.out then b.mem else b.out
  }

  /** A use at its gate, inside its borrows. */
  ghost function AtGate(a: Call): Pc
    requires a.Derive?
  {
    Busy(Borrowed(a.outer), [Alone(Gate(a.gate))] + Shared(BorrowOrder(a.mem, a.out)))
  }

  /** A thread that holds x and wants k, both shared; and a writer that wants k. */
  function Between(x: nat, k: nat): Pc { Busy(Borrowed([x]), Shared([k])) }
  function Queued(k: nat): Pc { Busy([], [Alone(Buffer(k))]) }

  /** The gate is full of the second use, and the first waits at it inside its borrows. */
  ghost predicate Crowd(w: World, s: State, a: Call, b: Call)
    requires a.Derive? && b.Derive?
  {
    var c := w.cap(a.gate);
    && |s.pcs| == c + 4 && (forall i :: 0 <= i < c ==> s.pcs[i] == Inside(b)) && s.pcs[c] == AtGate(a)
    && Total(s.pcs, SlotsOf(a.gate)) == c
  }

  lemma Crowded(w: World, rule: Call -> bool, a: Call, b: Call, k: nat, x: nat) returns (s: State)
    requires w.Lawful() && Clash(a, b, k, x) && rule(a) && rule(b)
    ensures Reached(w, rule, w.cap(a.gate) + 4, s) && Crowd(w, s, a, b) && Calm(s)
    ensures forall i :: w.cap(a.gate) < i < |s.pcs| ==> s.pcs[i] == Idle
  {
    hide Reached, Total;
    var c, g := w.cap(a.gate), a.gate;
    var rest := [Alone(Gate(g))] + Shared(BorrowOrder(a.mem, a.out));
    Fills(w, rule, b, c + 4, c);
    InsideSlots(b, g);
    Enters(w, rule, c + 4, Filled(b, c + 4, c), c, a, a.outer, rest);
    s := At(Filled(b, c + 4, c), c, Busy(Borrowed(a.outer), rest));
    TotalMove(Filled(b, c + 4, c).pcs, c, Busy(Borrowed(a.outer), rest), SlotsOf(g));
    InsideSlots(a, g);
    assert rest[0] == Alone(Gate(g));
  }

  /** A thread that has no workspace before or after leaves the crowd as it is. */
  lemma CrowdKept(w: World, s: State, a: Call, b: Call, t: nat, p: Pc)
    requires a.Derive? && b.Derive? && Crowd(w, s, a, b) && w.cap(a.gate) < t < |s.pcs|
    requires Slots(s.pcs[t], a.gate) == 0 && Slots(p, a.gate) == 0
    ensures Crowd(w, At(s, t, p), a, b)
  {
    hide Total, Slots, Inside, AtGate;
    TotalMove(s.pcs, t, p, SlotsOf(a.gate));
  }

  lemma NoSlots(g: nat, k: nat, x: nat)
    ensures Slots(Idle, g) == 0 && Slots(Queued(k), g) == 0 && Slots(Between(x, k), g) == 0
  {
  }

  /** What each of them waits for, and which borrows it holds. */
  lemma Heads(a: Call, b: Call, k: nat, x: nat) returns (i: nat)
    requires Clash(a, b, k, x)
    ensures Inside(b).Busy? && Inside(b).todo != [] && Inside(b).todo[0] == Take(Hold(Buffer(x), true))
    ensures AtGate(a).Busy? && AtGate(a).todo != [] && AtGate(a).todo[0] == Alone(Gate(a.gate))
    ensures i < |AtGate(a).held| && AtGate(a).held[i].lock == Buffer(k)
  {
    hide BorrowOrder;
    i :| 0 <= i < |a.outer| && a.outer[i] == k;
    LesserFirst(b.mem, b.out);
  }

  lemma WaitsForGate(w: World, s: State, t: nat, g: nat, ch: Choice)
    requires t < |s.pcs| && s.pcs[t].Busy? && s.pcs[t].todo != [] && s.pcs[t].todo[0] == Alone(Gate(g))
    requires Total(s.pcs, SlotsOf(g)) == w.cap(g)
    ensures !Enabled(w, s, t, ch)
  {
  }

  lemma WaitsForReader(w: World, s: State, t: nat, u: nat, k: nat, i: nat, ch: Choice)
    requires t < |s.pcs| && s.pcs[t] == Queued(k)
    requires u < |s.pcs| && s.pcs[u].Busy? && i < |s.pcs[u].held| && s.pcs[u].held[i].lock == Buffer(k)
    ensures !Enabled(w, s, t, ch)
  {
    assert Holds(s.pcs[u], Buffer(k));
  }

  lemma WaitsForWriter(w: World, s: State, t: nat, u: nat, k: nat, ch: Choice)
    requires t < |s.pcs| && s.pcs[t].Busy? && s.pcs[t].todo != [] && s.pcs[t].todo[0] == Take(Hold(Buffer(k), true))
    requires u < |s.pcs| && s.pcs[u] == Queued(k)
    ensures !Enabled(w, s, t, ch)
  {
    assert Excludes(s.pcs[u], Buffer(k));
  }

  /** Everybody waits: the uses inside for x behind its writer, the first for the gate, the writers for the borrows. */
  lemma CrowdStuck(w: World, s: State, a: Call, b: Call, k: nat, x: nat)
    requires Clash(a, b, k, x) && Crowd(w, s, a, b)
    requires var c := w.cap(a.gate);
      && s.pcs[c + 1] == Queued(k)
      && (if x < k then s.pcs[c + 2] == Between(x, k) && s.pcs[c + 3] == Queued(x) else s.pcs[c + 2] == s.pcs[c + 3] == Idle)
    ensures Stuck(w, s)
  {
    var c := w.cap(a.gate);
    forall t: nat, ch | t < |s.pcs| && !s.pcs[t].Idle?
      ensures !Enabled(w, s, t, ch)
    {
      OneStuck(w, s, a, b, k, x, t, ch);
    }
    assert !s.pcs[c].Idle?;
  }

  lemma OneStuck(w: World, s: State, a: Call, b: Call, k: nat, x: nat, t: nat, ch: Choice)
    requires Clash(a, b, k, x) && Crowd(w, s, a, b) && t < |s.pcs| && !s.pcs[t].Idle?
    requires var c := w.cap(a.gate);
      && s.pcs[c + 1] == Queued(k)
      && (if x < k then s.pcs[c + 2] == Between(x, k) && s.pcs[c + 3] == Queued(x) else s.pcs[c + 2] == s.pcs[c + 3] == Idle)
    ensures !Enabled(w, s, t, ch)
  {
    hide Enabled, Inside, AtGate, Total, Slots, Queued;
    var c := w.cap(a.gate);
    var i := Heads(a, b, k, x);
    if t < c {
      WaitsForWriter(w, s, t, if x < k then c + 3 else c + 1, x, ch);
    } else if t == c {
      WaitsForGate(w, s, c, a.gate, ch);
    } else if t == c + 1 {
      WaitsForReader(w, s, t, c, k, i, ch);
    } else if t == c + 2 {
      WaitsForWriter(w, s, t, c + 1, k, ch);
    } else {
      WaitsForReader(w, s, t, c + 2, x, 0, ch);
    }
  }

  /** Such a pair gets stuck, with one more ordered borrow and one or two writers. */
  lemma ClashWedges(w: World, rule: Call -> bool, a: Call, b: Call, k: nat, x: nat) returns (n: nat, s: State)
    requires w.Lawful() && Clash(a, b, k, x) && rule(a) && rule(b)
    requires rule(Exclude(Buffer(k))) && rule(Exclude(Buffer(x))) && (x < k ==> rule(Borrow([x, k])))
    ensures Reached(w, rule, n, s) && Stuck(w, s)
  {
    hide Reached, Stuck, Calm, Slots, Inside, AtGate, Total;
    var c := w.cap(a.gate);
    n := c + 4;
    s := Crowded(w, rule, a, b, k, x);
    NoSlots(a.gate, k, x);
    NoSlots(a.gate, x, x);
    if x < k {
      assert Script(w, Borrow([x, k])) == Shared([x]) + Shared([k]);
      Enters(w, rule, n, s, c + 2, Borrow([x, k]), [x], Shared([k]));
      CrowdKept(w, s, a, b, c + 2, Between(x, k));
      s := At(s, c + 2, Between(x, k));
      Queues(w, rule, n, s, c + 3, x);
      CrowdKept(w, s, a, b, c + 3, Queued(x));
      s := At(s, c + 3, Queued(x));
    }
    Queues(w, rule, n, s, c + 1, k);
    CrowdKept(w, s, a, b, c + 1, Queued(k));
    s := At(s, c + 1, Queued(k));
    CrowdStuck(w, s, a, b, k, x);
  }

  /**
   * Exactly when the rule of ascending keys, call by call, rules out deadlock: when whatever is held around a use of
   * a workspace also comes before the buffers that every other use behind the same gate takes.
   */
  lemma ExactlyWhen(w: World, derives: set<Call>)
    requires w.Lawful() && Derivations(w, derives)
    ensures Safe(w, derives) <==> Compatible(derives)
  {
    hide Stuck, Reached, Fine, Inside;
    if Compatible(derives) {
      forall threads, s | Reached(w, Rule(w, derives), threads, s)
        ensures !Stuck(w, s)
      {
        NotStuck(w, derives, threads, s);
      }
    } else {
      var a, b, k := Incompatible(derives);
      var x := if b.mem <= b.out then b.mem else b.out;
      RuleAllows(w, derives, k, x);
      var n, s := ClashWedges(w, Rule(w, derives), a, b, k, x);
    }
  }

  lemma Incompatible(derives: set<Call>) returns (a: Call, b: Call, k: nat)
    requires !Compatible(derives)
    ensures a in derives && b in derives && Clash(a, b, k, if b.Derive? && b.mem <= b.out then b.mem else if b.Derive? then b.out else 0)
  {
    a, b :| a in derives && b in derives && a.Derive? && b.Derive? && a.gate == b.gate
            && exists k :: k in a.outer && !(k < b.mem && k < b.out);
    k :| k in a.outer && !(k < b.mem && k < b.out);
  }

  lemma RuleAllows(w: World, derives: set<Call>, k: nat, x: nat)
    ensures var rule := Rule(w, derives);
      rule(Exclude(Buffer(k))) && rule(Exclude(Buffer(x))) && (x < k ==> rule(Borrow([x, k])))
  {
  }

  lemma NotStuck(w: World, derives: set<Call>, threads: nat, s: State)
    requires w.Lawful() && Derivations(w, derives) && Compatible(derives) && Reached(w, Rule(w, derives), threads, s)
    ensures !Stuck(w, s)
  {
    hide Run, Enabled, Obeys, Compatible, Derivations, Rule;
    var schedule :| Obeys(Rule(w, derives), schedule) && s == Run(w, Init(threads), schedule);
    if t :| 0 <= t < |s.pcs| && !s.pcs[t].Idle? {
      var u := NoDeadlock(w, derives, threads, schedule, t);
    }
  }

  /** Why borrows ascend: for any two buffers, opposite orders with a writer queued on each get four threads stuck. */
  lemma OppositeOrdersWedge(w: World, a: nat, b: nat) returns (s: State)
    requires a != b
    ensures Reached(w, c => c == Borrow([a, b]) || c == Borrow([b, a]) || c.Exclude?, 4, s)
    ensures |s.pcs| == 4 && (forall t :: 0 <= t < 4 ==> !s.pcs[t].Idle?) && Stuck(w, s)
  {
    hide Reached, Stuck;
    var rule := c => c == Borrow([a, b]) || c == Borrow([b, a]) || c.Exclude?;
    ReachedInit(w, rule, 4);
    s := Init(4);
    assert Script(w, Borrow([a, b])) == Shared([a]) + Shared([b]) && Script(w, Borrow([b, a])) == Shared([b]) + Shared([a]);
    Enters(w, rule, 4, s, 0, Borrow([a, b]), [a], Shared([b]));
    s := At(s, 0, Busy(Borrowed([a]), Shared([b])));
    Enters(w, rule, 4, s, 1, Borrow([b, a]), [b], Shared([a]));
    s := At(s, 1, Busy(Borrowed([b]), Shared([a])));
    Queues(w, rule, 4, s, 2, a);
    s := At(s, 2, Queued(a));
    Queues(w, rule, 4, s, 3, b);
    s := At(s, 3, Queued(b));
    FourStuck(w, s, a, b);
  }

  lemma FourStuck(w: World, s: State, a: nat, b: nat)
    requires s.pcs == [Between(a, b), Between(b, a), Queued(a), Queued(b)]
    ensures Stuck(w, s)
  {
    forall t: nat, ch | t < 4
      ensures !Enabled(w, s, t, ch)
    {
      if t == 0 {
        WaitsForWriter(w, s, 0, 3, b, ch);
      } else if t == 1 {
        WaitsForWriter(w, s, 1, 2, a, ch);
      } else if t == 2 {
        WaitsForReader(w, s, 2, 0, a, 0, ch);
      } else {
        WaitsForReader(w, s, 3, 1, b, 0, ch);
      }
    }
    assert !s.pcs[0].Idle?;
  }

  // What each call takes, and what it has in its hands at the end.

  /** What is held once a script has run. */
  function Carried(held: seq<Hold>, todo: seq<Action>): seq<Hold>
    decreases |todo|
  {
    if todo == [] then held
    else Carried(if todo[0].Drop? then Front(held) else held + [todo[0].h], todo[1..])
  }

  /** A thread that is let go on and never stops. */
  ghost function Ran(w: World, p: Pc, n: nat): Pc
    decreases n
  {
    if n == 0 then p else Ran(w, Onward(w, p, Go), n - 1)
  }

  /** It runs its script to the end, taking and dropping as it says. */
  lemma {:induction false} RunsScript(w: World, held: seq<Hold>, todo: seq<Action>)
    ensures Ran(w, Settled(held, todo), |todo|) == Settled(Carried(held, todo), [])
    decreases |todo|
  {
    if todo == [] {
    } else {
      RunsScript(w, if todo[0].Drop? then Front(held) else held + [todo[0].h], todo[1..]);
    }
  }

  lemma {:induction false} CarriedJoin(held: seq<Hold>, a: seq<Action>, b: seq<Action>)
    ensures Carried(held, a + b) == Carried(Carried(held, a), b)
    decreases |a|
  {
    if a == [] {
      assert a + b == b;
    } else {
      assert (a + b)[1..] == a[1..] + b;
      CarriedJoin(if a[0].Drop? then Front(held) else held + [a[0].h], a[1..], b);
    }
  }

  lemma CarriedVisit(held: seq<Hold>, h: Hold)
    ensures Carried(held, [Take(h), Drop]) == held && Carried(held, [Take(h)]) == held + [h]
  {
    assert [Take(h), Drop][1..] == [Drop] && [Drop][1..] == [] && [Take(h)][1..] == [];
    assert Front(held + [h]) == held;
  }

  lemma {:induction false} CarriedShared(held: seq<Hold>, keys: seq<nat>)
    ensures Carried(held, Shared(keys)) == held + Borrowed(keys)
    decreases |keys|
  {
    if keys == [] {
    } else {
      var h := Hold(Buffer(keys[0]), true);
      CarriedShared(held + [h], keys[1..]);
      assert Shared(keys)[1..] == Shared(keys[1..]);
      assert held + [h] + Borrowed(keys[1..]) == held + Borrowed(keys);
    }
  }

  lemma {:induction false} CarriedRenewals(held: seq<Hold>, gens: seq<nat>)
    ensures Carried(held, Renewals(gens)) == held
    decreases |gens|
  {
    if gens == [] {
    } else {
      CarriedVisit(held, Hold(Prekey(gens[0]), false));
      CarriedJoin(held, [Alone(Prekey(gens[0])), Drop], Renewals(gens[1..]));
      CarriedRenewals(held, gens[1..]);
    }
  }

  /** One use of the keyring: its prekeys are renewed under its mutex, and one is used after that is dropped. */
  lemma {:induction false} CarriedVisits(held: seq<Hold>, visits: seq<Visit>)
    ensures Carried(held, Visits(visits)) == held
    decreases |visits|
  {
    hide Renewals;
    if visits == [] {
    } else {
      var k, v := Hold(Keyring, false), visits[0];
      var use := if v.gen.Some? then [Take(Hold(Prekey(v.gen.value), true)), Drop] else [];
      CarriedVisits(held, visits[1..]);
      if v.gen.Some? {
        CarriedVisit(held, Hold(Prekey(v.gen.value), true));
      }
      CarriedVisit(held, k);
      CarriedRenewals(held + [k], v.renew);
      CarriedJoin(held, use, Visits(visits[1..]));
      CarriedDrop(held, k);
      CarriedJoin(held + [k], [Drop], use + Visits(visits[1..]));
      CarriedJoin(held + [k], Renewals(v.renew), [Drop] + (use + Visits(visits[1..])));
      CarriedJoin(held, [Alone(Keyring)], Renewals(v.renew) + ([Drop] + (use + Visits(visits[1..]))));
    }
  }

  lemma CarriedDrop(held: seq<Hold>, h: Hold)
    ensures Carried(held + [h], [Drop]) == held
  {
    assert [Drop][1..] == [];
    assert Front(held + [h]) == held;
  }

  lemma {:induction false} CarriedNested(held: seq<Hold>, made: seq<nat>)
    ensures Carried(held, Nested(made)) == held
    decreases |made|
  {
    if made == [] {
    } else {
      var h, x := Hold(Buffer(made[0]), true), Hold(Buffer(made[0]), false);
      CarriedVisit(held, h);
      CarriedVisit(held, x);
      CarriedNested(held + [h], made[1..]);
      CarriedDrop(held, h);
      assert [Drop, Alone(Buffer(made[0])), Drop] == [Drop] + [Take(x), Drop];
      CarriedJoin(held + [h], [Drop], [Take(x), Drop]);
      CarriedJoin(held + [h], Nested(made[1..]), [Drop, Alone(Buffer(made[0])), Drop]);
      CarriedJoin(held, [Take(h)], Nested(made[1..]) + [Drop, Alone(Buffer(made[0])), Drop]);
    }
  }

  lemma {:induction false} CarriedDestroys(held: seq<Hold>, mems: seq<nat>)
    ensures Carried(held, Destroys(mems)) == held
    decreases |mems|
  {
    if mems == [] {
    } else {
      CarriedVisit(held, Hold(Buffer(mems[0]), false));
      CarriedJoin(held, [Alone(Buffer(mems[0])), Drop], Destroys(mems[1..]));
      CarriedDestroys(held, mems[1..]);
    }
  }

  /** What a call holds when its script has run, before it lets go and returns. */
  function Inmost(call: Call): seq<Hold> {
    match call
    case Borrow(keys) => Borrowed(keys)
    case Exclude(lock) => [Hold(lock, false)]
    case Sealing(key, _) => [Hold(Buffer(key), false)]
    case Scratch(keys, _) => Borrowed(keys)
    case Derive(gate, mem, outer, out) => Borrowed(outer) + ([Hold(Gate(gate), false)] + Borrowed(BorrowOrder(mem, out)))
    case Close(gate) => [Hold(Gate(gate), false)]
  }

  /** Left to run, every call gets there. */
  lemma CallReaches(w: World, call: Call)
    ensures Ran(w, Settled([], Script(w, call)), |Script(w, call)|) == Settled(Inmost(call), [])
  {
    hide Ran, Carried, Script, Inmost;
    RunsScript(w, [], Script(w, call));
    match call
    case Borrow(keys) => BorrowCarries(w, keys);
    case Exclude(lock) => ExcludeCarries(w, lock);
    case Sealing(key, visits) => SealingCarries(w, key, visits);
    case Scratch(keys, made) => ScratchCarries(w, keys, made);
    case Derive(gate, mem, outer, out) => DeriveCarries(w, gate, mem, outer, out);
    case Close(gate) => CloseCarries(w, gate);
  }

  lemma NothingBefore(held: seq<Hold>)
    ensures [] + held == held
  {
  }

  lemma BorrowCarries(w: World, keys: seq<nat>)
    ensures Carried([], Script(w, Borrow(keys))) == Inmost(Borrow(keys))
  {
    hide Carried, Shared, Borrowed;
    CarriedShared([], keys);
    NothingBefore(Borrowed(keys));
  }

  lemma ExcludeCarries(w: World, lock: Lock)
    ensures Carried([], Script(w, Exclude(lock))) == Inmost(Exclude(lock))
  {
    hide Carried;
    CarriedVisit([], Hold(lock, false));
    NothingBefore([Hold(lock, false)]);
  }

  lemma SealingCarries(w: World, key: nat, visits: seq<Visit>)
    ensures Carried([], Script(w, Sealing(key, visits))) == Inmost(Sealing(key, visits))
  {
    hide Carried, Visits;
    var h := Hold(Buffer(key), false);
    CarriedVisit([], h);
    NothingBefore([h]);
    CarriedJoin([], [Alone(Buffer(key))], Visits(visits));
    CarriedVisits([h], visits);
  }

  lemma ScratchCarries(w: World, keys: seq<nat>, made: seq<nat>)
    ensures Carried([], Script(w, Scratch(keys, made))) == Inmost(Scratch(keys, made))
  {
    hide Carried, Shared, Nested, Borrowed;
    CarriedShared([], keys);
    NothingBefore(Borrowed(keys));
    CarriedJoin([], Shared(keys), Nested(made));
    CarriedNested(Borrowed(keys), made);
  }

  lemma DeriveCarries(w: World, gate: nat, mem: nat, outer: seq<nat>, out: nat)
    ensures Carried([], Script(w, Derive(gate, mem, outer, out))) == Inmost(Derive(gate, mem, outer, out))
  {
    hide Carried, Shared, Borrowed, BorrowOrder;
    var g, inner := Hold(Gate(gate), false), BorrowOrder(mem, out);
    CarriedShared([], outer);
    NothingBefore(Borrowed(outer));
    CarriedJoin([], Shared(outer), [Alone(Gate(gate))] + Shared(inner));
    CarriedVisit(Borrowed(outer), g);
    CarriedJoin(Borrowed(outer), [Alone(Gate(gate))], Shared(inner));
    CarriedShared(Borrowed(outer) + [g], inner);
    assert Borrowed(outer) + [g] + Borrowed(inner) == Borrowed(outer) + ([g] + Borrowed(inner));
  }

  lemma CloseCarries(w: World, gate: nat)
    ensures Carried([], Script(w, Close(gate))) == Inmost(Close(gate))
  {
    hide Carried, Destroys;
    var g := Hold(Gate(gate), false);
    CarriedVisit([], g);
    NothingBefore([g]);
    CarriedJoin([], [Alone(Gate(gate))], Destroys(w.mems(gate)));
    CarriedDestroys([g], w.mems(gate));
  }

  /** One visit to the keyring uses this prekey, or renews it. */
  ghost predicate Touches(v: Visit, h: Hold) {
    h.lock.Prekey? && if h.shared then v.gen == Some(h.lock.gen) else h.lock.gen in v.renew
  }

  /** A call takes these locks, in this way, and no other. */
  ghost predicate Uses(w: World, call: Call, h: Hold) {
    match call
    case Borrow(keys) => h.shared && h.lock.Buffer? && h.lock.key in keys
    case Exclude(lock) => h == Hold(lock, false)
    case Sealing(key, visits) =>
      || h == Hold(Buffer(key), false)
      || (h == Hold(Keyring, false) && visits != [])
      || exists i :: 0 <= i < |visits| && Touches(visits[i], h)
    case Scratch(keys, made) =>
      h.lock.Buffer? && ((h.shared && h.lock.key in keys) || h.lock.key in made)
    case Derive(gate, mem, outer, out) =>
      || h == Hold(Gate(gate), false)
      || (h.shared && h.lock.Buffer? && (h.lock.key in outer || h.lock.key == mem || h.lock.key == out))
    case Close(gate) => h == Hold(Gate(gate), false) || (!h.shared && h.lock.Buffer? && h.lock.key in w.mems(gate))
  }

  lemma TakesJoin(a: seq<Action>, b: seq<Action>, h: Hold)
    ensures Take(h) in a + b <==> Take(h) in a || Take(h) in b
  {
  }

  lemma TakesShared(keys: seq<nat>, h: Hold)
    ensures Take(h) in Shared(keys) <==> h.shared && h.lock.Buffer? && h.lock.key in keys
  {
    if Take(h) in Shared(keys) {
      var i :| 0 <= i < |keys| && Shared(keys)[i] == Take(h);
      assert keys[i] == h.lock.key;
    }
    if h.shared && h.lock.Buffer? && h.lock.key in keys {
      var i :| 0 <= i < |keys| && keys[i] == h.lock.key;
      assert Shared(keys)[i] == Take(h);
    }
  }

  lemma {:induction false} TakesRenewals(gens: seq<nat>, h: Hold)
    ensures Take(h) in Renewals(gens) <==> !h.shared && h.lock.Prekey? && h.lock.gen in gens
    decreases |gens|
  {
    if gens == [] {
    } else {
      TakesRenewals(gens[1..], h);
      assert gens == [gens[0]] + gens[1..];
      TakesJoin([Alone(Prekey(gens[0])), Drop], Renewals(gens[1..]), h);
    }
  }

  lemma {:induction false} TakesDestroys(mems: seq<nat>, h: Hold)
    ensures Take(h) in Destroys(mems) <==> !h.shared && h.lock.Buffer? && h.lock.key in mems
    decreases |mems|
  {
    if mems == [] {
    } else {
      TakesDestroys(mems[1..], h);
      assert mems == [mems[0]] + mems[1..];
      TakesJoin([Alone(Buffer(mems[0])), Drop], Destroys(mems[1..]), h);
    }
  }

  lemma {:induction false} TakesNested(made: seq<nat>, h: Hold)
    ensures Take(h) in Nested(made) <==> h.lock.Buffer? && h.lock.key in made
    decreases |made|
  {
    if made == [] {
    } else {
      var tail := [Drop, Alone(Buffer(made[0])), Drop];
      TakesNested(made[1..], h);
      assert made == [made[0]] + made[1..];
      TakesJoin(Nested(made[1..]), tail, h);
      TakesJoin([Take(Hold(Buffer(made[0]), true))], Nested(made[1..]) + tail, h);
    }
  }

  lemma {:induction false} TakesVisits(visits: seq<Visit>, h: Hold)
    ensures Take(h) in Visits(visits) <==>
      (h == Hold(Keyring, false) && visits != []) || exists i :: 0 <= i < |visits| && Touches(visits[i], h)
    decreases |visits|
  {
    if visits == [] {
    } else {
      var v, after := visits[0], Visits(visits[1..]);
      var use := if v.gen.Some? then [Take(Hold(Prekey(v.gen.value), true)), Drop] else [];
      TakesVisits(visits[1..], h);
      TakesRenewals(v.renew, h);
      TakesJoin(use, after, h);
      TakesJoin([Drop], use + after, h);
      TakesJoin(Renewals(v.renew), [Drop] + (use + after), h);
      TakesJoin([Alone(Keyring)], Renewals(v.renew) + ([Drop] + (use + after)), h);
      TouchedMore(visits, h);
    }
  }

  lemma TouchedMore(visits: seq<Visit>, h: Hold)
    requires visits != []
    ensures (exists i :: 0 <= i < |visits| && Touches(visits[i], h)) <==>
      Touches(visits[0], h) || exists i :: 0 <= i < |visits[1..]| && Touches(visits[1..][i], h)
  {
    hide Touches;
    if i :| 0 <= i < |visits[1..]| && Touches(visits[1..][i], h) {
      assert visits[i + 1] == visits[1..][i];
    }
    if i :| 0 < i < |visits| && Touches(visits[i], h) {
      assert visits[1..][i - 1] == visits[i];
    }
  }

  /** What the script takes is exactly that. */
  lemma ScriptUses(w: World, call: Call, h: Hold)
    ensures Take(h) in Script(w, call) <==> Uses(w, call, h)
  {
    hide Script, Uses;
    match call
    case Borrow(keys) => BorrowUses(w, keys, h);
    case Exclude(lock) => ExcludeUses(w, lock, h);
    case Sealing(key, visits) => SealingUses(w, key, visits, h);
    case Scratch(keys, made) => ScratchUses(w, keys, made, h);
    case Derive(gate, mem, outer, out) => DeriveUses(w, gate, mem, outer, out, h);
    case Close(gate) => CloseUses(w, gate, h);
  }

  lemma BorrowUses(w: World, keys: seq<nat>, h: Hold)
    ensures Take(h) in Script(w, Borrow(keys)) <==> Uses(w, Borrow(keys), h)
  {
    hide Shared;
    TakesShared(keys, h);
  }

  lemma ExcludeUses(w: World, lock: Lock, h: Hold)
    ensures Take(h) in Script(w, Exclude(lock)) <==> Uses(w, Exclude(lock), h)
  {
  }

  lemma SealingUses(w: World, key: nat, visits: seq<Visit>, h: Hold)
    ensures Take(h) in Script(w, Sealing(key, visits)) <==> Uses(w, Sealing(key, visits), h)
  {
    hide Visits, Touches;
    TakesJoin([Alone(Buffer(key))], Visits(visits), h);
    TakesVisits(visits, h);
  }

  lemma ScratchUses(w: World, keys: seq<nat>, made: seq<nat>, h: Hold)
    ensures Take(h) in Script(w, Scratch(keys, made)) <==> Uses(w, Scratch(keys, made), h)
  {
    hide Shared, Nested;
    TakesShared(keys, h);
    TakesNested(made, h);
    TakesJoin(Shared(keys), Nested(made), h);
  }

  lemma DeriveUses(w: World, gate: nat, mem: nat, outer: seq<nat>, out: nat, h: Hold)
    ensures Take(h) in Script(w, Derive(gate, mem, outer, out)) <==> Uses(w, Derive(gate, mem, outer, out), h)
  {
    hide Shared;
    var order := BorrowOrder(mem, out);
    TakesShared(outer, h);
    TakesShared(order, h);
    TakesJoin([Alone(Gate(gate))], Shared(order), h);
    TakesJoin(Shared(outer), [Alone(Gate(gate))] + Shared(order), h);
  }

  lemma CloseUses(w: World, gate: nat, h: Hold)
    ensures Take(h) in Script(w, Close(gate)) <==> Uses(w, Close(gate), h)
  {
    hide Destroys;
    TakesDestroys(w.mems(gate), h);
    TakesJoin([Alone(Gate(gate))], Destroys(w.mems(gate)), h);
  }
}
