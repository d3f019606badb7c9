/** The arena's slot index: a free list threaded through the slot metadata.

securearena.go keeps the free list in the slots themselves, as a chain of int32 links
from freeHead to freeTail. The class below updates that chain in place and is proved to
behave as the first-in, first-out queue that the Arena protocol works on. */
module SlotIndex {

  /** The links spell out `free`: head first, last at the tail, terminated by -1, with no
      slot twice, and a slot off the list carries no link. */
  ghost predicate Linked(next: seq<int>, head: int, tail: int, free: seq<nat>) {
    && (forall k :: 0 <= k < |free| ==> free[k] < |next|)
    && (forall j, k :: 0 <= j < k < |free| ==> free[j] != free[k])
    && (free == [] ==> head == -1 && tail == -1)
    && (free != [] ==> head == free[0] && tail == free[|free| - 1] && next[tail] == -1)
    && (forall k :: 0 <= k < |free| - 1 ==> next[free[k]] == free[k + 1])
    && (forall i :: 0 <= i < |next| && i !in free ==> next[i] == -1)
  }

  /** The slot reached from `i` after following `steps` links; -1 past the end. */
  ghost function Follow(next: seq<int>, i: int, steps: nat): int
    decreases steps
  {
    if i < 0 || i >= |next| then -1
    else if steps == 0 then i
    else Follow(next, next[i], steps - 1)
  }

  /** Following the links visits the queue in order and then stops: no cycle, and the
      tail is the last slot reached. */
  lemma WalkVisitsFree(next: seq<int>, head: int, tail: int, free: seq<nat>, steps: nat)
    requires Linked(next, head, tail, free)
    ensures Follow(next, head, steps) == (if steps < |free| then free[steps] else -1)
    ensures free != [] ==> Follow(next, head, |free| - 1) == tail
  {
    if free != [] {
      WalkFrom(next, head, tail, free, 0, steps);
      WalkFrom(next, head, tail, free, 0, |free| - 1);
    }
  }

  lemma {:induction false} WalkFrom(next: seq<int>, head: int, tail: int, free: seq<nat>, k: nat, steps: nat)
    requires Linked(next, head, tail, free) && k < |free|
    ensures Follow(next, free[k], steps) == (if k + steps < |free| then free[k + steps] else -1)
    decreases steps
  {
    if steps == 0 || k + 1 == |free| {
    } else {
      WalkFrom(next, head, tail, free, k + 1, steps - 1);
    }
  }

  /** The chain: every slot's link, and the two ends. */
  datatype Links = Links(next: seq<int>, head: int, tail: int) {
    /** Every index it holds is a slot or the end. */
    predicate InRange() {
      && -1 <= head < |next| && -1 <= tail < |next|
      && forall i :: 0 <= i < |next| ==> -1 <= next[i] < |next|
    }

    /** What Acquire writes when it takes the head. */
    function Popped(): (l: Links)
      requires InRange() && head >= 0
      ensures l.InRange() && |l.next| == |next|
    {
      Links(next[head := -1], next[head], if next[head] < 0 then -1 else tail)
    }

    /** What Release writes when it puts `i` back. */
    function Appended(i: nat): (l: Links)
      requires InRange() && i < |next|
      ensures l.InRange() && |l.next| == |next|
    {
      Links(AppendLinks(next, tail, i), if tail >= 0 then head else i, i)
    }
  }

  lemma PopLinked(l: Links, free: seq<nat>)
    requires l.InRange() && Linked(l.next, l.head, l.tail, free) && l.head >= 0
    ensures free != [] && l.head == free[0]
    ensures Linked(l.Popped().next, l.Popped().head, l.Popped().tail, free[1..])
  {
    assert free != [];
    forall i | 0 <= i < |l.next| && i !in free[1..]
      ensures l.Popped().next[i] == -1
    {
      if i in free {
        assert free == [free[0]] + free[1..];
      }
    }
  }

  lemma AppendLinked(l: Links, free: seq<nat>, i: nat)
    requires l.InRange() && Linked(l.next, l.head, l.tail, free) && i < |l.next| && i !in free
    ensures Linked(l.Appended(i).next, l.Appended(i).head, l.Appended(i).tail, free + [i])
  {
    var next, q := l.Appended(i).next, free + [i];
    forall k | 0 <= k < |q| - 1
      ensures next[q[k]] == q[k + 1]
    {
      assert q[k] == free[k];
    }
    forall j | 0 <= j < |next| && j !in q
      ensures next[j] == -1
    {
      assert j != i;
      if free != [] {
        assert l.tail in free;
      }
      assert j !in free;
    }
  }

  /** What the links become when Release appends `i`. */
  function AppendLinks(next: seq<int>, tail: int, i: nat): seq<int>
    requires i < |next| && tail < |next|
  {
    var cleared := next[i := -1];
    if tail >= 0 then cleared[tail := i] else cleared
  }

  /** Why one handle may append only once: appending the slot that is already the tail
      links it to itself, and the list then hands that slot out for ever. */
  lemma {:induction false} DoubleAppendCycles(next: seq<int>, head: int, tail: int, free: seq<nat>, steps: nat)
    requires Linked(next, head, tail, free) && free != []
    ensures Follow(AppendLinks(next, tail, free[|free| - 1]), tail, steps) == tail
    decreases steps
  {
    if steps == 0 {
    } else {
      DoubleAppendCycles(next, head, tail, free, steps - 1);
    }
  }

  /** NewArena's seeding of the free list. */
  function Seeded(count: nat): Links {
    Links(seq(count, i => if i + 1 < count then i + 1 else -1), if count == 0 then -1 else 0, count - 1)
  }

  lemma SeededLinked(count: nat)
    ensures Seeded(count).InRange() && |Seeded(count).next| == count
    ensures Linked(Seeded(count).next, Seeded(count).head, Seeded(count).tail, seq(count, i => i))
  {
    var free := seq(count, i => i);
    forall i | 0 <= i < count
      ensures i in free
    {
      assert free[i] == i;
    }
  }

  datatype Acquired =
    | Slot(idx: nat, gen: nat)
    | ErrDestroyed
    | ErrWiped
    | ErrArenaFull

  class SlotTable {
    const count: nat
    const next: array<int>
    const generation: array<nat>
    var freeHead: int
    var freeTail: int
    var live: int
    ghost var free: seq<nat>

    ghost predicate Valid()
      reads this, next, generation
    {
      && next.Length == count && generation.Length == count
      && Links(next[..], freeHead, freeTail).InRange() && Linked(next[..], freeHead, freeTail, free)
      && live == count - |free|
    }

    /** NewArena's seeding: slot i links to i + 1, so that slots go out in order. */
    constructor (count: nat)
      requires 0 < count <= 0x7fff_ffff
      ensures Valid() && fresh(next) && fresh(generation) && this.count == count
      ensures free == seq(count, i => i)
      ensures forall i :: 0 <= i < count ==> generation[i] == 0
    {
      var links := new int[count];
      var i := 0;
      while i < count
        invariant 0 <= i <= count
        invariant forall k :: 0 <= k < i ==> links[k] == k + 1
      {
        links[i] := i + 1;
        i := i + 1;
      }
      links[count - 1] := -1;
      var gens := new nat[count](_ => 0);
      this.count, next, generation := count, links, gens;
      freeHead, freeTail, live := 0, count - 1, 0;
      free := seq(count, k => k);
      new;
      SeededLinked(count);
      assert next[..] == Seeded(count).next;
    }

    /** Acquire's critical section: refuse, or pop the head and make the slot live. */
    method Acquire(destroyed: bool, wiped: bool) returns (r: Acquired)
      requires Valid()
      modifies this, next, generation
      ensures Valid()
      ensures r == (if destroyed then ErrDestroyed else if wiped then ErrWiped
                    else if old(free) == [] then ErrArenaFull
                    else Slot(old(free)[0], old(generation[free[0]]) + 1))
      ensures r.Slot? ==> Links(next[..], freeHead, freeTail) == old(Links(next[..], freeHead, freeTail).Popped())
      ensures !r.Slot? ==> free == old(free) && live == old(live) && generation[..] == old(generation[..])
      ensures r.Slot? ==>
        && free == old(free)[1..] && live == old(live) + 1
        && generation[..] == old(generation[..])[r.idx := r.gen]
    {
      if destroyed {
        return ErrDestroyed;
      }
      if wiped {
        return ErrWiped;
      }
      var i := freeHead;
      if i < 0 {
        return ErrArenaFull;
      }
      freeHead := next[i];
      if freeHead < 0 {
        freeTail := -1;
      }
      next[i] := -1;
      generation[i] := generation[i] + 1;
      live := live + 1;
      free := free[1..];
      r := Slot(i, generation[i]);
    }

    /** Release's critical section: put a claimed slot back, at the tail. */
    method Append(i: nat)
      requires Valid() && i < count && i !in free
      modifies this, next
      ensures Valid()
      ensures free == old(free) + [i] && live == old(live) - 1
      ensures Links(next[..], freeHead, freeTail) == old(Links(next[..], freeHead, freeTail).Appended(i))
    {
      hide Linked;
      AppendLinked(Links(next[..], freeHead, freeTail), free, i);
      live := live - 1;
      next[i] := -1;
      if freeTail >= 0 {
        next[freeTail] := i;
      } else {
        freeHead := i;
      }
      freeTail := i;
      free := free + [i];
    }
  }
}
